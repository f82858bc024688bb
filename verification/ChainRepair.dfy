/**
 The script that recomputes every event's hashes, group by group. It groups by a key of
 the row; as written that key is the parent event id, although its comment says aggregate
 id. It also never commits its updates. Everything here holds for any key, and for a pass that
 commits as well as for the script as written.
 */
module ChainRepair {
  import opened Options
  import opened Sequences
  import opened OrderedDicts
  import opened HashChain
  import opened EventTable
  import opened Lineage

  type GroupKey = EventBody -> string

  /** As written: column 4, the parent event id. */
  const BY_PARENT: GroupKey :=
    (b: EventBody) => if Truthy(b.parent) then b.parent.value else "__no_aggregate__"

  /** As the script's comment has it. */
  const BY_AGGREGATE: GroupKey :=
    (b: EventBody) => if Truthy(b.aggregate) then b.aggregate.value else "__no_aggregate__"

  ghost predicate NullableOrder(le: (Option<string>, Option<string>) -> bool) {
    TotalOrder(le)
  }

  const AGGREGATE: Event -> Option<string> := (e: Event) => e.body.aggregate
  const NUMBER: Event -> int := (e: Event) => e.body.sequence

  /** `ORDER BY aggregate_id, sequence ASC` */
  function RowOrder(le: (Option<string>, Option<string>) -> bool): (Event, Event) -> bool {
    KeyThen(AGGREGATE, le, NUMBER)
  }

  function Fetched(le: (Option<string>, Option<string>) -> bool, table: seq<Event>): seq<Event> {
    SortBy(RowOrder(le), table)
  }

  function InGroup(key: GroupKey, k: string): Event -> bool {
    (e: Event) => key(e.body) == k
  }

  // ------------------------------------------------------- what the pass computes

  /** The last of the first `n` rows that belongs to group `k`. */
  function LastInGroup(key: GroupKey, rows: seq<Event>, k: string, n: nat): (r: Option<nat>)
    requires n <= |rows|
    ensures r.Some? ==> r.value < n && key(rows[r.value].body) == k
    ensures forall i :: (if r.Some? then r.value + 1 else 0) <= i < n ==> key(rows[i].body) != k
  {
    if n == 0 then None
    else if key(rows[n - 1].body) == k then Some(n - 1)
    else LastInGroup(key, rows, k, n - 1)
  }

  /** The recomputed pointer of row `i`: the recomputed digest of its predecessor in the group. */
  function NewPrev(h: Hasher<EventBody>, key: GroupKey, rows: seq<Event>, i: nat): Option<string>
    requires i < |rows|
    decreases i, 0
  {
    var j := LastInGroup(key, rows, key(rows[i].body), i);
    if j.None? then None else Some(NewSelf(h, key, rows, j.value))
  }

  /** The recomputed digest of row `i`. */
  function NewSelf(h: Hasher<EventBody>, key: GroupKey, rows: seq<Event>, i: nat): Digest
    requires i < |rows|
    decreases i, 1
  {
    h(ReadEvent(rows[i]).body, NewPrev(h, key, rows, i))
  }

  predicate NeedsUpdate(h: Hasher<EventBody>, key: GroupKey, rows: seq<Event>, i: nat)
    requires i < |rows|
  {
    NewSelf(h, key, rows, i) != rows[i].hashSelf || ReadBack(rows[i].hashPrev) != NewPrev(h, key, rows, i)
  }

  function FixedRow(h: Hasher<EventBody>, key: GroupKey, rows: seq<Event>, i: nat): Event
    requires i < |rows|
  {
    if NeedsUpdate(h, key, rows, i) then Link(rows[i].body, NewPrev(h, key, rows, i), NewSelf(h, key, rows, i))
    else rows[i]
  }

  /** `table'` is `table` with every fetched row replaced by its fixed form. */
  ghost predicate IsRepaired(h: Hasher<EventBody>, key: GroupKey, rows: seq<Event>,
                             table: seq<Event>, table': seq<Event>) {
    && |table'| == |table|
    && (forall t, i :: 0 <= t < |table| && 0 <= i < |rows| && table[t].body.id == rows[i].body.id ==>
          table'[t] == FixedRow(h, key, rows, i))
  }

  /**
   What a pass leaves behind. Each update runs on a connection of its own, which the script never
   commits: as written (`commits` false) closing it takes the update back.
   */
  ghost predicate AfterPass(h: Hasher<EventBody>, key: GroupKey, rows: seq<Event>,
                            table: seq<Event>, table': seq<Event>, commits: bool) {
    if commits then IsRepaired(h, key, rows, table, table') else table' == table
  }

  /** The positions of the rows that a pass counts as fixed. */
  ghost function ToFix(h: Hasher<EventBody>, key: GroupKey, rows: seq<Event>): set<nat> {
    set i: nat | i < |rows| && NeedsUpdate(h, key, rows, i)
  }

  // --------------------------------------------------------------- group positions

  /** `ps` lists, in order, the positions of the rows of group `k`; `events` are those rows. */
  ghost predicate ArePositions(key: GroupKey, rows: seq<Event>, k: string, events: seq<Event>, ps: seq<nat>) {
    && |ps| == |events|
    && (forall m :: 0 <= m < |ps| ==> ps[m] < |rows| && rows[ps[m]] == events[m] && key(rows[ps[m]].body) == k)
    && (forall i :: 0 <= i < |rows| && key(rows[i].body) == k ==> i in ps)
    && (forall m, n :: 0 <= m < n < |ps| ==> ps[m] < ps[n])
  }

  lemma PositionsSnoc(key: GroupKey, rows: seq<Event>, k: string, events: seq<Event>, ps: seq<nat>, x: Event)
    requires ArePositions(key, rows, k, events, ps)
    ensures if key(x.body) == k then ArePositions(key, rows + [x], k, events + [x], ps + [|rows|])
            else ArePositions(key, rows + [x], k, events, ps)
  {
    var all, ps' := rows + [x], ps + [|rows|];
    forall i | 0 <= i < |all| && key(all[i].body) == k && i < |rows| ensures i in ps && i in ps' {
      assert rows[i] == all[i];
      var m :| 0 <= m < |ps| && ps[m] == i;
      assert ps'[m] == i;
    }
    assert ps'[|ps|] == |rows|;
  }

  lemma {:induction false} PositionsExist(key: GroupKey, rows: seq<Event>, k: string) returns (ps: seq<nat>)
    ensures ArePositions(key, rows, k, Filter(InGroup(key, k), rows), ps)
  {
    if rows == [] {
      ps := [];
    } else {
      var init, x := rows[..|rows| - 1], rows[|rows| - 1];
      ps := PositionsExist(key, init, k);
      PositionsSnoc(key, init, k, Filter(InGroup(key, k), init), ps, x);
      assert rows == init + [x];
      FilterSnoc(InGroup(key, k), init, x);
      if key(x.body) == k {
        ps := ps + [|init|];
      }
    }
  }

  /** The `m`-th event of a group: its recomputed pointer is the digest recomputed just before. */
  lemma GroupEvent(h: Hasher<EventBody>, key: GroupKey, rows: seq<Event>, k: string, events: seq<Event>, ps: seq<nat>,
                   m: nat)
    requires ArePositions(key, rows, k, events, ps) && m < |ps|
    ensures ps[m] !in ps[..m]
    ensures LastInGroup(key, rows, k, ps[m]) == if m == 0 then None else Some(ps[m - 1])
    ensures NewPrev(h, key, rows, ps[m]) == if m == 0 then None else Some(NewSelf(h, key, rows, ps[m - 1]))
  {
    var j := LastInGroup(key, rows, k, ps[m]);
    if j.Some? {
      assert j.value in ps;
      var l :| 0 <= l < |ps| && ps[l] == j.value;
      assert l < m;
    }
  }

  // --------------------------------------------------------------------- the script

  /** `UPDATE event_store SET hash_self, hash_prev WHERE id = :id` */
  function Update(table: seq<Event>, id: string, hashPrev: Option<string>, hashSelf: string): (r: seq<Event>)
    ensures |r| == |table|
    ensures forall t :: 0 <= t < |table| ==>
      r[t] == if table[t].body.id == id then Link(table[t].body, hashPrev, hashSelf) else table[t]
  {
    Map((e: Event) => if e.body.id == id then Link(e.body, hashPrev, hashSelf) else e, table)
  }

  function GroupIn(groups: OrderedDict<seq<Event>>, k: string): seq<Event> {
    if k in groups.vals then groups.vals[k] else []
  }

  /** The dictionary holds every group's rows, in order. */
  ghost predicate GroupedBy(key: GroupKey, rows: seq<Event>, groups: OrderedDict<seq<Event>>) {
    groups.Valid() && forall k :: GroupIn(groups, k) == Filter(InGroup(key, k), rows)
  }

  /** The grouping loop. */
  method GroupRows(key: GroupKey, rows: seq<Event>) returns (groups: OrderedDict<seq<Event>>)
    ensures GroupedBy(key, rows, groups)
  {
    groups := Empty();
    for i := 0 to |rows|
      invariant GroupedBy(key, rows[..i], groups)
    {
      var k := key(rows[i].body);
      ghost var before := groups;
      if k !in groups.vals {
        groups := groups.Set(k, []);
      }
      groups := groups.Set(k, groups.vals[k] + [rows[i]]);
      assert rows[..i + 1] == rows[..i] + [rows[i]];
      forall g ensures GroupIn(groups, g) == Filter(InGroup(key, g), rows[..i + 1]) {
        FilterSnoc(InGroup(key, g), rows[..i], rows[i]);
        assert GroupIn(before, g) == Filter(InGroup(key, g), rows[..i]);
      }
    }
    assert rows[..|rows|] == rows;
  }

  /** Rows of the groups in `done` are fixed, the others are as fetched. */
  ghost predicate Progress(h: Hasher<EventBody>, key: GroupKey, rows: seq<Event>, table: seq<Event>,
                           table': seq<Event>, done: set<nat>) {
    && |table'| == |table|
    && (forall t, i :: 0 <= t < |table| && 0 <= i < |rows| && table[t].body.id == rows[i].body.id ==>
          table'[t] == if i in done then FixedRow(h, key, rows, i) else rows[i])
  }

  lemma UpdateProgress(h: Hasher<EventBody>, key: GroupKey, rows: seq<Event>, table: seq<Event>,
                       table': seq<Event>, done: set<nat>, i: nat)
    requires UniqueIds(rows) && i < |rows| && i !in done
    requires Progress(h, key, rows, table, table', done)
    ensures var fixed := FixedRow(h, key, rows, i);
      Progress(h, key, rows, table,
               if NeedsUpdate(h, key, rows, i) then Update(table', rows[i].body.id, fixed.hashPrev, fixed.hashSelf)
               else table',
               done + {i})
  {
    var fixed := FixedRow(h, key, rows, i);
    var after :=
      if NeedsUpdate(h, key, rows, i) then Update(table', rows[i].body.id, fixed.hashPrev, fixed.hashSelf) else table';
    forall t, j | 0 <= t < |table| && 0 <= j < |rows| && table[t].body.id == rows[j].body.id
      ensures after[t] == if j in done + {i} then FixedRow(h, key, rows, j) else rows[j]
    {
      assert table'[t].body == rows[j].body;
      assert (j == i) == (rows[j].body.id == rows[i].body.id);
    }
  }

  /** The table once a connection that changed it from `before` to `after` is closed. */
  function Closed(before: seq<Event>, after: seq<Event>, commits: bool): seq<Event> {
    if commits then after else before
  }

  /** What is stored while the pass runs: the progress so far, or nothing new. */
  ghost predicate Stored(h: Hasher<EventBody>, key: GroupKey, rows: seq<Event>, table: seq<Event>,
                         table': seq<Event>, commits: bool, done: set<nat>) {
    if commits then Progress(h, key, rows, table, table', done) else table' == table
  }

  /** The rows among `done` that needed an update. */
  ghost function Faulty(h: Hasher<EventBody>, key: GroupKey, rows: seq<Event>, done: set<nat>): set<nat> {
    set i | i in done && i < |rows| && NeedsUpdate(h, key, rows, i)
  }

  lemma FaultyStep(h: Hasher<EventBody>, key: GroupKey, rows: seq<Event>, done: set<nat>, i: nat)
    requires i < |rows| && i !in done
    ensures |Faulty(h, key, rows, done + {i})| ==
            |Faulty(h, key, rows, done)| + if NeedsUpdate(h, key, rows, i) then 1 else 0
  {
    var before, after := Faulty(h, key, rows, done), Faulty(h, key, rows, done + {i});
    if NeedsUpdate(h, key, rows, i) {
      assert after == before + {i};
    } else {
      assert after == before;
    }
  }

  /** One event of a group: recompute its hash, and update the row if a hash differs. */
  method FixEvent(h: Hasher<EventBody>, key: GroupKey, ghost table: seq<Event>, ghost rows: seq<Event>,
                  event: Event, prevHash: Option<string>, start: seq<Event>, commits: bool,
                  ghost done: set<nat>, ghost i: nat)
    returns (table': seq<Event>, expected: Digest, updated: bool)
    requires UniqueIds(rows) && i < |rows| && i !in done
    requires event == rows[i] && prevHash == NewPrev(h, key, rows, i)
    requires Stored(h, key, rows, table, start, commits, done)
    ensures Stored(h, key, rows, table, table', commits, done + {i})
    ensures expected == NewSelf(h, key, rows, i)
    ensures updated <==> NeedsUpdate(h, key, rows, i)
  {
    if commits {
      UpdateProgress(h, key, rows, table, start, done, i);
    }
    table', updated := start, false;
    expected := h(ReadEvent(event).body, prevHash);
    if expected != event.hashSelf || ReadBack(event.hashPrev) != prevHash {
      table' := Closed(start, Update(start, event.body.id, prevHash, expected), commits);
      updated := true;
    }
  }

  /** Where the loop over one group's events is after `m` events. */
  ghost predicate GroupInv(h: Hasher<EventBody>, key: GroupKey, rows: seq<Event>, ps: seq<nat>, m: nat,
                           before: set<nat>, done: set<nat>, fixedCount: nat)
    requires m <= |ps|
  {
    && (forall i :: i in done <==> i in before || i in ps[..m])
    && |Faulty(h, key, rows, done)| == |Faulty(h, key, rows, before)| + fixedCount
  }

  lemma GroupInvStep(h: Hasher<EventBody>, key: GroupKey, rows: seq<Event>, ps: seq<nat>, m: nat,
                     before: set<nat>, done: set<nat>, fixedCount: nat)
    requires m < |ps| && ps[m] < |rows| && ps[m] !in done && GroupInv(h, key, rows, ps, m, before, done, fixedCount)
    ensures GroupInv(h, key, rows, ps, m + 1, before, done + {ps[m]},
                     if NeedsUpdate(h, key, rows, ps[m]) then fixedCount + 1 else fixedCount)
  {
    FaultyStep(h, key, rows, done, ps[m]);
    assert ps[..m + 1] == ps[..m] + [ps[m]];
  }

  /** The loop over one group's events. */
  method FixGroup(h: Hasher<EventBody>, key: GroupKey, ghost table: seq<Event>, ghost rows: seq<Event>, ghost k: string,
                  events: seq<Event>, ghost ps: seq<nat>, start: seq<Event>, commits: bool, ghost before: set<nat>)
    returns (table': seq<Event>, fixedCount: nat, ghost done: set<nat>)
    requires UniqueIds(rows) && ArePositions(key, rows, k, events, ps)
    requires Stored(h, key, rows, table, start, commits, before)
    requires forall i :: i in before ==> i !in ps
    ensures Stored(h, key, rows, table, table', commits, done)
    ensures GroupInv(h, key, rows, ps, |ps|, before, done, fixedCount)
  {
    table' := start;
    fixedCount := 0;
    done := before;
    var prevHash: Option<string> := None;
    for m := 0 to |events|
      invariant prevHash == if m == 0 then None else Some(NewSelf(h, key, rows, ps[m - 1]))
      invariant Stored(h, key, rows, table, table', commits, done)
      invariant GroupInv(h, key, rows, ps, m, before, done, fixedCount)
    {
      GroupEvent(h, key, rows, k, events, ps, m);
      GroupInvStep(h, key, rows, ps, m, before, done, fixedCount);
      var expected, updated;
      table', expected, updated := FixEvent(h, key, table, rows, events[m], prevHash, table', commits, done, ps[m]);
      if updated {
        fixedCount := fixedCount + 1;
      }
      done := done + {ps[m]};
      prevHash := Some(expected);
    }
  }

  /** The loop over the groups. */
  method FixGroups(h: Hasher<EventBody>, key: GroupKey, table: seq<Event>, ghost rows: seq<Event>,
                   groups: OrderedDict<seq<Event>>, commits: bool) returns (table': seq<Event>, fixedCount: nat)
    requires UniqueIds(rows) && GroupedBy(key, rows, groups)
    requires Progress(h, key, rows, table, table, {})
    ensures AfterPass(h, key, rows, table, table', commits)
    ensures fixedCount == |ToFix(h, key, rows)|
  {
    table' := table;
    fixedCount := 0;
    ghost var done: set<nat> := {};
    for g := 0 to |groups.keys|
      invariant Stored(h, key, rows, table, table', commits, done)
      invariant forall i: nat :: i in done <==> i < |rows| && key(rows[i].body) in groups.keys[..g]
      invariant fixedCount == |Faulty(h, key, rows, done)|
    {
      var k := groups.keys[g];
      assert k in groups.keys;
      assert groups.vals[k] == GroupIn(groups, k);
      ghost var ps := PositionsExist(key, rows, k);
      var count;
      table', count, done := FixGroup(h, key, table, rows, k, groups.vals[k], ps, table', commits, done);
      assert ps[..|ps|] == ps;
      fixedCount := fixedCount + count;
      assert groups.keys[..g + 1] == groups.keys[..g] + [k];
    }
    assert groups.keys[..|groups.keys|] == groups.keys;
    forall i: nat | i < |rows| ensures i in done {
      var k := key(rows[i].body);
      var j := FilterFinds(InGroup(key, k), rows, i);
      assert GroupIn(groups, k) != [];
    }
    assert Faulty(h, key, rows, done) == ToFix(h, key, rows);
  }

  /**
   The whole script. If its updates are committed, every row keeps its content and its two hashes
   become those recomputed along its group; as written, nothing is stored. Either way it reports
   as fixed the number of rows whose hashes differ from the recomputed ones.
   */
  method FixEventHashes(h: Hasher<EventBody>, key: GroupKey, le: (Option<string>, Option<string>) -> bool,
                        table: seq<Event>, commits: bool)
    returns (table': seq<Event>, fixedCount: nat)
    requires UniqueIds(table)
    ensures AfterPass(h, key, Fetched(le, table), table, table', commits)
    ensures fixedCount == |ToFix(h, key, Fetched(le, table))|
  {
    var rows := SortBy(RowOrder(le), table);
    FetchedFacts(le, table);
    var groups := GroupRows(key, rows);
    table', fixedCount := FixGroups(h, key, table, rows, groups, commits);
  }

  /** The fetched rows are the table's rows, each once. */
  lemma FetchedFacts(le: (Option<string>, Option<string>) -> bool, table: seq<Event>)
    requires UniqueIds(table)
    ensures var rows := Fetched(le, table);
      && |rows| == |table| && UniqueIds(rows)
      && (forall t, i :: 0 <= t < |table| && 0 <= i < |rows| && table[t].body.id == rows[i].body.id ==>
            table[t] == rows[i])
  {
    var rows := Fetched(le, table);
    SortMultiset(RowOrder(le), table);
    forall i | 0 <= i < |rows| ensures rows[i] in table {
      SortAt(RowOrder(le), table, i);
    }
    SameRowsDistinct(table, rows);
    SameRowsAgree(table, rows);
  }

  lemma SameRowsDistinct(table: seq<Event>, rows: seq<Event>)
    requires UniqueIds(table) && multiset(rows) == multiset(table)
    requires forall i :: 0 <= i < |rows| ==> rows[i] in table
    ensures UniqueIds(rows)
  {
    forall i, j | 0 <= i < j < |rows| ensures rows[i].body.id != rows[j].body.id {
      if rows[i].body.id == rows[j].body.id {
        assert rows[i] in table && rows[j] in table;
        var t :| 0 <= t < |table| && table[t] == rows[i];
        var u :| 0 <= u < |table| && table[u] == rows[j];
        TwiceInMultiset(rows, i, j);
        DistinctOnce(table, rows[i]);
      }
    }
  }

  lemma SameRowsAgree(table: seq<Event>, rows: seq<Event>)
    requires UniqueIds(table) && forall i :: 0 <= i < |rows| ==> rows[i] in table
    ensures forall t, i :: 0 <= t < |table| && 0 <= i < |rows| && table[t].body.id == rows[i].body.id ==>
      table[t] == rows[i]
  {
    forall t, i | 0 <= t < |table| && 0 <= i < |rows| && table[t].body.id == rows[i].body.id
      ensures table[t] == rows[i]
    {
      assert rows[i] in table;
    }
  }
}
