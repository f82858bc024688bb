/**
 What holds after the repair pass, for every grouping key and every table: if its updates are
 committed (`IsRepaired`), and as written, when they are not.
 */
module ChainRepairProperties {
  import opened Options
  import opened Sequences
  import opened HashChain
  import opened EventTable
  import opened Lineage
  import opened ChainRepair

  type NullableLe = (Option<string>, Option<string>) -> bool

  // ---------------------------------------------------- fetching the repaired table

  function IndexOf(rows: seq<Event>, id: string): Option<nat> {
    if rows == [] then None
    else if rows[|rows| - 1].body.id == id then Some(|rows| - 1)
    else IndexOf(rows[..|rows| - 1], id)
  }

  lemma {:induction false} IndexOfFacts(rows: seq<Event>, id: string)
    ensures var i := IndexOf(rows, id);
      && (i.Some? ==> i.value < |rows| && rows[i.value].body.id == id)
      && (i.None? ==> forall j :: 0 <= j < |rows| ==> rows[j].body.id != id)
  {
    if rows != [] {
      IndexOfFacts(rows[..|rows| - 1], id);
    }
  }

  /** The pass as a function on rows. */
  function FixedForm(h: Hasher<EventBody>, key: GroupKey, rows: seq<Event>): Event -> Event {
    (e: Event) =>
      var i := IndexOf(rows, e.body.id);
      if i.Some? && i.value < |rows| && rows[i.value].body == e.body then FixedRow(h, key, rows, i.value) else e
  }

  lemma FixedFormAt(h: Hasher<EventBody>, key: GroupKey, rows: seq<Event>, i: nat)
    requires UniqueIds(rows) && i < |rows|
    ensures FixedForm(h, key, rows)(rows[i]) == FixedRow(h, key, rows, i)
  {
    IndexOfFacts(rows, rows[i].body.id);
  }

  lemma FixedFormKeepsBody(h: Hasher<EventBody>, key: GroupKey, rows: seq<Event>, e: Event)
    ensures FixedForm(h, key, rows)(e).body == e.body
  {
  }

  lemma RepairIsMap(h: Hasher<EventBody>, key: GroupKey, le: NullableLe, table: seq<Event>, table': seq<Event>)
    requires UniqueIds(table) && IsRepaired(h, key, Fetched(le, table), table, table')
    ensures table' == Map(FixedForm(h, key, Fetched(le, table)), table)
  {
    var rows := Fetched(le, table);
    FetchedFacts(le, table);
    forall t | 0 <= t < |table| ensures table'[t] == FixedForm(h, key, rows)(table[t]) {
      var i := SortFinds(RowOrder(le), table, t);
      FixedFormAt(h, key, rows, i);
    }
  }

  /** A second `SELECT` returns the same rows in the same places, in their fixed form. */
  lemma RefetchedRows(h: Hasher<EventBody>, key: GroupKey, le: NullableLe, table: seq<Event>, table': seq<Event>)
    requires UniqueIds(table) && IsRepaired(h, key, Fetched(le, table), table, table')
    ensures var rows, rows' := Fetched(le, table), Fetched(le, table');
      |rows'| == |rows| && forall i :: 0 <= i < |rows| ==> rows'[i] == FixedRow(h, key, rows, i)
  {
    var rows := Fetched(le, table);
    var f := FixedForm(h, key, rows);
    RepairIsMap(h, key, le, table, table');
    forall x, y ensures RowOrder(le)(x, y) == RowOrder(le)(f(x), f(y)) {
      FixedFormKeepsBody(h, key, rows, x);
      FixedFormKeepsBody(h, key, rows, y);
    }
    SortMap(f, RowOrder(le), RowOrder(le), table);
    FetchedFacts(le, table);
    forall i | 0 <= i < |rows| ensures f(rows[i]) == FixedRow(h, key, rows, i) {
      FixedFormAt(h, key, rows, i);
    }
  }

  ghost predicate SameBodies(rows: seq<Event>, rows': seq<Event>) {
    |rows'| == |rows| && forall i :: 0 <= i < |rows| ==> rows'[i].body == rows[i].body
  }

  lemma {:induction false} LastInGroupSame(key: GroupKey, rows: seq<Event>, rows': seq<Event>, k: string, n: nat)
    requires SameBodies(rows, rows') && n <= |rows|
    ensures LastInGroup(key, rows', k, n) == LastInGroup(key, rows, k, n)
  {
    if n > 0 {
      LastInGroupSame(key, rows, rows', k, n - 1);
    }
  }

  /** The recomputed hashes depend on the rows' contents only. */
  lemma {:induction false} RecomputeSame(h: Hasher<EventBody>, key: GroupKey, rows: seq<Event>, rows': seq<Event>,
                                         i: nat)
    requires SameBodies(rows, rows') && i < |rows|
    ensures NewPrev(h, key, rows', i) == NewPrev(h, key, rows, i)
    ensures NewSelf(h, key, rows', i) == NewSelf(h, key, rows, i)
  {
    var k := key(rows[i].body);
    LastInGroupSame(key, rows, rows', k, i);
    var j := LastInGroup(key, rows, k, i);
    if j.Some? {
      RecomputeSame(h, key, rows, rows', j.value);
    }
  }

  /** Reading a fixed row gives its content with exactly the recomputed hashes. */
  lemma ReadFixedRow(h: Hasher<EventBody>, key: GroupKey, rows: seq<Event>, i: nat)
    requires i < |rows|
    ensures ReadEvent(FixedRow(h, key, rows, i)) ==
            Link(ReadEvent(rows[i]).body, NewPrev(h, key, rows, i), NewSelf(h, key, rows, i))
  {
  }

  // ------------------------------------------------------------------ main results

  /**
   After a committed pass a second one fixes nothing, and the first one changed no column other
   than the two hashes.
   */
  lemma RepairIsIdempotent(h: Hasher<EventBody>, key: GroupKey, le: NullableLe, table: seq<Event>, table': seq<Event>)
    requires UniqueIds(table) && IsRepaired(h, key, Fetched(le, table), table, table')
    ensures |table'| == |table| && forall t :: 0 <= t < |table| ==> table'[t].body == table[t].body
    ensures var rows' := Fetched(le, table');
      forall i :: 0 <= i < |rows'| ==> !NeedsUpdate(h, key, rows', i)
  {
    var rows, rows' := Fetched(le, table), Fetched(le, table');
    FetchedFacts(le, table);
    forall t | 0 <= t < |table| ensures table'[t].body == table[t].body {
      var i := SortFinds(RowOrder(le), table, t);
      assert table'[t] == FixedRow(h, key, rows, i);
    }
    RefetchedRows(h, key, le, table, table');
    forall i | 0 <= i < |rows'| ensures !NeedsUpdate(h, key, rows', i) {
      RecomputeSame(h, key, rows, rows', i);
      ReadFixedRow(h, key, rows, i);
    }
  }

  /**
   A second pass finds nothing to fix exactly when the first one's updates were committed or it
   had nothing to fix. As written it counts the same rows again.
   */
  lemma SecondPassFindsNothingIff(h: Hasher<EventBody>, key: GroupKey, le: NullableLe,
                                  table: seq<Event>, table': seq<Event>, commits: bool)
    requires UniqueIds(table) && AfterPass(h, key, Fetched(le, table), table, table', commits)
    ensures |ToFix(h, key, Fetched(le, table'))| == if commits then 0 else |ToFix(h, key, Fetched(le, table))|
    ensures |ToFix(h, key, Fetched(le, table'))| == 0 <==>
      commits || forall i :: 0 <= i < |Fetched(le, table)| ==> !NeedsUpdate(h, key, Fetched(le, table), i)
  {
    if commits {
      RepairIsIdempotent(h, key, le, table, table');
      assert ToFix(h, key, Fetched(le, table')) == {};
    } else {
      NothingToFix(h, key, Fetched(le, table));
    }
  }

  lemma NothingToFix(h: Hasher<EventBody>, key: GroupKey, rows: seq<Event>)
    ensures |ToFix(h, key, rows)| == 0 <==> forall i :: 0 <= i < |rows| ==> !NeedsUpdate(h, key, rows, i)
  {
    var faults := ToFix(h, key, rows);
    if |faults| == 0 {
      forall i | 0 <= i < |rows| ensures !NeedsUpdate(h, key, rows, i) {
        assert i !in faults;
      }
    } else {
      assert faults != {};
    }
  }

  /** After a committed pass every group it formed is a chain that starts without a predecessor. */
  lemma GroupsBecomeChains(h: Hasher<EventBody>, key: GroupKey, le: NullableLe, table: seq<Event>, table': seq<Event>,
                           k: string)
    requires UniqueIds(table) && IsRepaired(h, key, Fetched(le, table), table, table')
    ensures var group := Map(ReadEvent, Filter(InGroup(key, k), Fetched(le, table')));
      Accepted(h, group) && Rooted(group)
  {
    var rows, rows' := Fetched(le, table), Fetched(le, table');
    RefetchedRows(h, key, le, table, table');
    var events := Filter(InGroup(key, k), rows');
    var ps := PositionsExist(key, rows', k);
    forall m | 0 <= m < |ps| ensures ReadEvent(rows'[ps[m]]) == Recomputed(h, key, rows', ps[m]) {
      RecomputeSame(h, key, rows, rows', ps[m]);
      ReadFixedRow(h, key, rows, ps[m]);
      FixedRowBody(h, key, rows, ps[m]);
    }
    RecomputedGroup(h, key, rows', k, events, ps);
  }

  /** Rows of a group that read as they are recomputed form a chain. */
  lemma RecomputedGroup(h: Hasher<EventBody>, key: GroupKey, rows: seq<Event>, k: string,
                        events: seq<Event>, ps: seq<nat>)
    requires ArePositions(key, rows, k, events, ps)
    requires forall m :: 0 <= m < |ps| ==> ReadEvent(rows[ps[m]]) == Recomputed(h, key, rows, ps[m])
    ensures Accepted(h, Map(ReadEvent, events)) && Rooted(Map(ReadEvent, events))
  {
    var group := Map(ReadEvent, events);
    forall m | 0 <= m < |group|
      ensures SelfOk(h, group[m]) && PrevOk(group, m) && (m == 0 ==> group[m].hashPrev == None)
    {
      GroupEvent(h, key, rows, k, events, ps, m);
      assert group[m] == Recomputed(h, key, rows, ps[m]);
      if m > 0 {
        assert group[m - 1] == Recomputed(h, key, rows, ps[m - 1]);
      }
    }
  }

  /** A row of a group that already is such a chain is left untouched. */
  lemma ValidGroupUntouched(h: Hasher<EventBody>, key: GroupKey, rows: seq<Event>, i: nat)
    requires i < |rows|
    requires Accepted(h, Map(ReadEvent, Filter(InGroup(key, key(rows[i].body)), rows)))
    requires Rooted(Map(ReadEvent, Filter(InGroup(key, key(rows[i].body)), rows)))
    ensures FixedRow(h, key, rows, i) == rows[i]
  {
    var k := key(rows[i].body);
    var ps := PositionsExist(key, rows, k);
    ValidRow(h, key, rows, k, Filter(InGroup(key, k), rows), ps, i);
  }

  lemma ValidRow(h: Hasher<EventBody>, key: GroupKey, rows: seq<Event>, k: string,
                 events: seq<Event>, ps: seq<nat>, i: nat)
    requires ArePositions(key, rows, k, events, ps) && i < |rows| && key(rows[i].body) == k
    requires Accepted(h, Map(ReadEvent, events)) && Rooted(Map(ReadEvent, events))
    ensures FixedRow(h, key, rows, i) == rows[i]
  {
    assert i in ps;
    var m :| 0 <= m < |ps| && ps[m] == i;
    ValidUpTo(h, key, rows, k, events, ps, m);
  }

  lemma {:induction false} ValidUpTo(h: Hasher<EventBody>, key: GroupKey, rows: seq<Event>, k: string,
                                     events: seq<Event>, ps: seq<nat>, m: nat)
    requires ArePositions(key, rows, k, events, ps) && m < |ps|
    requires Accepted(h, Map(ReadEvent, events)) && Rooted(Map(ReadEvent, events))
    ensures !NeedsUpdate(h, key, rows, ps[m])
  {
    if m > 0 {
      ValidUpTo(h, key, rows, k, events, ps, m - 1);
    }
    ValidEventUntouched(h, key, rows, k, events, ps, m);
  }

  lemma ValidEventUntouched(h: Hasher<EventBody>, key: GroupKey, rows: seq<Event>, k: string,
                            events: seq<Event>, ps: seq<nat>, m: nat)
    requires ArePositions(key, rows, k, events, ps) && m < |ps|
    requires Accepted(h, Map(ReadEvent, events)) && Rooted(Map(ReadEvent, events))
    requires m > 0 ==> !NeedsUpdate(h, key, rows, ps[m - 1])
    ensures !NeedsUpdate(h, key, rows, ps[m])
  {
    GroupEvent(h, key, rows, k, events, ps, m);
    var group := Map(ReadEvent, events);
    assert SelfOk(h, group[m]) && PrevOk(group, m);
  }

  /** Some row of group `k` needs an update. */
  ghost predicate GroupNeedsUpdate(h: Hasher<EventBody>, key: GroupKey, rows: seq<Event>, k: string) {
    exists i :: 0 <= i < |rows| && key(rows[i].body) == k && NeedsUpdate(h, key, rows, i)
  }

  ghost predicate GroupIsChain(h: Hasher<EventBody>, key: GroupKey, rows: seq<Event>, k: string) {
    var group := Map(ReadEvent, Filter(InGroup(key, k), rows));
    Accepted(h, group) && Rooted(group)
  }

  /** A group is a chain that starts without a predecessor exactly when none of its rows needs an update. */
  lemma GroupIsChainIff(h: Hasher<EventBody>, key: GroupKey, rows: seq<Event>, k: string)
    ensures GroupIsChain(h, key, rows, k) <==> !GroupNeedsUpdate(h, key, rows, k)
  {
    var events := Filter(InGroup(key, k), rows);
    var ps := PositionsExist(key, rows, k);
    if GroupIsChain(h, key, rows, k) {
      forall i | 0 <= i < |rows| && key(rows[i].body) == k ensures !NeedsUpdate(h, key, rows, i) {
        assert i in ps;
        var m :| 0 <= m < |ps| && ps[m] == i;
        ValidUpTo(h, key, rows, k, events, ps, m);
      }
    }
    if !GroupNeedsUpdate(h, key, rows, k) {
      forall m | 0 <= m < |ps| ensures ReadEvent(rows[ps[m]]) == Recomputed(h, key, rows, ps[m]) {
        assert !NeedsUpdate(h, key, rows, ps[m]);
      }
      RecomputedGroup(h, key, rows, k, events, ps);
    }
  }

  /**
   After a pass a group is such a chain exactly when the updates were committed or none of its
   rows needed one.
   */
  lemma ChainAfterPassIff(h: Hasher<EventBody>, key: GroupKey, le: NullableLe,
                          table: seq<Event>, table': seq<Event>, commits: bool, k: string)
    requires UniqueIds(table) && AfterPass(h, key, Fetched(le, table), table, table', commits)
    ensures GroupIsChain(h, key, Fetched(le, table'), k) <==>
            commits || !GroupNeedsUpdate(h, key, Fetched(le, table), k)
  {
    if commits {
      GroupsBecomeChains(h, key, le, table, table', k);
    } else {
      GroupIsChainIff(h, key, Fetched(le, table), k);
    }
  }

  /** Neighbouring rows of the stream are in the same group. */
  ghost predicate OneGroup(key: GroupKey, s: seq<Event>) {
    forall m :: 0 < m < |s| ==> key(s[m].body) == key(s[m - 1].body)
  }

  /** An aggregate's rows stand together among the fetched rows, by sequence. */
  lemma StreamInRows(le: NullableLe, table: seq<Event>, a: string) returns (lo: nat, hi: nat)
    requires NullableOrder(le)
    ensures lo <= hi <= |Fetched(le, table)|
    ensures Stream(table, a) == Fetched(le, table)[lo..hi]
    ensures forall i :: 0 <= i < |Fetched(le, table)| ==> (ByAggregate(a)(Fetched(le, table)[i]) <==> lo <= i < hi)
  {
    var rows := Fetched(le, table);
    KeyThenIsTotal(AGGREGATE, le, NUMBER);
    SortSorted(RowOrder(le), table);
    AggregateTogether(le, rows, a);
    lo, hi := FilterContiguous(ByAggregate(a), rows);
    FilterSort(ByAggregate(a), RowOrder(le), table);
    SameAggregateOrder(le, table, a);
  }

  lemma AggregateTogether(le: NullableLe, rows: seq<Event>, a: string)
    requires NullableOrder(le) && Sorted(RowOrder(le), rows)
    ensures Contiguous(ByAggregate(a), rows)
  {
    forall i, j, k | 0 <= i < j < k < |rows| && ByAggregate(a)(rows[i]) && ByAggregate(a)(rows[k])
      ensures ByAggregate(a)(rows[j])
    {
      SameKeyTogether(AGGREGATE, le, NUMBER, rows, i, j, k);
    }
  }

  lemma SameAggregateOrder(le: NullableLe, table: seq<Event>, a: string)
    ensures SortBy(RowOrder(le), Filter(ByAggregate(a), table)) == Stream(table, a)
  {
    var f := Filter(ByAggregate(a), table);
    forall i | 0 <= i < |f| ensures AGGREGATE(f[i]) == Some(a) {
      FilterAt(ByAggregate(a), table, i);
    }
    WithinKey(AGGREGATE, le, NUMBER, BySequence(), f);
  }

  lemma FixedRowBody(h: Hasher<EventBody>, key: GroupKey, rows: seq<Event>, i: nat)
    requires i < |rows|
    ensures FixedRow(h, key, rows, i).body == rows[i].body
  {
  }

  predicate Between(lo: nat, hi: nat, i: nat) {
    lo <= i < hi
  }

  lemma SameInterval(lo: nat, hi: nat, lo': nat, hi': nat, n: nat)
    requires lo <= hi <= n && lo' <= hi' <= n
    requires forall i: nat :: i < n ==> (Between(lo, hi, i) <==> Between(lo', hi', i))
    ensures (lo == hi && lo' == hi') || (lo == lo' && hi == hi')
  {
    if lo < hi {
      assert Between(lo, hi, lo) && Between(lo, hi, hi - 1);
    }
    if lo' < hi' {
      assert Between(lo', hi', lo') && Between(lo', hi', hi' - 1);
    }
  }

  /** A repaired aggregate stream, row by row, in terms of the rows as fetched before. */
  lemma RepairedStream(h: Hasher<EventBody>, key: GroupKey, le: NullableLe, table: seq<Event>, table': seq<Event>,
                       a: string)
    returns (lo: nat, hi: nat)
    requires NullableOrder(le)
    requires UniqueIds(table) && IsRepaired(h, key, Fetched(le, table), table, table')
    ensures lo <= hi <= |Fetched(le, table)| && Stream(table, a) == Fetched(le, table)[lo..hi]
    ensures |Reads(table', a)| == hi - lo
    ensures forall m :: 0 <= m < hi - lo ==>
      Reads(table', a)[m] == Recomputed(h, key, Fetched(le, table), lo + m)
  {
    var rows, rows' := Fetched(le, table), Fetched(le, table');
    RefetchedRows(h, key, le, table, table');
    lo, hi := StreamInRows(le, table, a);
    var lo', hi' := StreamInRows(le, table', a);
    SameSelection(h, key, rows, rows', a, lo, hi, lo', hi');
    ReadSlice(h, key, rows, rows', lo, hi);
    assert rows'[lo'..hi'] == rows'[lo..hi];
  }

  /** The same rows belong to the aggregate before and after. */
  lemma SameSelection(h: Hasher<EventBody>, key: GroupKey, rows: seq<Event>, rows': seq<Event>, a: string,
                      lo: nat, hi: nat, lo': nat, hi': nat)
    requires |rows'| == |rows| && forall i :: 0 <= i < |rows| ==> rows'[i] == FixedRow(h, key, rows, i)
    requires lo <= hi <= |rows| && lo' <= hi' <= |rows|
    requires forall i :: 0 <= i < |rows| ==> (ByAggregate(a)(rows[i]) <==> lo <= i < hi)
    requires forall i :: 0 <= i < |rows'| ==> (ByAggregate(a)(rows'[i]) <==> lo' <= i < hi')
    ensures (lo == hi && lo' == hi') || (lo == lo' && hi == hi')
  {
    forall i: nat | i < |rows| ensures Between(lo, hi, i) <==> Between(lo', hi', i) {
      FixedRowBody(h, key, rows, i);
      assert ByAggregate(a)(rows[i]) <==> ByAggregate(a)(rows'[i]);
    }
    SameInterval(lo, hi, lo', hi', |rows|);
  }

  lemma ReadSlice(h: Hasher<EventBody>, key: GroupKey, rows: seq<Event>, rows': seq<Event>, lo: nat, hi: nat)
    requires |rows'| == |rows| && forall i :: 0 <= i < |rows| ==> rows'[i] == FixedRow(h, key, rows, i)
    requires lo <= hi <= |rows|
    ensures forall m :: 0 <= m < hi - lo ==> Map(ReadEvent, rows'[lo..hi])[m] == Recomputed(h, key, rows, lo + m)
  {
    forall m | 0 <= m < hi - lo ensures Map(ReadEvent, rows'[lo..hi])[m] == Recomputed(h, key, rows, lo + m) {
      SliceAt(rows', lo, hi, m);
      ReadFixedRow(h, key, rows, lo + m);
    }
  }

  /**
   After a committed pass `verify_integrity` accepts an aggregate if its neighbouring rows were
   in the same group, and otherwise only if two rows of the table collide as recomputed. Which of
   the two it is depends on the rows' contents only, before the pass runs. As written it accepts
   what it accepted before.
   */
  lemma RepairedStreamAccepted(h: Hasher<EventBody>, key: GroupKey, le: NullableLe,
                               table: seq<Event>, table': seq<Event>, commits: bool, a: string)
    requires NullableOrder(le)
    requires UniqueIds(table) && AfterPass(h, key, Fetched(le, table), table, table', commits)
    ensures commits && OneGroup(key, Stream(table, a)) ==> Accepted(h, Reads(table', a))
    ensures commits && Accepted(h, Reads(table', a)) && !OneGroup(key, Stream(table, a)) ==>
      RepairedRowsCollide(h, key, Fetched(le, table))
    ensures !commits ==> (Accepted(h, Reads(table', a)) <==> Accepted(h, Reads(table, a)))
  {
    if commits {
      var rows := Fetched(le, table);
      var lo, hi := RepairedStream(h, key, le, table, table', a);
      if OneGroup(key, Stream(table, a)) {
        OneGroupAccepted(h, key, rows, lo, hi, Reads(table', a));
      } else if Accepted(h, Reads(table', a)) {
        FetchedFacts(le, table);
        SplitStreamCollides(h, key, rows, lo, hi, Reads(table', a));
      }
    }
  }

  lemma SplitStreamCollides(h: Hasher<EventBody>, key: GroupKey, rows: seq<Event>, lo: nat, hi: nat, r: seq<Event>)
    requires lo <= hi <= |rows| && UniqueIds(rows) && !OneGroup(key, rows[lo..hi])
    requires |r| == hi - lo && forall m :: 0 <= m < |r| ==> r[m] == Recomputed(h, key, rows, lo + m)
    requires Accepted(h, r)
    ensures RepairedRowsCollide(h, key, rows)
  {
    var s := rows[lo..hi];
    var m :| 0 < m < |s| && key(s[m].body) != key(s[m - 1].body);
    SliceAt(rows, lo, hi, m);
    SliceAt(rows, lo, hi, m - 1);
    assert PrevOk(r, m);
    assert r[m] == Recomputed(h, key, rows, lo + m) && r[m - 1] == Recomputed(h, key, rows, lo + m - 1);
    SplitGroupsCollide(h, key, rows, lo + m);
  }

  lemma SliceAt(rows: seq<Event>, lo: nat, hi: nat, m: nat)
    requires lo <= hi <= |rows| && m < hi - lo
    ensures rows[lo..hi][m] == rows[lo + m]
  {
  }

  lemma OneGroupAccepted(h: Hasher<EventBody>, key: GroupKey, rows: seq<Event>, lo: nat, hi: nat, r: seq<Event>)
    requires lo <= hi <= |rows| && OneGroup(key, rows[lo..hi])
    requires |r| == hi - lo && forall m :: 0 <= m < |r| ==> r[m] == Recomputed(h, key, rows, lo + m)
    ensures Accepted(h, r)
  {
    forall m | 0 <= m < |r| ensures SelfOk(h, r[m]) && PrevOk(r, m) {
      if m > 0 {
        assert rows[lo..hi][m] == rows[lo + m] && rows[lo..hi][m - 1] == rows[lo + m - 1];
        assert LastInGroup(key, rows, key(rows[lo + m].body), lo + m) == Some(lo + m - 1);
      }
    }
  }

  /** A row pointing at a neighbour of another group shares its digest with its own predecessor. */
  lemma SplitGroupsCollide(h: Hasher<EventBody>, key: GroupKey, rows: seq<Event>, i: nat)
    requires UniqueIds(rows) && 0 < i < |rows| && key(rows[i].body) != key(rows[i - 1].body)
    requires NewPrev(h, key, rows, i) == Some(NewSelf(h, key, rows, i - 1))
    ensures RepairedRowsCollide(h, key, rows)
  {
    var j := LastInGroup(key, rows, key(rows[i].body), i).value;
    assert Recomputed(h, key, rows, j).body.id != Recomputed(h, key, rows, i - 1).body.id;
    assert Collides(h, Recomputed(h, key, rows, j), Recomputed(h, key, rows, i - 1));
  }

  function Recomputed(h: Hasher<EventBody>, key: GroupKey, rows: seq<Event>, i: nat): Event
    requires i < |rows|
  {
    Link(ReadEvent(rows[i]).body, NewPrev(h, key, rows, i), NewSelf(h, key, rows, i))
  }

  ghost predicate RepairedRowsCollide(h: Hasher<EventBody>, key: GroupKey, rows: seq<Event>) {
    exists i, j :: 0 <= i < |rows| && 0 <= j < |rows|
      && Collides(h, Recomputed(h, key, rows, i), Recomputed(h, key, rows, j))
  }

  /**
   Grouped by aggregate id, a pass leaves a stream accepted exactly when it is committed or the
   stream was accepted before.
   */
  lemma ByAggregateRepairsEveryStream(h: Hasher<EventBody>, le: NullableLe,
                                      table: seq<Event>, table': seq<Event>, commits: bool, a: string)
    requires NullableOrder(le)
    requires UniqueIds(table) && AfterPass(h, BY_AGGREGATE, Fetched(le, table), table, table', commits)
    ensures Accepted(h, Reads(table', a)) <==> commits || Accepted(h, Reads(table, a))
  {
    var s := Stream(table, a);
    forall m | 0 <= m < |s| ensures s[m].body.aggregate == Some(a) {
      SortAt(BySequence(), Filter(ByAggregate(a), table), m);
      var j :| 0 <= j < |Filter(ByAggregate(a), table)| && Filter(ByAggregate(a), table)[j] == s[m];
      FilterAt(ByAggregate(a), table, j);
    }
    RepairedStreamAccepted(h, BY_AGGREGATE, le, table, table', commits, a);
  }

  /**
   Grouped as written, a committed pass breaks ordinary streams: an event that is not the first
   of its aggregate and is the only one with its parent loses its predecessor hash, on which
   `verify_integrity` raises. As written the event stays as it was.
   */
  lemma OnlyChildLosesPredecessor(h: Hasher<EventBody>, le: NullableLe,
                                  table: seq<Event>, table': seq<Event>, commits: bool, a: string, m: nat)
    requires NullableOrder(le)
    requires UniqueIds(table) && AfterPass(h, BY_PARENT, Fetched(le, table), table, table', commits)
    requires 0 < m < |Stream(table, a)|
    requires forall t :: 0 <= t < |table| && table[t] != Stream(table, a)[m] ==>
      BY_PARENT(table[t].body) != BY_PARENT(Stream(table, a)[m].body)
    ensures m < |Reads(table', a)|
    ensures Reads(table', a)[m].hashPrev == if commits then None else Reads(table, a)[m].hashPrev
  {
    if commits {
      var rows := Fetched(le, table);
      var lo, hi := RepairedStream(h, BY_PARENT, le, table, table', a);
      var j := LastInGroup(BY_PARENT, rows, BY_PARENT(rows[lo + m].body), lo + m);
      FetchedFacts(le, table);
      if j.Some? {
        SortAt(RowOrder(le), table, j.value);
      }
    }
  }
}
