/**
 The audit ledger: one hash chain per trace, verified for all traces in a single pass over
 the rows ordered by trace and sequence. Unlike the event store, `record` holds no lock.
 */
module AuditLedger {
  import opened Options
  import opened Sequences
  import opened HashChain
  import opened EventTable

  datatype AuditBody = AuditBody(
    id: string, eventType: string, actor: string, action: string, resourceType: string,
    resourceId: Option<string>, details: Object, severity: string, traceId: Option<string>,
    sequence: int, createdAt: string)

  type Entry = Link<AuditBody>

  /** The arguments of `record`. */
  datatype Record = Record(
    eventType: string, actor: string, action: string, resourceType: string,
    resourceId: Option<string>, details: Option<Object>, severity: string, traceId: Option<string>)

  /** `_row_to_entry` */
  function ReadEntry(e: Entry): Entry {
    Link(e.body.(resourceId := ReadBack(e.body.resourceId), traceId := ReadBack(e.body.traceId)),
         ReadBack(e.hashPrev), e.hashSelf)
  }

  predicate FaithfulEntry(e: Entry) {
    e.body.resourceId != Some("") && e.body.traceId != Some("")
  }

  /** Exactly which rows are read back as they were stored. */
  lemma ReadsBackWhole(e: Entry)
    ensures ReadEntry(e) == e <==>
            e.body.resourceId != Some("") && e.body.traceId != Some("") && e.hashPrev != Some("")
    ensures var r := ReadEntry(e);
      r.body.resourceId != Some("") && r.body.traceId != Some("") && r.hashPrev != Some("") && r.hashSelf == e.hashSelf
  {
    var r := ReadEntry(e);
    if e.body.resourceId == Some("") || e.body.traceId == Some("") {
      assert r.body.resourceId != e.body.resourceId || r.body.traceId != e.body.traceId;
    }
  }

  // ----------------------------------------------------------------- ordering

  /** `COALESCE(trace_id, '')` */
  function TraceKey(e: Entry): string {
    if e.body.traceId.Some? then e.body.traceId.value else ""
  }

  /** The database's collation: some total order on strings. */
  ghost predicate Collation(le: (string, string) -> bool) {
    TotalOrder(le)
  }

  const NUMBER: Entry -> int := (e: Entry) => e.body.sequence

  /** `ORDER BY COALESCE(trace_id, ''), sequence ASC` */
  function RowOrder(le: (string, string) -> bool): (Entry, Entry) -> bool {
    KeyThen(TraceKey, le, NUMBER)
  }

  function EntryOrder(): (Entry, Entry) -> bool {
    (x: Entry, y: Entry) => x.body.sequence <= y.body.sequence
  }

  function ByKey(k: string): Entry -> bool {
    (e: Entry) => TraceKey(e) == k
  }

  /** One trace's rows, by sequence. The rows without a trace are the trace "". */
  function TraceStream(table: seq<Entry>, k: string): seq<Entry> {
    SortBy(EntryOrder(), Filter(ByKey(k), table))
  }

  // ------------------------------------------------------------- verification

  datatype Fault = SelfHashMismatch | ChainBroken

  datatype LedgerReport = LedgerReport(valid: bool, checked: nat, violations: seq<(nat, Fault)>)

  /** What the single pass checks: a link only between neighbours of the same trace. */
  predicate LinkChecked(rows: seq<Entry>, i: nat)
    requires i < |rows|
  {
    i > 0 && TraceKey(rows[i - 1]) == TraceKey(rows[i]) ==> PrevOk(rows, i)
  }

  ghost predicate PassOk(h: Hasher<AuditBody>, rows: seq<Entry>) {
    forall i :: 0 <= i < |rows| ==> SelfOk(h, rows[i]) && LinkChecked(rows, i)
  }

  /** Rows of one trace stand together. */
  ghost predicate Grouped(rows: seq<Entry>) {
    forall i, j, k :: 0 <= i < j < k < |rows| && TraceKey(rows[i]) == TraceKey(rows[k]) ==>
      TraceKey(rows[j]) == TraceKey(rows[i])
  }

  ghost predicate TraceAccepted(h: Hasher<AuditBody>, rows: seq<Entry>, k: string) {
    Accepted(h, Filter(ByKey(k), rows))
  }

  ghost predicate EachTraceAccepted(h: Hasher<AuditBody>, rows: seq<Entry>) {
    forall k :: TraceAccepted(h, rows, k)
  }

  lemma PassOkSnoc(h: Hasher<AuditBody>, rows: seq<Entry>, x: Entry)
    ensures PassOk(h, rows + [x]) <==>
            && PassOk(h, rows) && SelfOk(h, x)
            && (rows != [] && TraceKey(rows[|rows| - 1]) == TraceKey(x) ==>
                  x.hashPrev == Some(rows[|rows| - 1].hashSelf))
  {
    var all := rows + [x];
    forall i | 0 <= i < |rows| ensures LinkChecked(all, i) == LinkChecked(rows, i) {
    }
    if PassOk(h, all) {
      assert SelfOk(h, all[|rows|]) && LinkChecked(all, |rows|);
      forall i | 0 <= i < |rows| ensures SelfOk(h, rows[i]) && LinkChecked(rows, i) {
        assert all[i] == rows[i] && SelfOk(h, all[i]);
      }
    }
  }

  lemma EachTraceSnoc(h: Hasher<AuditBody>, rows: seq<Entry>, x: Entry)
    ensures var f := Filter(ByKey(TraceKey(x)), rows);
      EachTraceAccepted(h, rows + [x]) <==>
        EachTraceAccepted(h, rows) && SelfOk(h, x) && (f != [] ==> x.hashPrev == Some(f[|f| - 1].hashSelf))
  {
    var f := Filter(ByKey(TraceKey(x)), rows);
    forall k
      ensures TraceAccepted(h, rows + [x], k) <==>
              TraceAccepted(h, rows, k)
              && (k == TraceKey(x) ==> SelfOk(h, x) && (f != [] ==> x.hashPrev == Some(f[|f| - 1].hashSelf)))
    {
      FilterSnoc(ByKey(k), rows, x);
      AcceptedSnoc(h, f, x);
    }
    if EachTraceAccepted(h, rows + [x]) {
      assert TraceAccepted(h, rows + [x], TraceKey(x));
    }
  }

  /** The previous row of a trace is the row just before, or there is none. */
  lemma LastOfGroup(rows: seq<Entry>, x: Entry)
    requires Grouped(rows + [x])
    ensures var f := Filter(ByKey(TraceKey(x)), rows);
      if rows != [] && TraceKey(rows[|rows| - 1]) == TraceKey(x) then f != [] && f[|f| - 1] == rows[|rows| - 1]
      else f == []
  {
    var p := ByKey(TraceKey(x));
    if rows != [] && TraceKey(rows[|rows| - 1]) == TraceKey(x) {
    } else {
      forall e | e in rows ensures !p(e) {
        var i :| 0 <= i < |rows| && rows[i] == e;
        var all, last := rows + [x], |rows| - 1;
        assert all[i] == e && all[last] == rows[last] && all[last + 1] == x;
        assert TraceKey(all[last]) != TraceKey(all[last + 1]);
      }
      FilterNone(p, rows);
    }
  }

  /** One pass over grouped rows finds nothing exactly when every trace verifies on its own. */
  lemma {:induction false} PassIsPerTrace(h: Hasher<AuditBody>, rows: seq<Entry>)
    requires Grouped(rows)
    ensures PassOk(h, rows) <==> EachTraceAccepted(h, rows)
  {
    if rows != [] {
      var init, x := rows[..|rows| - 1], rows[|rows| - 1];
      assert rows == init + [x];
      assert Grouped(init) by {
        assert forall i :: 0 <= i < |init| ==> init[i] == rows[i];
      }
      PassIsPerTrace(h, init);
      PassOkSnoc(h, init, x);
      EachTraceSnoc(h, init, x);
      LastOfGroup(init, x);
    }
  }

  /** The ordered rows, as read, hold each trace's own stream. */
  lemma OrderedRows(le: (string, string) -> bool, table: seq<Entry>)
    requires Collation(le)
    ensures var rows := Map(ReadEntry, SortBy(RowOrder(le), table));
      && Grouped(rows)
      && forall k :: Filter(ByKey(k), rows) == Map(ReadEntry, TraceStream(table, k))
  {
    var ordered := SortBy(RowOrder(le), table);
    OrderedIsGrouped(le, table, ordered);
    forall k ensures Filter(ByKey(k), Map(ReadEntry, ordered)) == Map(ReadEntry, TraceStream(table, k)) {
      OrderedTrace(le, table, k);
    }
  }

  lemma OrderedIsGrouped(le: (string, string) -> bool, table: seq<Entry>, ordered: seq<Entry>)
    requires Collation(le) && ordered == SortBy(RowOrder(le), table)
    ensures Grouped(Map(ReadEntry, ordered))
  {
    KeyThenIsTotal(TraceKey, le, NUMBER);
    SortSorted(RowOrder(le), table);
    SortedIsGrouped(le, ordered);
    var rows := Map(ReadEntry, ordered);
    assert forall i :: 0 <= i < |rows| ==> TraceKey(rows[i]) == TraceKey(ordered[i]);
  }

  lemma SortedIsGrouped(le: (string, string) -> bool, rows: seq<Entry>)
    requires Collation(le) && Sorted(RowOrder(le), rows)
    ensures Grouped(rows)
  {
    forall i, j, k | 0 <= i < j < k < |rows| && TraceKey(rows[i]) == TraceKey(rows[k])
      ensures TraceKey(rows[j]) == TraceKey(rows[i])
    {
      SameKeyTogether(TraceKey, le, NUMBER, rows, i, j, k);
    }
  }

  /** Within one trace the row order is the sequence order. */
  lemma SameKeyOrder(le: (string, string) -> bool, table: seq<Entry>, k: string)
    ensures SortBy(RowOrder(le), Filter(ByKey(k), table)) == SortBy(EntryOrder(), Filter(ByKey(k), table))
  {
    var f := Filter(ByKey(k), table);
    forall i | 0 <= i < |f| ensures TraceKey(f[i]) == k {
      FilterAt(ByKey(k), table, i);
    }
    WithinKey(TraceKey, le, NUMBER, EntryOrder(), f);
  }

  lemma OrderedTrace(le: (string, string) -> bool, table: seq<Entry>, k: string)
    requires Collation(le)
    ensures Filter(ByKey(k), Map(ReadEntry, SortBy(RowOrder(le), table))) == Map(ReadEntry, TraceStream(table, k))
  {
    KeyThenIsTotal(TraceKey, le, NUMBER);
    FilterMap(ReadEntry, ByKey(k), ByKey(k), SortBy(RowOrder(le), table));
    FilterSort(ByKey(k), RowOrder(le), table);
    SameKeyOrder(le, table, k);
  }

  class AuditLedger {
    const h: Hasher<AuditBody>
    const le: (string, string) -> bool
    var table: seq<Entry>

    constructor (hasher: Hasher<AuditBody>, collation: (string, string) -> bool)
      ensures h == hasher && le == collation && table == []
    {
      h, le, table := hasher, collation, [];
    }

    /** Record one entry without interference; `accepted` says whether the insert went through. */
    method Record(r: Record, id: string, now: string, accepted: bool) returns (result: Option<string>)
      modifies this`table
      ensures !accepted ==> result == None && table == old(table)
      ensures accepted ==>
        && result == Some(id)
        && table == old(table)
                    + [NewEntry(h, r, id, now, NextSequence(old(table), r.traceId), LastHash(old(table), r.traceId))]
      ensures accepted ==>
        && |table| == |old(table)| + 1 && table[..|old(table)|] == old(table)
        && var b := table[|old(table)|].body;
           && b.id == id && b.eventType == r.eventType && b.actor == r.actor && b.action == r.action
           && b.resourceType == r.resourceType && b.resourceId == r.resourceId && b.severity == r.severity
           && b.traceId == r.traceId && b.createdAt == now
           && b.details == if r.details.Some? then r.details.value else map[]
      ensures accepted ==>
        FollowsNewest(old(table), if r.traceId == Some("") then None else r.traceId, table[|old(table)|])
      ensures accepted && old(EachTraceGood(h, table)) ==> EachTraceGood(h, table)
    {
      LookupsFollowNewest(h, table, r, id, now);
      var sequence := NextSequence(table, r.traceId);
      var prevHash := LastHash(table, r.traceId);
      if !accepted {
        return None;
      }
      if EachTraceGood(h, table) {
        RecordKeepsGood(h, table, r, id, now);
      }
      table := table + [NewEntry(h, r, id, now, sequence, prevHash)];
      return Some(id);
    }

    /** The single pass over all traces reports valid exactly when each trace's stream is accepted. */
    method VerifyChain() returns (report: LedgerReport)
      requires Collation(le)
      ensures report.checked == |table|
      ensures report.valid <==> forall k :: Accepted(h, Map(ReadEntry, TraceStream(table, k)))
      ensures report.valid <==> report.violations == []
    {
      var rows := Map(ReadEntry, SortBy(RowOrder(le), table));
      SortMultiset(RowOrder(le), table);
      report := CheckPass(h, rows);
      PassOverTable(h, le, table);
    }
  }

  /** The loop of `verify_chain` over the rows it selected. */
  method CheckPass(h: Hasher<AuditBody>, rows: seq<Entry>) returns (report: LedgerReport)
    requires forall i :: 0 <= i < |rows| ==> rows[i].body.traceId != Some("")
    ensures report.checked == |rows|
    ensures report.valid <==> PassOk(h, rows)
    ensures report.valid <==> report.violations == []
    ensures forall v :: v in report.violations <==>
      v.0 < |rows| && match v.1
                      case SelfHashMismatch => !SelfOk(h, rows[v.0])
                      case ChainBroken => !LinkChecked(rows, v.0)
  {
    var violations: seq<(nat, Fault)> := [];
    var prevHash: Option<string> := None;
    var prevTrace: Option<string> := None;
    for i := 0 to |rows|
      invariant prevTrace == if i == 0 then None else rows[i - 1].body.traceId
      invariant prevHash == if i == 0 then None else Some(rows[i - 1].hashSelf)
      invariant forall v :: v in violations <==>
        v.0 < i && match v.1
                   case SelfHashMismatch => !SelfOk(h, rows[v.0])
                   case ChainBroken => !LinkChecked(rows, v.0)
    {
      var entry := rows[i];
      if entry.body.traceId != prevTrace {
        prevHash := None;
        prevTrace := entry.body.traceId;
      }
      if h(entry.body, entry.hashPrev) != entry.hashSelf {
        violations := violations + [(i, SelfHashMismatch)];
      }
      if prevHash.Some? && entry.hashPrev != prevHash {
        violations := violations + [(i, ChainBroken)];
      }
      prevHash := Some(entry.hashSelf);
    }
    if violations != [] {
      assert violations[0] in violations;
    } else {
      forall i | 0 <= i < |rows| ensures SelfOk(h, rows[i]) && LinkChecked(rows, i) {
        assert (i as nat, SelfHashMismatch) !in violations && (i as nat, ChainBroken) !in violations;
      }
    }
    return LedgerReport(violations == [], |rows|, violations);
  }

  /** The pass over the selected rows, in terms of the table's traces. */
  lemma PassOverTable(h: Hasher<AuditBody>, le: (string, string) -> bool, table: seq<Entry>)
    requires Collation(le)
    ensures PassOk(h, Map(ReadEntry, SortBy(RowOrder(le), table))) <==>
            forall k :: Accepted(h, Map(ReadEntry, TraceStream(table, k)))
  {
    var rows := Map(ReadEntry, SortBy(RowOrder(le), table));
    OrderedRows(le, table);
    PassIsPerTrace(h, rows);
    assert forall k :: TraceAccepted(h, rows, k) <==> Accepted(h, Map(ReadEntry, TraceStream(table, k)));
  }

  /** What a trace reads as. */
  function TraceReads(table: seq<Entry>, k: string): seq<Entry> {
    Map(ReadEntry, TraceStream(table, k))
  }

  /**
   Two ledgers that `verify_chain` reports as valid, and in which a trace ends in the same digest,
   agree on that trace as far back as the shorter goes, and entirely if both start without a
   predecessor; or their rows collide.
   */
  lemma ValidLedgersAgree(h: Hasher<AuditBody>, table: seq<Entry>, table': seq<Entry>, k: string)
    requires forall t :: Accepted(h, Map(ReadEntry, TraceStream(table, t)))
    requires forall t :: Accepted(h, Map(ReadEntry, TraceStream(table', t)))
    requires 0 < |TraceReads(table, k)| <= |TraceReads(table', k)|
    requires var r, r' := TraceReads(table, k), TraceReads(table', k);
      r[|r| - 1].hashSelf == r'[|r'| - 1].hashSelf
    ensures var r, r' := TraceReads(table, k), TraceReads(table', k);
      || CollisionBetween(h, r, r')
      || (r == r'[|r'| - |r|..] && (Rooted(r) && Rooted(r') ==> r == r'))
  {
    var r, r' := TraceReads(table, k), TraceReads(table', k);
    assert Accepted(h, r) && Accepted(h, r');
    TamperEvidence(h, r, r');
    if Rooted(r) && Rooted(r') {
      TamperEvidenceRooted(h, r, r');
    }
  }

  // ------------------------------------------------------------------ recording

  /** The `WHERE` of both lookups: a falsy trace id looks at the rows without one. */
  function Lookup(traceId: Option<string>): Option<string> {
    ReadBack(traceId)
  }

  function ByTrace(t: Option<string>): Entry -> bool {
    (e: Entry) => e.body.traceId == t
  }

  function MaxSequence(rows: seq<Entry>): int {
    if rows == [] then 0
    else
      var m := MaxSequence(rows[..|rows| - 1]);
      if |rows| == 1 || rows[|rows| - 1].body.sequence > m then rows[|rows| - 1].body.sequence else m
  }

  /** `SELECT COALESCE(MAX(sequence), 0) + 1` */
  function NextSequence(table: seq<Entry>, traceId: Option<string>): int {
    MaxSequence(Filter(ByTrace(Lookup(traceId)), table)) + 1
  }

  /** `ORDER BY sequence DESC LIMIT 1` */
  function LastHash(table: seq<Entry>, traceId: Option<string>): Option<string> {
    var rows := SortBy(EntryOrder(), Filter(ByTrace(Lookup(traceId)), table));
    if rows == [] then None else Some(rows[|rows| - 1].hashSelf)
  }

  function NewEntry(h: Hasher<AuditBody>, r: Record, id: string, now: string, sequence: int,
                    prev: Option<string>): Entry {
    var body := AuditBody(id, r.eventType, r.actor, r.action, r.resourceType, r.resourceId,
                          if r.details.Some? then r.details.value else map[], r.severity, r.traceId, sequence, now);
    Link(body, prev, h(body, prev))
  }

  /** `e` is numbered and linked after a row of its trace with the highest number, or starts the trace. */
  ghost predicate FollowsNewest(table: seq<Entry>, trace: Option<string>, e: Entry) {
    if exists x :: x in table && x.body.traceId == trace then
      exists x :: x in table && x.body.traceId == trace && IsNewest(table, trace, x)
                  && e.body.sequence == x.body.sequence + 1 && e.hashPrev == Some(x.hashSelf)
    else e.body.sequence == 1 && e.hashPrev == None
  }

  ghost predicate IsNewest(table: seq<Entry>, trace: Option<string>, x: Entry) {
    forall y :: y in table && y.body.traceId == trace ==> y.body.sequence <= x.body.sequence
  }

  lemma {:induction false} MaxOfRows(rows: seq<Entry>, x: Entry)
    requires x in rows && forall y :: y in rows ==> y.body.sequence <= x.body.sequence
    ensures MaxSequence(rows) == x.body.sequence
  {
    var n := |rows| - 1;
    if n > 0 {
      MaxIsInRows(rows);
      MaxIsBound(rows, x);
    }
  }

  lemma {:induction false} MaxIsInRows(rows: seq<Entry>)
    requires rows != []
    ensures exists y :: y in rows && y.body.sequence == MaxSequence(rows)
  {
    var n := |rows| - 1;
    assert rows[n] in rows;
    if n > 0 {
      MaxIsInRows(rows[..n]);
      var y :| y in rows[..n] && y.body.sequence == MaxSequence(rows[..n]);
      assert y in rows;
    }
  }

  lemma {:induction false} MaxIsBound(rows: seq<Entry>, x: Entry)
    requires x in rows
    ensures x.body.sequence <= MaxSequence(rows)
  {
    var n := |rows| - 1;
    if x != rows[n] {
      MaxIsBound(rows[..n], x);
    }
  }

  /** Both lookups find the newest row of the trace, whatever the table holds. */
  lemma LookupsFollowNewest(h: Hasher<AuditBody>, table: seq<Entry>, r: Record, id: string, now: string)
    ensures FollowsNewest(table, if r.traceId == Some("") then None else r.traceId,
                          NewEntry(h, r, id, now, NextSequence(table, r.traceId), LastHash(table, r.traceId)))
  {
    var trace := Lookup(r.traceId);
    var found := Filter(ByTrace(trace), table);
    var rows := SortBy(EntryOrder(), found);
    LastOfSelected(ByTrace(trace), EntryOrder(), table);
    if rows != [] {
      var x := rows[|rows| - 1];
      MaxOfTrace(table, trace, x);
      assert x in table && x.body.traceId == trace && IsNewest(table, trace, x);
    } else {
      SortMultiset(EntryOrder(), found);
      assert found == [];
      assert forall x :: x in table ==> x.body.traceId != trace;
    }
  }

  lemma MaxOfTrace(table: seq<Entry>, trace: Option<string>, x: Entry)
    requires x in table && x.body.traceId == trace && IsNewest(table, trace, x)
    ensures MaxSequence(Filter(ByTrace(trace), table)) == x.body.sequence
  {
    var found := Filter(ByTrace(trace), table);
    FilterMembers(ByTrace(trace), table);
    forall y | y in found ensures y.body.sequence <= x.body.sequence {
      var i :| 0 <= i < |found| && found[i] == y;
      FilterAt(ByTrace(trace), table, i);
    }
    MaxOfRows(found, x);
  }

  ghost predicate GoodTrace(h: Hasher<AuditBody>, s: seq<Entry>) {
    && (forall i :: 0 <= i < |s| ==> s[i].body.sequence == i + 1)
    && Accepted(h, s)
    && Rooted(s)
  }

  /** The invariant: every trace (other than the empty string, which is never looked up) is a chain. */
  ghost predicate EachTraceGood(h: Hasher<AuditBody>, table: seq<Entry>) {
    forall t :: t != Some("") ==> GoodTrace(h, Filter(ByTrace(t), table))
  }

  lemma {:induction false} NumberedMax(s: seq<Entry>)
    requires forall i :: 0 <= i < |s| ==> s[i].body.sequence == i + 1
    ensures MaxSequence(s) == |s|
  {
    if s != [] {
      NumberedMax(s[..|s| - 1]);
    }
  }

  lemma LookupOfGood(h: Hasher<AuditBody>, table: seq<Entry>, traceId: Option<string>)
    requires EachTraceGood(h, table)
    ensures var f := Filter(ByTrace(Lookup(traceId)), table);
      && GoodTrace(h, f)
      && NextSequence(table, traceId) == |f| + 1
      && LastHash(table, traceId) == if f == [] then None else Some(f[|f| - 1].hashSelf)
  {
    var f := Filter(ByTrace(Lookup(traceId)), table);
    assert GoodTrace(h, f);
    NumberedMax(f);
    SortOfSorted(EntryOrder(), f);
  }

  /** A chain stays one when its next link is added. */
  lemma GoodTraceSnoc(h: Hasher<AuditBody>, s: seq<Entry>, e: Entry)
    requires GoodTrace(h, s) && SelfOk(h, e) && e.body.sequence == |s| + 1
    requires e.hashPrev == if s == [] then None else Some(s[|s| - 1].hashSelf)
    ensures GoodTrace(h, s + [e])
  {
    AcceptedSnoc(h, s, e);
  }

  lemma RecordKeepsTrace(h: Hasher<AuditBody>, table: seq<Entry>, e: Entry, t: Option<string>)
    requires EachTraceGood(h, table) && t != Some("") && SelfOk(h, e)
    requires e.body.sequence == NextSequence(table, e.body.traceId) && e.hashPrev == LastHash(table, e.body.traceId)
    ensures GoodTrace(h, Filter(ByTrace(t), table + [e]))
  {
    FilterSnoc(ByTrace(t), table, e);
    if e.body.traceId == t {
      RecordExtendsTrace(h, table, e);
    }
  }

  lemma RecordExtendsTrace(h: Hasher<AuditBody>, table: seq<Entry>, e: Entry)
    requires EachTraceGood(h, table) && e.body.traceId != Some("") && SelfOk(h, e)
    requires e.body.sequence == NextSequence(table, e.body.traceId) && e.hashPrev == LastHash(table, e.body.traceId)
    ensures GoodTrace(h, Filter(ByTrace(e.body.traceId), table) + [e])
  {
    LookupOfGood(h, table, e.body.traceId);
    GoodTraceSnoc(h, Filter(ByTrace(e.body.traceId), table), e);
  }

  lemma RecordKeepsGood(h: Hasher<AuditBody>, table: seq<Entry>, r: Record, id: string, now: string)
    requires EachTraceGood(h, table)
    ensures var e := NewEntry(h, r, id, now, NextSequence(table, r.traceId), LastHash(table, r.traceId));
      EachTraceGood(h, table + [e])
  {
    var e := NewEntry(h, r, id, now, NextSequence(table, r.traceId), LastHash(table, r.traceId));
    forall t | t != Some("") ensures GoodTrace(h, Filter(ByTrace(t), table + [e])) {
      RecordKeepsTrace(h, table, e, t);
    }
  }
}
