/**
 Interleaved `record` calls. Each call reads the next sequence number, reads the last hash
 and inserts, as three sections with nothing held in between. Calls on different traces may
 overlap freely; a call on the same trace breaks the numbered chain exactly when it inserts what
 is no longer current, and `verify_chain` notices that exactly when the pointer is wrong.
 */
module AuditLedgerRuns {
  import opened Options
  import opened Sequences
  import opened HashChain
  import opened AuditLedger

  datatype Call =
    | Counted(r: Record, id: string, now: string, sequence: int)
    | Linked(r: Record, id: string, now: string, sequence: int, prev: Option<string>)

  datatype Step =
    | ReadSequence(p: nat, r: Record, id: string, now: string)
    | ReadLastHash(p: nat)
    | InsertEntry(p: nat, stored: bool)

  datatype Ledger = Ledger(table: seq<Entry>, calls: map<nat, Call>)

  function Start(): Ledger {
    Ledger([], map[])
  }

  function Next(h: Hasher<AuditBody>, s: Ledger, step: Step): Ledger {
    match step
    case ReadSequence(p, r, id, now) =>
      if p in s.calls then s
      else s.(calls := s.calls[p := Counted(r, id, now, NextSequence(s.table, r.traceId))])
    case ReadLastHash(p) =>
      if p in s.calls && s.calls[p].Counted? then
        var c := s.calls[p];
        s.(calls := s.calls[p := Linked(c.r, c.id, c.now, c.sequence, LastHash(s.table, c.r.traceId))])
      else s
    case InsertEntry(p, stored) =>
      if p in s.calls && s.calls[p].Linked? then
        var c := s.calls[p];
        Ledger(if stored then s.table + [NewEntry(h, c.r, c.id, c.now, c.sequence, c.prev)] else s.table,
               s.calls - {p})
      else s
  }

  function Run(h: Hasher<AuditBody>, s: Ledger, steps: seq<Step>): Ledger {
    if steps == [] then s else Next(h, Run(h, s, steps[..|steps| - 1]), steps[|steps| - 1])
  }

  /** The three sections of one call, with nobody in between, are `AuditLedger.Record`. */
  lemma SerialRecord(h: Hasher<AuditBody>, s: Ledger, p: nat, r: Record, id: string, now: string, stored: bool)
    requires p !in s.calls
    ensures var row := NewEntry(h, r, id, now, NextSequence(s.table, r.traceId), LastHash(s.table, r.traceId));
      Next(h, Next(h, Next(h, s, ReadSequence(p, r, id, now)), ReadLastHash(p)), InsertEntry(p, stored)) ==
      s.(table := if stored then s.table + [row] else s.table)
  {
    var n, prev := NextSequence(s.table, r.traceId), LastHash(s.table, r.traceId);
    assert s.calls[p := Counted(r, id, now, n)][p := Linked(r, id, now, n, prev)] - {p} == s.calls;
  }

  /** A call starts only while no other call on the same trace is under way. */
  ghost predicate Apart(s: Ledger, step: Step) {
    step.ReadSequence? && step.p !in s.calls ==>
      forall q :: q in s.calls ==> Lookup(s.calls[q].r.traceId) != Lookup(step.r.traceId)
  }

  ghost predicate ApartRun(h: Hasher<AuditBody>, s: Ledger, steps: seq<Step>) {
    forall i :: 0 <= i < |steps| ==> Apart(Run(h, s, steps[..i]), steps[i])
  }

  /** Every row carries its own digest. */
  ghost predicate RowsOk(h: Hasher<AuditBody>, table: seq<Entry>) {
    forall i :: 0 <= i < |table| ==> SelfOk(h, table[i]) && table[i].hashPrev != Some("")
  }

  /** What a call has read is still what the table says. */
  ghost predicate CallOk(s: Ledger, c: Call) {
    && c.sequence == NextSequence(s.table, c.r.traceId)
    && (c.Linked? ==> c.prev == LastHash(s.table, c.r.traceId))
  }

  ghost predicate Inv(h: Hasher<AuditBody>, s: Ledger) {
    && EachTraceGood(h, s.table)
    && RowsOk(h, s.table)
    && (forall p :: p in s.calls ==> CallOk(s, s.calls[p]))
    && (forall p, q :: p in s.calls && q in s.calls && p != q ==>
          Lookup(s.calls[p].r.traceId) != Lookup(s.calls[q].r.traceId))
  }

  lemma LastHashIsDigest(h: Hasher<AuditBody>, table: seq<Entry>, traceId: Option<string>)
    requires EachTraceGood(h, table)
    ensures LastHash(table, traceId) != Some("")
  {
    LookupOfGood(h, table, traceId);
    var f := Filter(ByTrace(Lookup(traceId)), table);
    if f != [] {
      assert SelfOk(h, f[|f| - 1]);
    }
  }

  /** Inserting a row leaves the lookups of other traces alone. */
  lemma LookupUnchanged(table: seq<Entry>, e: Entry, t: Option<string>)
    requires Lookup(e.body.traceId) != Lookup(t)
    ensures NextSequence(table + [e], t) == NextSequence(table, t)
    ensures LastHash(table + [e], t) == LastHash(table, t)
  {
    FilterSnoc(ByTrace(Lookup(t)), table, e);
  }

  lemma InsertKeepsInv(h: Hasher<AuditBody>, s: Ledger, p: nat)
    requires Inv(h, s) && p in s.calls && s.calls[p].Linked?
    ensures Inv(h, Next(h, s, InsertEntry(p, true)))
  {
    var c := s.calls[p];
    var e := NewEntry(h, c.r, c.id, c.now, c.sequence, c.prev);
    var s' := Next(h, s, InsertEntry(p, true));
    RecordKeepsGood(h, s.table, c.r, c.id, c.now);
    LastHashIsDigest(h, s.table, c.r.traceId);
    assert RowsOk(h, s.table + [e]);
    forall q | q in s'.calls ensures CallOk(s', s'.calls[q]) {
      LookupUnchanged(s.table, e, s.calls[q].r.traceId);
    }
  }

  lemma CountKeepsInv(h: Hasher<AuditBody>, s: Ledger, step: Step)
    requires Inv(h, s) && Apart(s, step) && step.ReadSequence? && step.p !in s.calls
    ensures Inv(h, Next(h, s, step))
  {
    var s' := Next(h, s, step);
    assert s'.table == s.table;
    forall q | q in s'.calls ensures CallOk(s', s'.calls[q]) {
      if q != step.p {
        assert CallOk(s, s.calls[q]);
      }
    }
  }

  lemma LinkKeepsInv(h: Hasher<AuditBody>, s: Ledger, p: nat)
    requires Inv(h, s) && p in s.calls && s.calls[p].Counted?
    ensures Inv(h, Next(h, s, ReadLastHash(p)))
  {
    var s' := Next(h, s, ReadLastHash(p));
    assert s'.table == s.table;
    forall q | q in s'.calls ensures CallOk(s', s'.calls[q]) {
      assert CallOk(s, s.calls[q]);
    }
  }

  lemma FailureKeepsInv(h: Hasher<AuditBody>, s: Ledger, p: nat)
    requires Inv(h, s) && p in s.calls && s.calls[p].Linked?
    ensures Inv(h, Next(h, s, InsertEntry(p, false)))
  {
    var s' := Next(h, s, InsertEntry(p, false));
    forall q | q in s'.calls ensures CallOk(s', s'.calls[q]) {
      assert CallOk(s, s.calls[q]);
    }
  }

  lemma StepKeepsInv(h: Hasher<AuditBody>, s: Ledger, step: Step)
    requires Inv(h, s) && Apart(s, step)
    ensures Inv(h, Next(h, s, step))
  {
    match step
    case ReadSequence(p, r, id, now) =>
      if p !in s.calls {
        CountKeepsInv(h, s, step);
      }
    case ReadLastHash(p) =>
      if p in s.calls && s.calls[p].Counted? {
        LinkKeepsInv(h, s, p);
      }
    case InsertEntry(p, stored) =>
      if p in s.calls && s.calls[p].Linked? {
        if stored {
          InsertKeepsInv(h, s, p);
        } else {
          FailureKeepsInv(h, s, p);
        }
      }
  }

  lemma {:induction false} RunKeepsInv(h: Hasher<AuditBody>, steps: seq<Step>)
    requires ApartRun(h, Start(), steps)
    ensures Inv(h, Run(h, Start(), steps))
  {
    if steps != [] {
      var n := |steps| - 1;
      forall i | 0 <= i < n ensures Apart(Run(h, Start(), steps[..n][..i]), steps[..n][i]) {
        assert steps[..n][..i] == steps[..i];
      }
      RunKeepsInv(h, steps[..n]);
      StepKeepsInv(h, Run(h, Start(), steps[..n]), steps[n]);
    }
  }

  /** What `verify_chain` reports as valid (see `AuditLedger.VerifyChain`). */
  ghost predicate Verifies(h: Hasher<AuditBody>, table: seq<Entry>) {
    forall k :: Accepted(h, Map(ReadEntry, TraceStream(table, k)))
  }

  ghost predicate AllFaithful(table: seq<Entry>) {
    forall i :: 0 <= i < |table| ==> FaithfulEntry(table[i])
  }

  /** The trace a key stands for when no trace id is the empty string. */
  function KeyTrace(k: string): Option<string> {
    if k == "" then None else Some(k)
  }

  lemma FaithfulKeys(table: seq<Entry>, k: string)
    requires AllFaithful(table)
    ensures Filter(ByKey(k), table) == Filter(ByTrace(KeyTrace(k)), table)
  {
    FilterAgree(ByKey(k), ByTrace(KeyTrace(k)), table);
  }

  lemma FaithfulReads(h: Hasher<AuditBody>, table: seq<Entry>, p: Entry -> bool)
    requires RowsOk(h, table) && AllFaithful(table)
    ensures Map(ReadEntry, Filter(p, table)) == Filter(p, table)
  {
    var f := Filter(p, table);
    forall i | 0 <= i < |f| ensures ReadEntry(f[i]) == f[i] {
      FilterAt(p, table, i);
      var j :| 0 <= j < |table| && table[j] == f[i];
    }
  }

  /** Without empty-string columns, a trace as selected and read is the chain that was recorded. */
  lemma FaithfulTrace(h: Hasher<AuditBody>, table: seq<Entry>, k: string)
    requires EachTraceGood(h, table) && RowsOk(h, table) && AllFaithful(table)
    ensures var f := Filter(ByKey(k), table);
      GoodTrace(h, f) && TraceStream(table, k) == f && Map(ReadEntry, f) == f
  {
    FaithfulKeys(table, k);
    var f := Filter(ByTrace(KeyTrace(k)), table);
    assert GoodTrace(h, f);
    SortOfSorted(EntryOrder(), f);
    FaithfulReads(h, table, ByKey(k));
  }

  /**
   After any run whose calls on the same trace do not overlap, the ledger verifies if no
   entry has an empty-string column; and if it verifies, each such entry is a hash collision
   with what is read back.
   */
  lemma ApartRunsVerify(h: Hasher<AuditBody>, steps: seq<Step>)
    requires ApartRun(h, Start(), steps)
    ensures var table := Run(h, Start(), steps).table;
      && EachTraceGood(h, table)
      && (AllFaithful(table) ==> Verifies(h, table))
      && (Verifies(h, table) ==>
            forall i :: 0 <= i < |table| ==> FaithfulEntry(table[i]) || Collides(h, table[i], ReadEntry(table[i])))
  {
    RunKeepsInv(h, steps);
    var table := Run(h, Start(), steps).table;
    if AllFaithful(table) {
      forall k ensures Accepted(h, Map(ReadEntry, TraceStream(table, k))) {
        FaithfulTrace(h, table, k);
      }
    }
    if Verifies(h, table) {
      forall i | 0 <= i < |table| ensures FaithfulEntry(table[i]) || Collides(h, table[i], ReadEntry(table[i])) {
        var k := TraceKey(table[i]);
        var j := FilterFinds(ByKey(k), table, i);
        var m := SortFinds(EntryOrder(), Filter(ByKey(k), table), j);
        var entries := Map(ReadEntry, TraceStream(table, k));
        assert Accepted(h, entries) && entries[m] == ReadEntry(table[i]);
        assert SelfOk(h, entries[m]) && SelfOk(h, table[i]);
      }
    }
  }

  // ------------------------------------------------------------ overlapping calls

  /** An insert keeps every trace a numbered chain exactly when what its call has read is current. */
  lemma InsertGoodIff(h: Hasher<AuditBody>, s: Ledger, p: nat)
    requires EachTraceGood(h, s.table) && p in s.calls && s.calls[p].Linked?
    ensures EachTraceGood(h, Next(h, s, InsertEntry(p, true)).table) <==>
            s.calls[p].r.traceId == Some("") || CallOk(s, s.calls[p])
  {
    var c := s.calls[p];
    var e := NewEntry(h, c.r, c.id, c.now, c.sequence, c.prev);
    if c.r.traceId == Some("") {
      UntracedKeepsGood(h, s.table, e);
    } else {
      if CallOk(s, c) {
        RecordKeepsGood(h, s.table, c.r, c.id, c.now);
      }
      if EachTraceGood(h, s.table + [e]) {
        OnlyNextKeepsGood(h, s.table, e);
      }
    }
  }

  lemma UntracedKeepsGood(h: Hasher<AuditBody>, table: seq<Entry>, e: Entry)
    requires EachTraceGood(h, table) && e.body.traceId == Some("")
    ensures EachTraceGood(h, table + [e])
  {
    forall t | t != Some("") ensures GoodTrace(h, Filter(ByTrace(t), table + [e])) {
      FilterSnoc(ByTrace(t), table, e);
    }
  }

  lemma OnlyNextKeepsGood(h: Hasher<AuditBody>, table: seq<Entry>, e: Entry)
    requires EachTraceGood(h, table) && e.body.traceId != Some("") && EachTraceGood(h, table + [e])
    ensures e.body.sequence == NextSequence(table, e.body.traceId) && e.hashPrev == LastHash(table, e.body.traceId)
  {
    var f := Filter(ByTrace(e.body.traceId), table);
    FilterSnoc(ByTrace(e.body.traceId), table, e);
    assert GoodTrace(h, f + [e]);
    LookupOfGood(h, table, e.body.traceId);
    assert (f + [e])[|f|] == e;
    assert PrevOk(f + [e], |f|);
  }

  /** A stored insert finds what its call has read still current, or belongs to no trace that is looked up. */
  ghost predicate Current(s: Ledger, step: Step) {
    step.InsertEntry? && step.stored && step.p in s.calls && s.calls[step.p].Linked? ==>
      s.calls[step.p].r.traceId == Some("") || CallOk(s, s.calls[step.p])
  }

  ghost predicate CurrentRun(h: Hasher<AuditBody>, steps: seq<Step>) {
    steps == [] || (CurrentRun(h, steps[..|steps| - 1])
                    && Current(Run(h, Start(), steps[..|steps| - 1]), steps[|steps| - 1]))
  }

  /** Every trace is a numbered chain in every state of the run, the last one included. */
  ghost predicate GoodThroughout(h: Hasher<AuditBody>, steps: seq<Step>) {
    EachTraceGood(h, Run(h, Start(), steps).table) && (steps == [] || GoodThroughout(h, steps[..|steps| - 1]))
  }

  /**
   Whatever overlaps: every trace stays a numbered chain throughout a run exactly when each insert
   finds what its call has read still current.
   */
  lemma {:induction false} RunGoodIff(h: Hasher<AuditBody>, steps: seq<Step>)
    ensures GoodThroughout(h, steps) <==> CurrentRun(h, steps)
  {
    if steps != [] {
      var init, step := steps[..|steps| - 1], steps[|steps| - 1];
      RunGoodIff(h, init);
      if GoodThroughout(h, init) {
        StepGoodIff(h, Run(h, Start(), init), step);
      }
    }
  }

  lemma StepGoodIff(h: Hasher<AuditBody>, s: Ledger, step: Step)
    requires EachTraceGood(h, s.table)
    ensures EachTraceGood(h, Next(h, s, step).table) <==> Current(s, step)
  {
    if step.InsertEntry? && step.stored && step.p in s.calls && s.calls[step.p].Linked? {
      InsertGoodIff(h, s, step.p);
    } else {
      assert Next(h, s, step).table == s.table;
    }
  }

  /** Where a row with a number from 1 on comes among the rows of its trace: after those up to its number. */
  function PlaceOf(f: seq<Entry>, e: Entry): nat
    requires e.body.sequence >= 1
  {
    if e.body.sequence <= |f| then e.body.sequence else |f|
  }

  lemma PlacedStream(h: Hasher<AuditBody>, table: seq<Entry>, e: Entry)
    requires EachTraceGood(h, table) && RowsOk(h, table) && AllFaithful(table) && e.body.sequence >= 1
    ensures var f := Filter(ByKey(TraceKey(e)), table);
      var m := PlaceOf(f, e);
      TraceStream(table + [e], TraceKey(e)) == f[..m] + [e] + f[m..]
  {
    var f := Filter(ByKey(TraceKey(e)), table);
    FaithfulTrace(h, table, TraceKey(e));
    FilterSnoc(ByKey(TraceKey(e)), table, e);
    assert (f + [e])[..|f|] == f;
    InsertAt(EntryOrder(), f, e, PlaceOf(f, e));
  }

  /** The pointers around the place of the new row. */
  ghost predicate Fits(f: seq<Entry>, e: Entry)
    requires e.body.sequence >= 1
  {
    var m := PlaceOf(f, e);
    && (m > 0 ==> e.hashPrev == Some(f[m - 1].hashSelf))
    && (m < |f| ==> f[m].hashPrev == Some(e.hashSelf))
  }

  lemma AcceptedPlaced(h: Hasher<AuditBody>, f: seq<Entry>, e: Entry, m: nat)
    requires Accepted(h, f) && m <= |f|
    ensures Accepted(h, f[..m] + [e] + f[m..]) <==>
      && SelfOk(h, e)
      && (m > 0 ==> e.hashPrev == Some(f[m - 1].hashSelf))
      && (m < |f| ==> f[m].hashPrev == Some(e.hashSelf))
  {
    var t := f[..m] + [e] + f[m..];
    if Accepted(h, t) {
      assert SelfOk(h, t[m]) && PrevOk(t, m);
      assert m < |f| ==> PrevOk(t, m + 1) && t[m + 1] == f[m];
    }
    if SelfOk(h, e) && (m > 0 ==> e.hashPrev == Some(f[m - 1].hashSelf))
       && (m < |f| ==> f[m].hashPrev == Some(e.hashSelf)) {
      forall i | 0 <= i < |t| ensures SelfOk(h, t[i]) && PrevOk(t, i) {
        if i < m {
          assert SelfOk(h, f[i]) && PrevOk(f, i);
        } else if i > m {
          assert SelfOk(h, f[i - 1]) && PrevOk(f, i - 1);
        }
      }
    }
  }

  /**
   What `verify_chain` says after any insert into a ledger of numbered chains, current or not: it
   reports valid exactly when the row reads back consistently, points at the row before its place,
   and the row after its place points at it.
   */
  lemma InsertVerifiesIff(h: Hasher<AuditBody>, table: seq<Entry>, e: Entry)
    requires EachTraceGood(h, table) && RowsOk(h, table) && AllFaithful(table)
    requires SelfOk(h, e) && e.hashPrev != Some("") && e.body.sequence >= 1
    ensures Verifies(h, table + [e]) <==>
            SelfOk(h, ReadEntry(e)) && Fits(Filter(ByKey(TraceKey(e)), table), e)
  {
    var k, f := TraceKey(e), Filter(ByKey(TraceKey(e)), table);
    var m := PlaceOf(f, e);
    FaithfulTrace(h, table, k);
    PlacedStream(h, table, e);
    ReadPlaced(f, e, m);
    AcceptedPlaced(h, f, ReadEntry(e), m);
    OtherTracesVerify(h, table, e);
  }

  lemma ReadPlaced(f: seq<Entry>, e: Entry, m: nat)
    requires m <= |f| && Map(ReadEntry, f) == f
    ensures Map(ReadEntry, f[..m] + [e] + f[m..]) == f[..m] + [ReadEntry(e)] + f[m..]
  {
    assert forall i :: 0 <= i < |f| ==> Map(ReadEntry, f)[i] == f[i];
  }

  lemma OtherTracesVerify(h: Hasher<AuditBody>, table: seq<Entry>, e: Entry)
    requires EachTraceGood(h, table) && RowsOk(h, table) && AllFaithful(table)
    ensures Verifies(h, table + [e]) <==> Accepted(h, Map(ReadEntry, TraceStream(table + [e], TraceKey(e))))
  {
    forall k | k != TraceKey(e) ensures Accepted(h, Map(ReadEntry, TraceStream(table + [e], k))) {
      FilterSnoc(ByKey(k), table, e);
      FaithfulTrace(h, table, k);
    }
  }

  lemma RowAdded(h: Hasher<AuditBody>, table: seq<Entry>, e: Entry)
    requires EachTraceGood(h, table) && EachTraceGood(h, table + [e])
    requires RowsOk(h, table) && AllFaithful(table) && FaithfulEntry(e)
    ensures RowsOk(h, table + [e]) && AllFaithful(table + [e])
  {
    RowCarriesDigest(h, table, e);
    OnlyNextKeepsGood(h, table, e);
    LastHashIsDigest(h, table, e.body.traceId);
  }

  lemma RowCarriesDigest(h: Hasher<AuditBody>, table: seq<Entry>, e: Entry)
    requires EachTraceGood(h, table + [e]) && e.body.traceId != Some("")
    ensures SelfOk(h, e)
  {
    var f := Filter(ByTrace(e.body.traceId), table);
    FilterSnoc(ByTrace(e.body.traceId), table, e);
    assert GoodTrace(h, f + [e]);
    assert (f + [e])[|f|] == e;
  }

  /** The next row of a trace is the last one of its trace, and its number is the trace's length. */
  lemma NextRowIsLast(h: Hasher<AuditBody>, table: seq<Entry>, e: Entry)
    requires EachTraceGood(h, table + [e]) && AllFaithful(table + [e])
    ensures var f := Filter(ByKey(TraceKey(e)), table + [e]);
      f != [] && f[|f| - 1] == e && e.body.sequence == |f| && NextSequence(table + [e], e.body.traceId) == |f| + 1
  {
    assert (table + [e])[|table|] == e;
    FilterSnoc(ByKey(TraceKey(e)), table, e);
    FaithfulKeys(table + [e], TraceKey(e));
    LookupOfGood(h, table + [e], e.body.traceId);
  }

  /** The next row of a trace, then another one with the same number. */
  lemma SameNumberVerifiesIff(h: Hasher<AuditBody>, table: seq<Entry>, e: Entry, e': Entry)
    requires EachTraceGood(h, table) && RowsOk(h, table) && AllFaithful(table)
    requires EachTraceGood(h, table + [e]) && FaithfulEntry(e)
    requires FaithfulEntry(e') && SelfOk(h, e') && e'.hashPrev != Some("")
    requires e'.body.traceId == e.body.traceId && e'.body.sequence == e.body.sequence
    ensures Verifies(h, table + [e] + [e']) <==> e'.hashPrev == Some(e.hashSelf)
    ensures !EachTraceGood(h, table + [e] + [e'])
  {
    RowAdded(h, table, e);
    NextRowIsLast(h, table, e);
    assert ReadEntry(e') == e';
    InsertVerifiesIff(h, table + [e], e');
    if EachTraceGood(h, table + [e] + [e']) {
      OnlyNextKeepsGood(h, table + [e], e');
    }
  }

  /** Two calls on one trace that have the same number, the first one about to insert. */
  ghost predicate Overlap(s: Ledger, p: nat, q: nat) {
    && p in s.calls && q in s.calls && p != q && s.calls[p].Linked?
    && CallOk(s, s.calls[p]) && CallOk(s, s.calls[q])
    && s.calls[p].r.traceId == s.calls[q].r.traceId
    && s.calls[p].r.traceId != Some("") && s.calls[p].r.resourceId != Some("") && s.calls[q].r.resourceId != Some("")
  }

  /** The row that call `c` inserts with the predecessor `prev`. */
  function RowOf(h: Hasher<AuditBody>, c: Call, prev: Option<string>): Entry {
    NewEntry(h, c.r, c.id, c.now, c.sequence, prev)
  }

  /** A call that has counted reads the last hash if it has not yet, and inserts. */
  lemma ReadThenInsert(h: Hasher<AuditBody>, s: Ledger, q: nat)
    requires q in s.calls
    ensures var c := s.calls[q];
      Next(h, Next(h, s, ReadLastHash(q)), InsertEntry(q, true)).table ==
      s.table + [RowOf(h, c, if c.Linked? then c.prev else LastHash(s.table, c.r.traceId))]
  {
  }

  /** After the first row the last hash is its digest. */
  lemma LastHashAfter(h: Hasher<AuditBody>, s: Ledger, p: nat)
    requires EachTraceGood(h, s.table) && p in s.calls && s.calls[p].Linked? && CallOk(s, s.calls[p])
    requires s.calls[p].r.traceId != Some("")
    ensures var e := RowOf(h, s.calls[p], s.calls[p].prev);
      EachTraceGood(h, s.table + [e]) && LastHash(s.table + [e], s.calls[p].r.traceId) == Some(e.hashSelf)
  {
    var c := s.calls[p];
    RecordKeepsGood(h, s.table, c.r, c.id, c.now);
    LastHashOfRow(h, s.table, RowOf(h, c, c.prev));
  }

  lemma LastHashOfRow(h: Hasher<AuditBody>, table: seq<Entry>, e: Entry)
    requires EachTraceGood(h, table + [e]) && e.body.traceId != Some("")
    ensures LastHash(table + [e], e.body.traceId) == Some(e.hashSelf)
  {
    FilterSnoc(ByTrace(e.body.traceId), table, e);
    var f := Filter(ByTrace(Lookup(e.body.traceId)), table + [e]);
    assert f != [] && f[|f| - 1] == e;
    LookupOfGood(h, table + [e], e.body.traceId);
  }

  /**
   Two calls on one trace with the same number, the first about to insert what is current. If the
   second had read the last hash before, `verify_chain` reports the damage unless the first row's
   digest repeats its predecessor's; if it reads the last hash afterwards, `verify_chain` reports
   nothing, although two rows of the trace have the same number.
   */
  lemma OverlapDetectedIff(h: Hasher<AuditBody>, s: Ledger, p: nat, q: nat)
    requires EachTraceGood(h, s.table) && RowsOk(h, s.table) && AllFaithful(s.table) && Overlap(s, p, q)
    ensures var e := RowOf(h, s.calls[p], s.calls[p].prev);
      var s1 := Next(h, s, InsertEntry(p, true));
      var s2 := Next(h, Next(h, s1, ReadLastHash(q)), InsertEntry(q, true));
      && !EachTraceGood(h, s2.table)
      && (s.calls[q].Linked? ==> (Verifies(h, s2.table) <==> s.calls[p].prev == Some(e.hashSelf)))
      && (s.calls[q].Counted? ==> Verifies(h, s2.table))
  {
    var c, c' := s.calls[p], s.calls[q];
    var e := RowOf(h, c, c.prev);
    var prev := if c'.Linked? then c'.prev else Some(e.hashSelf);
    ReadThenInsert(h, Next(h, s, InsertEntry(p, true)), q);
    LastHashAfter(h, s, p);
    LastHashIsDigest(h, s.table, c.r.traceId);
    SameNumberVerifiesIff(h, s.table, e, RowOf(h, c', prev));
  }

  /** Two rows of one trace with the same number and predecessor. */
  lemma TwinRows(h: Hasher<AuditBody>, table: seq<Entry>, e: Entry, e': Entry)
    requires EachTraceGood(h, table) && RowsOk(h, table) && AllFaithful(table)
    requires TraceKey(e) == TraceKey(e') && e.body.traceId != Some("")
    requires e.body.sequence == e'.body.sequence == NextSequence(table, e.body.traceId)
    requires e.hashPrev == e'.hashPrev == LastHash(table, e.body.traceId) && SelfOk(h, e)
    requires Verifies(h, table + [e] + [e'])
    ensures exists i :: 0 <= i < |table| && Collides(h, table[i], e)
  {
    var k := TraceKey(e);
    var f := Filter(ByKey(k), table);
    FaithfulTrace(h, table, k);
    FaithfulKeys(table, k);
    LookupOfGood(h, table, e.body.traceId);
    TwinStream(h, table, e, e');
    assert Accepted(h, Map(ReadEntry, TraceStream(table + [e] + [e'], k)));
    LastHashIsDigest(h, table, e.body.traceId);
    TwinLinks(h, f, e, e');
    FilterAt(ByKey(k), table, |f| - 1);
    var i :| 0 <= i < |table| && table[i] == f[|f| - 1];
    assert f[|f| - 1].body.sequence == |f|;
    SameDigestCollides(h, table[i], e);
  }

  lemma SameDigestCollides(h: Hasher<AuditBody>, a: Entry, b: Entry)
    requires SelfOk(h, a) && SelfOk(h, b) && a.hashSelf == b.hashSelf && a.body.sequence != b.body.sequence
    ensures Collides(h, a, b)
  {
  }

  /** The second twin points past the first. */
  lemma TwinLinks(h: Hasher<AuditBody>, f: seq<Entry>, e: Entry, e': Entry)
    requires Accepted(h, Map(ReadEntry, f + [e] + [e']))
    requires e'.hashPrev == (if f == [] then None else Some(f[|f| - 1].hashSelf)) && e'.hashPrev != Some("")
    ensures f != [] && f[|f| - 1].hashSelf == e.hashSelf
  {
    var entries := Map(ReadEntry, f + [e] + [e']);
    assert PrevOk(entries, |f| + 1);
    assert entries[|f| + 1] == ReadEntry(e') && entries[|f|] == ReadEntry(e);
  }

  lemma TwinStream(h: Hasher<AuditBody>, table: seq<Entry>, e: Entry, e': Entry)
    requires GoodTrace(h, Filter(ByKey(TraceKey(e)), table))
    requires TraceKey(e) == TraceKey(e')
    requires e.body.sequence == e'.body.sequence == |Filter(ByKey(TraceKey(e)), table)| + 1
    ensures TraceStream(table + [e] + [e'], TraceKey(e)) == Filter(ByKey(TraceKey(e)), table) + [e] + [e']
  {
    var k := TraceKey(e);
    FilterSnoc(ByKey(k), table, e);
    FilterSnoc(ByKey(k), table + [e], e');
    var f := Filter(ByKey(k), table);
    TwinsSorted(f, e, e');
    SortOfSorted(EntryOrder(), f + [e] + [e']);
  }

  lemma TwinsSorted(f: seq<Entry>, e: Entry, e': Entry)
    requires forall i :: 0 <= i < |f| ==> f[i].body.sequence == i + 1
    requires e.body.sequence == e'.body.sequence == |f| + 1
    ensures Sorted(EntryOrder(), f + [e] + [e'])
  {
    var all := f + [e] + [e'];
    assert forall i :: 0 <= i < |all| ==> all[i].body.sequence == if i <= |f| then i + 1 else |f| + 1;
  }

  /** The schedule: both calls count, both read the last hash, both insert. */
  lemma OverlapSteps(h: Hasher<AuditBody>, s: Ledger, p: nat, q: nat,
                     r: Record, r': Record, id: string, id': string, now: string, now': string)
    requires p !in s.calls && q !in s.calls && p != q && r.traceId == r'.traceId
    ensures var s1 := Next(h, Next(h, s, ReadSequence(p, r, id, now)), ReadSequence(q, r', id', now'));
      var s2 := Next(h, Next(h, s1, ReadLastHash(p)), ReadLastHash(q));
      var n, prev := NextSequence(s.table, r.traceId), LastHash(s.table, r.traceId);
      s2 == s.(calls := s.calls[p := Linked(r, id, now, n, prev)][q := Linked(r', id', now', n, prev)])
  {
    var n, prev := NextSequence(s.table, r.traceId), LastHash(s.table, r.traceId);
    assert s.calls[p := Counted(r, id, now, n)][q := Counted(r', id', now', n)]
                  [p := Linked(r, id, now, n, prev)][q := Linked(r', id', now', n, prev)]
        == s.calls[p := Linked(r, id, now, n, prev)][q := Linked(r', id', now', n, prev)];
  }

  lemma OverlapInserts(h: Hasher<AuditBody>, s: Ledger, p: nat, q: nat, c: Call, c': Call)
    requires p !in s.calls && q !in s.calls && p != q && c.Linked? && c'.Linked?
    ensures var s2 := s.(calls := s.calls[p := c][q := c']);
      Next(h, Next(h, s2, InsertEntry(p, true)), InsertEntry(q, true)) ==
      Ledger(s.table + [NewEntry(h, c.r, c.id, c.now, c.sequence, c.prev)]
                     + [NewEntry(h, c'.r, c'.id, c'.now, c'.sequence, c'.prev)], s.calls)
  {
    assert s.calls[p := c][q := c'] - {p} == s.calls[q := c'];
    assert s.calls[q := c'] - {q} == s.calls;
  }

  /**
   Two calls on one trace that both count and both read the last hash before either inserts, from
   any state that runs without overlap reach, as long as no column holds the empty string: both
   rows get the same number and the same predecessor, and the ledger no longer verifies (or the
   first row's digest collides).
   */
  lemma OverlapBreaksChain(h: Hasher<AuditBody>, s: Ledger, p: nat, q: nat,
                           r: Record, r': Record, id: string, id': string, now: string, now': string)
    requires Inv(h, s) && p !in s.calls && q !in s.calls && p != q
    requires r.traceId == r'.traceId && r.traceId != Some("") && AllFaithful(s.table)
    ensures var s1 := Next(h, Next(h, s, ReadSequence(p, r, id, now)), ReadSequence(q, r', id', now'));
      var s2 := Next(h, Next(h, s1, ReadLastHash(p)), ReadLastHash(q));
      var s3 := Next(h, Next(h, s2, InsertEntry(p, true)), InsertEntry(q, true));
      var n, prev := NextSequence(s.table, r.traceId), LastHash(s.table, r.traceId);
      var e := NewEntry(h, r, id, now, n, prev);
      && s3 == Ledger(s.table + [e] + [NewEntry(h, r', id', now', n, prev)], s.calls)
      && (Verifies(h, s3.table) ==> exists i :: 0 <= i < |s.table| && Collides(h, s.table[i], e))
  {
    var n, prev := NextSequence(s.table, r.traceId), LastHash(s.table, r.traceId);
    var e, e' := NewEntry(h, r, id, now, n, prev), NewEntry(h, r', id', now', n, prev);
    OverlapSteps(h, s, p, q, r, r', id, id', now, now');
    OverlapInserts(h, s, p, q, Linked(r, id, now, n, prev), Linked(r', id', now', n, prev));
    if Verifies(h, s.table + [e] + [e']) {
      TwinRows(h, s.table, e, e');
    }
  }
}
