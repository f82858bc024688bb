/**
 When the event cache tells the truth: exactly which steps keep every cached list, and every
 list about to be cached, equal to the aggregate's stream, and exactly when a read that hits
 such a list returns what the table would.
 */
module EventStoreFreshness {
  import opened Options
  import opened Sequences
  import opened OrderedDicts
  import opened HashChain
  import opened EventTable
  import opened StoreEffects
  import opened EventStoreRuns

  /** An append to `a` has stored its row and not yet popped the caches. */
  ghost predicate AppendPending(s: System, a: string) {
    exists p :: p in s.tasks && s.tasks[p] == Written(Some(a))
  }

  ghost predicate FreshInv(s: System) {
    && (forall a :: a in s.shared.cache.vals && a != "" && !AppendPending(s, a) ==>
          s.shared.cache.vals[a] == Reads(s.shared.table, a))
    && (forall p :: p in s.tasks && s.tasks[p].Fetched? && s.tasks[p].a != "" ==>
          s.tasks[p].rows == Reads(s.shared.table, s.tasks[p].a))
  }

  /** A read of `a` is between its query and storing the result in the cache. */
  ghost predicate ReadInFlight(s: System, a: string) {
    exists p :: p in s.tasks && s.tasks[p].Fetched? && s.tasks[p].a == a
  }

  /** The insert of task `p` puts a row into the table. */
  predicate Stores(s: System, p: nat, outcome: Outcome) {
    && p in s.tasks && s.tasks[p].Ready? && (outcome.Stored? || outcome.StoredButFailed?)
    && !IdTaken(s.shared.table, s.tasks[p].id)
  }

  /**
   A step that leaves no stale list behind. A row of an aggregate is stored only while no read of
   it is in flight, and, if the insert is reported as failed, while no list of it is cached; and
   a query's limit covers the stream.
   */
  ghost predicate Clean(s: System, step: Step) {
    match step
    case InsertRow(p, outcome) =>
      Stores(s, p, outcome) && Truthy(s.tasks[p].req.aggregate) ==>
        var a := s.tasks[p].req.aggregate.value;
        !ReadInFlight(s, a) && (outcome.StoredButFailed? ==> a !in s.shared.cache.vals)
    case SelectRows(p) =>
      p in s.tasks && s.tasks[p].Selecting? && s.tasks[p].a != "" ==>
        |Reads(s.shared.table, s.tasks[p].a)| <= s.tasks[p].limit
    case _ => true
  }

  /** Each step of the run from the start is clean in the state it finds. */
  ghost predicate CleanRun(h: Hasher<EventBody>, steps: seq<Step>) {
    steps == [] || (CleanRun(h, steps[..|steps| - 1])
                    && Clean(Run(h, Start(), steps[..|steps| - 1]), steps[|steps| - 1]))
  }

  /** All lists are true in every state of the run, the last one included. */
  ghost predicate FreshThroughout(h: Hasher<EventBody>, steps: seq<Step>) {
    FreshInv(Run(h, Start(), steps)) && (steps == [] || FreshThroughout(h, steps[..|steps| - 1]))
  }

  // ----------------------------------------------------------------- storing a row

  /** Steps other than finishing keep every pending append pending. */
  lemma PendingKept(h: Hasher<EventBody>, s: System, step: Step, a: string)
    requires !step.Finish?
    ensures AppendPending(s, a) ==> AppendPending(Next(h, s, step), a)
  {
    if AppendPending(s, a) {
      var p :| p in s.tasks && s.tasks[p] == Written(Some(a));
      assert Next(h, s, step).tasks[p] == Written(Some(a));
    }
  }

  /** While a task holds the lock to insert, no append is pending. */
  lemma NothingPending(s: System, p: nat, a: string)
    requires LockInv(s) && p in s.tasks && s.tasks[p].Ready?
    ensures !AppendPending(s, a)
  {
    if AppendPending(s, a) {
      var q :| q in s.tasks && s.tasks[q] == Written(Some(a));
      assert Holds(s.tasks[p]) && Holds(s.tasks[q]);
    }
  }

  /** The row that the insert of `p` stores. */
  function RowOf(h: Hasher<EventBody>, s: System, p: nat): Event
    requires p in s.tasks && s.tasks[p].Ready?
  {
    var t := s.tasks[p];
    NewEvent(h, t.req, t.id, t.now, t.prev, t.sequence)
  }

  lemma StoredReads(h: Hasher<EventBody>, s: System, p: nat, a: string)
    requires Inv(h, s) && p in s.tasks && s.tasks[p].Ready? && a != ""
    ensures Reads(s.shared.table + [RowOf(h, s, p)], a) ==
            Reads(s.shared.table, a) + if s.tasks[p].req.aggregate == Some(a) then [ReadEvent(RowOf(h, s, p))] else []
  {
    var t := s.tasks[p];
    AppendKeepsGood(h, s.shared.table, t.req, t.id, t.now);
    ReadsGrow(h, s.shared.table, RowOf(h, s, p), a);
  }

  lemma StoredFields(h: Hasher<EventBody>, s: System, p: nat, outcome: Outcome)
    requires Stores(s, p, outcome)
    ensures var s' := Next(h, s, InsertRow(p, outcome));
      && s'.shared.cache == s.shared.cache && s'.shared.table == s.shared.table + [RowOf(h, s, p)]
      && s'.tasks == if outcome.Stored? then s.tasks[p := Written(s.tasks[p].req.aggregate)] else s.tasks - {p}
  {
  }

  lemma InsertKeepsFresh(h: Hasher<EventBody>, s: System, p: nat, outcome: Outcome)
    requires Inv(h, s) && FreshInv(s) && Stores(s, p, outcome) && Clean(s, InsertRow(p, outcome))
    ensures FreshInv(Next(h, s, InsertRow(p, outcome)))
  {
    var s' := Next(h, s, InsertRow(p, outcome));
    StoredFields(h, s, p, outcome);
    assert outcome.Stored? ==> s'.tasks[p] == Written(s.tasks[p].req.aggregate);
    forall a | a in s'.shared.cache.vals && a != "" && !AppendPending(s', a)
      ensures s'.shared.cache.vals[a] == Reads(s'.shared.table, a)
    {
      NothingPending(s, p, a);
      StoredReads(h, s, p, a);
    }
    forall q | q in s'.tasks && s'.tasks[q].Fetched? && s'.tasks[q].a != ""
      ensures s'.tasks[q].rows == Reads(s'.shared.table, s'.tasks[q].a)
    {
      assert q in s.tasks && s.tasks[q] == s'.tasks[q];
      StoredReads(h, s, p, s.tasks[q].a);
    }
  }

  lemma InsertBreaksFresh(h: Hasher<EventBody>, s: System, p: nat, outcome: Outcome)
    requires Inv(h, s) && FreshInv(s) && !Clean(s, InsertRow(p, outcome))
    ensures !FreshInv(Next(h, s, InsertRow(p, outcome)))
  {
    var s', a := Next(h, s, InsertRow(p, outcome)), s.tasks[p].req.aggregate.value;
    StoredFields(h, s, p, outcome);
    StoredReads(h, s, p, a);
    if ReadInFlight(s, a) {
      var q :| q in s.tasks && s.tasks[q].Fetched? && s.tasks[q].a == a;
      assert q in s'.tasks && s'.tasks[q] == s.tasks[q];
      assert |s'.tasks[q].rows| != |Reads(s'.shared.table, a)|;
    } else {
      NothingPending(s, p, a);
      assert forall q :: q in s'.tasks ==> q in s.tasks && s'.tasks[q] == s.tasks[q];
      assert |s'.shared.cache.vals[a]| != |Reads(s'.shared.table, a)|;
    }
  }

  // --------------------------------------------------------------- the other steps

  lemma CacheStepKeepsFresh(h: Hasher<EventBody>, s: System, step: Step)
    requires Inv(h, s) && FreshInv(s) && (step.Finish? || step.GetCall? || step.CacheRows?)
    ensures FreshInv(Next(h, s, step))
  {
    var t := TaskOf(s, step.p);
    var s' := Next(h, s, step);
    if step.Finish? {
      if t.Some? && t.value.Written? {
        if Truthy(t.value.aggregate) {
          PopFacts(s.shared.cache, t.value.aggregate.value);
        }
        forall a | a in s'.shared.cache.vals && a != "" ensures !AppendPending(s, a) {
          if AppendPending(s, a) {
            var p :| p in s.tasks && s.tasks[p] == Written(Some(a));
            assert Holds(s.tasks[p]) && Holds(s.tasks[step.p]);
          }
        }
      }
    } else {
      forall a { PendingKept(h, s, step, a); }
      if t.Some? && t.value.Fetched? {
        PutFacts(s.shared.cache, t.value.a, t.value.rows, MAX_CACHE_ENTRIES);
      }
    }
  }

  /** A step that leaves the table and the event cache alone, and fetches nothing. */
  ghost predicate LeavesLists(s: System, s': System) {
    && s'.shared.table == s.shared.table && s'.shared.cache == s.shared.cache
    && (forall p :: p in s'.tasks && s'.tasks[p].Fetched? ==> p in s.tasks && s.tasks[p] == s'.tasks[p])
  }

  lemma OtherStepKeepsFresh(h: Hasher<EventBody>, s: System, step: Step)
    requires Inv(h, s) && FreshInv(s) && LeavesLists(s, Next(h, s, step)) && !step.Finish?
    ensures FreshInv(Next(h, s, step))
  {
    forall a { PendingKept(h, s, step, a); }
  }

  lemma OtherStepLeavesLists(h: Hasher<EventBody>, s: System, step: Step)
    requires !step.Finish? && !step.GetCall? && !step.CacheRows? && !step.SelectRows?
    requires step.InsertRow? ==> !Stores(s, step.p, step.outcome)
    ensures LeavesLists(s, Next(h, s, step))
  {
  }

  lemma SelectFreshIff(h: Hasher<EventBody>, s: System, p: nat)
    requires Inv(h, s) && FreshInv(s)
    ensures FreshInv(Next(h, s, SelectRows(p))) <==> Clean(s, SelectRows(p))
  {
    var s' := Next(h, s, SelectRows(p));
    forall a { PendingKept(h, s, SelectRows(p), a); }
    if p in s.tasks && s.tasks[p].Selecting? {
      assert s'.tasks[p] == Fetched(s.tasks[p].a, Take(Reads(s.shared.table, s.tasks[p].a), s.tasks[p].limit));
      forall q | q in s'.tasks && q != p ensures q in s.tasks && s'.tasks[q] == s.tasks[q] {
      }
    }
  }

  /** From a state in which all lists are true, exactly the clean steps lead to another one. */
  lemma StepFreshIff(h: Hasher<EventBody>, s: System, step: Step)
    requires Inv(h, s) && FreshInv(s)
    ensures FreshInv(Next(h, s, step)) <==> Clean(s, step)
  {
    if step.InsertRow? && Stores(s, step.p, step.outcome) {
      if Clean(s, step) {
        InsertKeepsFresh(h, s, step.p, step.outcome);
      } else {
        InsertBreaksFresh(h, s, step.p, step.outcome);
      }
    } else if step.SelectRows? {
      SelectFreshIff(h, s, step.p);
    } else if step.Finish? || step.GetCall? || step.CacheRows? {
      CacheStepKeepsFresh(h, s, step);
    } else {
      OtherStepLeavesLists(h, s, step);
      OtherStepKeepsFresh(h, s, step);
    }
  }

  // ------------------------------------------------------------------- whole runs

  /** All lists are true in every state of a run exactly when each of its steps is clean. */
  lemma {:induction false} RunFreshIff(h: Hasher<EventBody>, steps: seq<Step>)
    ensures FreshThroughout(h, steps) <==> CleanRun(h, steps)
  {
    if steps != [] {
      var init, step := steps[..|steps| - 1], steps[|steps| - 1];
      RunFreshIff(h, init);
      if FreshThroughout(h, init) {
        RunKeepsInv(h, init);
        StepFreshIff(h, Run(h, Start(), init), step);
      }
    }
  }

  // ------------------------------------------------------------------ hit and miss

  /** The order of the two cuts does not matter: it starts at the front, takes nothing, or leaves nothing. */
  predicate CutsCommute(count: nat, from: int, limit: nat) {
    from <= 1 || from > count || count <= limit || limit == 0
  }

  lemma CutLengths(r: seq<Event>, from: int, limit: nat)
    requires forall i :: 0 <= i < |r| ==> r[i].body.sequence == i + 1
    ensures Take(FromSequence(r, from), limit) == FromSequence(Take(r, limit), from) <==> CutsCommute(|r|, from, limit)
  {
    var cut := Take(r, limit);
    FromSequenceIsSuffix(r, from);
    FromSequenceIsSuffix(cut, from);
    if !CutsCommute(|r|, from, limit) {
      assert |FromSequence(cut, from)| < |Take(r[from - 1..], limit)|;
    }
  }

  /**
   A hit cuts the list at the sequence number and then at the limit, a miss the other way round.
   So even with a cached list that is the whole stream they return the same exactly when the
   order of the two cuts does not matter.
   */
  lemma HitEqualsMissIff(h: Hasher<EventBody>, s: Shared, a: string, from: int, limit: nat)
    requires Good(h, s.table) && a != "" && a in s.cache.vals && s.cache.vals[a] == Reads(s.table, a)
    ensures EventsRead(s, a, from, limit) == EventsRead(s.(cache := Empty()), a, from, limit) <==>
            CutsCommute(|Reads(s.table, a)|, from, limit)
  {
    AppendOnlyLinked(h, s.table, a);
    CutLengths(Reads(s.table, a), from, limit);
  }

  /**
   In a clean run, once no append to the aggregate is between storing its row and popping the
   caches, `get_events` returns the same whether or not the cache is consulted, exactly when
   nothing is cached or the order of the two cuts does not matter.
   */
  lemma CleanRunHitsEqualTable(h: Hasher<EventBody>, steps: seq<Step>, a: string, from: int, limit: nat)
    requires a != "" && CleanRun(h, steps)
    requires !AppendPending(Run(h, Start(), steps), a)
    ensures var s := Run(h, Start(), steps).shared;
      EventsRead(s, a, from, limit) == EventsRead(s.(cache := Empty()), a, from, limit) <==>
      a !in s.cache.vals || CutsCommute(|Reads(s.table, a)|, from, limit)
  {
    RunFreshIff(h, steps);
    RunKeepsInv(h, steps);
    var s := Run(h, Start(), steps).shared;
    if a in s.cache.vals {
      HitEqualsMissIff(h, s, a, from, limit);
    }
  }
}
