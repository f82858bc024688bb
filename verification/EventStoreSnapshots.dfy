/**
 When the snapshot cache tells the truth: exactly which steps keep every cached snapshot, and
 every one about to be cached, the state of the newest stored version.
 */
module EventStoreSnapshots {
  import opened Options
  import opened OrderedDicts
  import opened HashChain
  import opened EventTable
  import opened StoreEffects
  import opened EventStoreRuns

  /** The newest stored version has this state. */
  predicate IsNewest(snapshots: seq<Snapshot>, a: string, state: Object) {
    NewestSnapshot(snapshots, a).Some? && NewestSnapshot(snapshots, a).value.state == state
  }

  /** A task that is about to cache a snapshot. */
  predicate Carries(t: Task) {
    t.SnapshotWritten? || t.SnapshotFetched?
  }

  /** A task has stored a snapshot of `a` and not yet cached it. */
  ghost predicate WritePending(s: System, a: string) {
    exists p :: p in s.tasks && s.tasks[p].SnapshotWritten? && s.tasks[p].a == a
  }

  ghost predicate CarriedNewest(s: System) {
    forall p :: p in s.tasks && Carries(s.tasks[p]) ==>
      IsNewest(s.shared.snapshots, s.tasks[p].a, s.tasks[p].state)
  }

  ghost predicate CachedNewest(s: System) {
    forall a :: a in s.shared.snapshotCache.vals && !WritePending(s, a) ==>
      IsNewest(s.shared.snapshots, a, s.shared.snapshotCache.vals[a])
  }

  ghost predicate NewestInv(s: System) {
    CarriedNewest(s) && CachedNewest(s)
  }

  /**
   A step that leaves no outdated snapshot behind. A stored version is not below those stored, or
   has the newest one's state, and nobody is about to cache another state of the aggregate; and a
   task that stored a snapshot is not cancelled before caching it, unless the cache has no other
   state or another task is about to replace it.
   */
  ghost predicate Clean(s: System, step: Step) {
    match step
    case InsertSnapshot(p) =>
      p in s.tasks && s.tasks[p].SnapshotWriting? ==>
        var t := s.tasks[p];
        var best := NewestSnapshot(s.shared.snapshots, t.a);
        && (best.None? || best.value.version <= t.version || best.value.state == t.state)
        && (forall q :: q in s.tasks && Carries(s.tasks[q]) && s.tasks[q].a == t.a ==>
              s.tasks[q].state == t.state)
    case Cancel(p) =>
      p in s.tasks && s.tasks[p].SnapshotWritten? ==>
        var t := s.tasks[p];
        || t.a !in s.shared.snapshotCache.vals || s.shared.snapshotCache.vals[t.a] == t.state
        || exists q :: q in s.tasks && q != p && s.tasks[q].SnapshotWritten? && s.tasks[q].a == t.a
    case _ => true
  }

  // ------------------------------------------------------------ storing a snapshot

  lemma NewestSnoc(snapshots: seq<Snapshot>, row: Snapshot, a: string, state: Object)
    ensures a != row.aggregate ==> (IsNewest(snapshots + [row], a, state) <==> IsNewest(snapshots, a, state))
    ensures var best := NewestSnapshot(snapshots, row.aggregate);
      IsNewest(snapshots + [row], row.aggregate, row.state) <==>
      best.None? || best.value.version <= row.version || best.value.state == row.state
  {
    assert (snapshots + [row])[..|snapshots|] == snapshots;
  }

  lemma InsertedFields(h: Hasher<EventBody>, s: System, p: nat)
    requires p in s.tasks && s.tasks[p].SnapshotWriting?
    ensures var t, s' := s.tasks[p], Next(h, s, InsertSnapshot(p));
      && s'.shared.snapshots == s.shared.snapshots + [Snapshot(t.a, t.state, t.version)]
      && s'.shared.snapshotCache == s.shared.snapshotCache
      && s'.tasks == s.tasks[p := SnapshotWritten(t.a, t.state)]
  {
  }

  lemma InsertKeepsNewest(h: Hasher<EventBody>, s: System, p: nat)
    requires NewestInv(s) && p in s.tasks && s.tasks[p].SnapshotWriting? && Clean(s, InsertSnapshot(p))
    ensures NewestInv(Next(h, s, InsertSnapshot(p)))
  {
    var t, s' := s.tasks[p], Next(h, s, InsertSnapshot(p));
    var row := Snapshot(t.a, t.state, t.version);
    InsertedFields(h, s, p);
    assert s'.tasks[p] == SnapshotWritten(t.a, t.state);
    assert WritePending(s', t.a);
    forall q | q in s'.tasks && Carries(s'.tasks[q])
      ensures IsNewest(s'.shared.snapshots, s'.tasks[q].a, s'.tasks[q].state)
    {
      NewestSnoc(s.shared.snapshots, row, s'.tasks[q].a, s'.tasks[q].state);
    }
    forall a | a in s'.shared.snapshotCache.vals && !WritePending(s', a)
      ensures IsNewest(s'.shared.snapshots, a, s'.shared.snapshotCache.vals[a])
    {
      NewestSnoc(s.shared.snapshots, row, a, s.shared.snapshotCache.vals[a]);
      StillPending(s, s', a);
    }
  }

  /** A pending write stays pending as long as its task does. */
  lemma StillPending(s: System, s': System, a: string)
    requires forall q :: q in s.tasks && s.tasks[q].SnapshotWritten? ==> q in s'.tasks && s'.tasks[q] == s.tasks[q]
    ensures WritePending(s, a) ==> WritePending(s', a)
  {
    if WritePending(s, a) {
      var q :| q in s.tasks && s.tasks[q].SnapshotWritten? && s.tasks[q].a == a;
      assert q in s'.tasks && s'.tasks[q] == s.tasks[q];
    }
  }

  lemma NewestNeedsClean(h: Hasher<EventBody>, s: System, p: nat)
    requires p in s.tasks && s.tasks[p].SnapshotWriting? && CarriedNewest(Next(h, s, InsertSnapshot(p)))
    ensures Clean(s, InsertSnapshot(p))
  {
    var t, s' := s.tasks[p], Next(h, s, InsertSnapshot(p));
    InsertedFields(h, s, p);
    NewestSnoc(s.shared.snapshots, Snapshot(t.a, t.state, t.version), t.a, t.state);
    assert s'.tasks[p] == SnapshotWritten(t.a, t.state);
    assert IsNewest(s'.shared.snapshots, t.a, t.state);
    forall q | q in s.tasks && Carries(s.tasks[q]) && s.tasks[q].a == t.a ensures s.tasks[q].state == t.state {
      assert q in s'.tasks && s'.tasks[q] == s.tasks[q];
    }
  }

  // ----------------------------------------------------------------- cancelling

  lemma CancelIff(h: Hasher<EventBody>, s: System, p: nat)
    requires NewestInv(s) && p in s.tasks && s.tasks[p].SnapshotWritten?
    ensures NewestInv(Next(h, s, Cancel(p))) <==> Clean(s, Cancel(p))
  {
    var t, s' := s.tasks[p], Next(h, s, Cancel(p));
    assert s'.tasks == s.tasks - {p} && s'.shared == s.shared;
    assert IsNewest(s.shared.snapshots, t.a, t.state);
    assert forall q :: q in s.tasks && q != p ==> q in s'.tasks && s'.tasks[q] == s.tasks[q];
    forall a | a != t.a ensures WritePending(s', a) <==> WritePending(s, a) {
      OthersPending(s, s', p, a);
    }
    assert forall q :: q in s'.tasks ==> q in s.tasks && q != p && s'.tasks[q] == s.tasks[q];
    if Clean(s, Cancel(p)) && t.a in s.shared.snapshotCache.vals && s.shared.snapshotCache.vals[t.a] != t.state {
      var q :| q in s.tasks && q != p && s.tasks[q].SnapshotWritten? && s.tasks[q].a == t.a;
      assert WritePending(s', t.a);
    }
  }

  lemma OthersPending(s: System, s': System, p: nat, a: string)
    requires s'.tasks == s.tasks - {p} && (p in s.tasks && s.tasks[p].SnapshotWritten? ==> s.tasks[p].a != a)
    ensures WritePending(s', a) <==> WritePending(s, a)
  {
    if WritePending(s, a) {
      var q :| q in s.tasks && s.tasks[q].SnapshotWritten? && s.tasks[q].a == a;
      assert q in s'.tasks && s'.tasks[q] == s.tasks[q];
    }
    if WritePending(s', a) {
      var q :| q in s'.tasks && s'.tasks[q].SnapshotWritten? && s'.tasks[q].a == a;
      assert q in s.tasks && s.tasks[q] == s'.tasks[q];
    }
  }

  // --------------------------------------------------------------- the other steps

  /** Caching what was written or read. */
  lemma CachingKeepsNewest(h: Hasher<EventBody>, s: System, p: nat, step: Step)
    requires CachesBounded(s.shared) && NewestInv(s) && step in {CacheNewSnapshot(p), CacheReadSnapshot(p)}
    requires p in s.tasks
    requires if step.CacheNewSnapshot? then s.tasks[p].SnapshotWritten? else s.tasks[p].SnapshotFetched?
    ensures NewestInv(Next(h, s, step))
  {
    var t, s' := s.tasks[p], Next(h, s, step);
    PutFacts(s.shared.snapshotCache, t.a, t.state, MAX_SNAPSHOT_ENTRIES);
    assert s'.tasks == s.tasks - {p} && s'.shared.snapshots == s.shared.snapshots;
    assert IsNewest(s.shared.snapshots, t.a, t.state);
    forall a | a != t.a ensures WritePending(s', a) <==> WritePending(s, a) {
      OthersPending(s, s', p, a);
    }
    assert forall q :: q in s'.tasks ==> q in s.tasks && s'.tasks[q] == s.tasks[q];
  }

  /** Steps that add nothing to the cache and store no snapshot. */
  ghost predicate LeavesSnapshots(s: System, s': System) {
    && s'.shared.snapshots == s.shared.snapshots
    && (forall a :: a in s'.shared.snapshotCache.vals ==>
          a in s.shared.snapshotCache.vals && s'.shared.snapshotCache.vals[a] == s.shared.snapshotCache.vals[a])
    && (forall p :: p in s.tasks && s.tasks[p].SnapshotWritten? ==> p in s'.tasks && s'.tasks[p] == s.tasks[p])
    && (forall p :: p in s'.tasks && Carries(s'.tasks[p]) ==>
          (p in s.tasks && s.tasks[p] == s'.tasks[p])
          || IsNewest(s.shared.snapshots, s'.tasks[p].a, s'.tasks[p].state))
  }

  lemma LeavingKeepsNewest(s: System, s': System)
    requires NewestInv(s) && LeavesSnapshots(s, s')
    ensures NewestInv(s')
  {
    forall a | a in s'.shared.snapshotCache.vals && !WritePending(s', a)
      ensures IsNewest(s'.shared.snapshots, a, s'.shared.snapshotCache.vals[a])
    {
      StillPending(s, s', a);
    }
  }

  /** The steps about which `Clean` says something, or that cache a snapshot. */
  predicate Decisive(s: System, step: Step) {
    step.p in s.tasks && match step
                         case InsertSnapshot(p) => s.tasks[p].SnapshotWriting?
                         case Cancel(p) => s.tasks[p].SnapshotWritten?
                         case CacheNewSnapshot(p) => s.tasks[p].SnapshotWritten?
                         case CacheReadSnapshot(p) => s.tasks[p].SnapshotFetched?
                         case _ => false
  }

  lemma SelectLeaves(h: Hasher<EventBody>, s: System, p: nat)
    ensures LeavesSnapshots(s, Next(h, s, SelectSnapshot(p)))
  {
  }

  /** The tasks after a step: only the stepping task's entry may have changed, or gone. */
  ghost predicate OnlyTask(s: System, s': System, p: nat) {
    || s'.tasks == s.tasks
    || s'.tasks == s.tasks - {p}
    || (p in s'.tasks && !Carries(s'.tasks[p]) && s'.tasks == s.tasks[p := s'.tasks[p]])
  }

  lemma OtherStepTasks(h: Hasher<EventBody>, s: System, step: Step)
    requires !Decisive(s, step) && !step.SelectSnapshot?
    ensures OnlyTask(s, Next(h, s, step), step.p)
    ensures step.p in s.tasks && s.tasks[step.p].SnapshotWritten? ==> Next(h, s, step).tasks == s.tasks
  {
  }

  lemma OtherStepSnapshots(h: Hasher<EventBody>, s: System, step: Step)
    requires !Decisive(s, step) && !step.Finish?
    ensures Next(h, s, step).shared.snapshots == s.shared.snapshots
    ensures Next(h, s, step).shared.snapshotCache.vals == s.shared.snapshotCache.vals
  {
  }

  lemma OtherStepLeaves(h: Hasher<EventBody>, s: System, step: Step)
    requires !Decisive(s, step) && !step.Finish? && !step.SelectSnapshot?
    ensures LeavesSnapshots(s, Next(h, s, step))
  {
    OtherStepTasks(h, s, step);
    OtherStepSnapshots(h, s, step);
    OnlyTaskLeaves(s, Next(h, s, step), step.p);
  }

  lemma OnlyTaskLeaves(s: System, s': System, p: nat)
    requires s'.shared.snapshots == s.shared.snapshots
    requires s'.shared.snapshotCache.vals == s.shared.snapshotCache.vals
    requires OnlyTask(s, s', p) && (p in s.tasks && s.tasks[p].SnapshotWritten? ==> s'.tasks == s.tasks)
    ensures LeavesSnapshots(s, s')
  {
  }

  lemma FinishLeaves(h: Hasher<EventBody>, s: System, p: nat)
    requires CachesBounded(s.shared)
    ensures LeavesSnapshots(s, Next(h, s, Finish(p)))
  {
    var t := TaskOf(s, p);
    if t.Some? && t.value.Written? && Truthy(t.value.aggregate) {
      PopFacts(s.shared.snapshotCache, t.value.aggregate.value);
    }
  }

  /** From a state in which all cached snapshots are the newest, exactly the clean steps lead to another one. */
  lemma StepNewestIff(h: Hasher<EventBody>, s: System, step: Step)
    requires CachesBounded(s.shared) && NewestInv(s)
    ensures NewestInv(Next(h, s, step)) <==> Clean(s, step)
  {
    if Decisive(s, step) {
      if step.InsertSnapshot? {
        if Clean(s, step) {
          InsertKeepsNewest(h, s, step.p);
        }
        if NewestInv(Next(h, s, step)) {
          NewestNeedsClean(h, s, step.p);
        }
      } else if step.Cancel? {
        CancelIff(h, s, step.p);
      } else {
        CachingKeepsNewest(h, s, step.p, step);
      }
    } else {
      if step.Finish? {
        FinishLeaves(h, s, step.p);
      } else if step.SelectSnapshot? {
        SelectLeaves(h, s, step.p);
      } else {
        OtherStepLeaves(h, s, step);
      }
      LeavingKeepsNewest(s, Next(h, s, step));
    }
  }

  // ------------------------------------------------------------------- whole runs

  ghost predicate CleanRun(h: Hasher<EventBody>, steps: seq<Step>) {
    steps == [] || (CleanRun(h, steps[..|steps| - 1])
                    && Clean(Run(h, Start(), steps[..|steps| - 1]), steps[|steps| - 1]))
  }

  ghost predicate NewestThroughout(h: Hasher<EventBody>, steps: seq<Step>) {
    NewestInv(Run(h, Start(), steps)) && (steps == [] || NewestThroughout(h, steps[..|steps| - 1]))
  }

  /** All cached snapshots are the newest in every state of a run exactly when each of its steps is clean. */
  lemma {:induction false} RunNewestIff(h: Hasher<EventBody>, steps: seq<Step>)
    ensures NewestThroughout(h, steps) <==> CleanRun(h, steps)
  {
    if steps != [] {
      var init, step := steps[..|steps| - 1], steps[|steps| - 1];
      RunNewestIff(h, init);
      if NewestThroughout(h, init) {
        RunKeepsInv(h, init);
        StepNewestIff(h, Run(h, Start(), init), step);
      }
    }
  }

  /** In a clean run, with no write pending, `get_snapshot` returns what the table would. */
  lemma CleanRunReadsNewest(h: Hasher<EventBody>, steps: seq<Step>, a: string)
    requires CleanRun(h, steps) && !WritePending(Run(h, Start(), steps), a)
    ensures var s := Run(h, Start(), steps).shared;
      SnapshotRead(s, a) == SnapshotRead(s.(snapshotCache := Empty()), a)
  {
    RunNewestIff(h, steps);
    assert NewestInv(Run(h, Start(), steps));
  }
}
