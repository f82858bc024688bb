/**
 Every interleaving of callers of one event store. A caller is a task; a step is one
 section of its code between two `await`s. Appends hold the store's lock from before the
 read of the last event until after the caches are popped; reads and snapshots take none.
 */
module EventStoreRuns {
  import opened Options
  import opened Sequences
  import opened OrderedDicts
  import opened HashChain
  import opened EventTable
  import opened ChainVerifier
  import opened StoreEffects

  datatype Task =
    | Waiting(req: Request)                                        // for the lock
    | Locked(req: Request, id: string, now: string)                // lock held, tail not read
    | Ready(req: Request, id: string, now: string, prev: Option<string>, sequence: int)
    | Written(aggregate: Option<string>)                           // row stored, caches not popped
    | Selecting(a: string, limit: nat)                             // cache missed
    | Fetched(a: string, rows: seq<Event>)                         // rows read, not cached
    | SnapshotWriting(a: string, state: Object, version: int)
    | SnapshotWritten(a: string, state: Object)
    | SnapshotSelecting(a: string)
    | SnapshotFetched(a: string, state: Object)

  /**
   How an insert ends: stored; not stored and raised; stored, but reported as failed; or, with no
   row affected, not stored, but reported as done.
   */
  datatype Outcome = Stored | Failed | StoredButFailed | Dropped

  datatype Step =
    | AppendCall(p: nat, req: Request)
    | Acquire(p: nat, id: string, now: string)
    | ReadTail(p: nat)
    | InsertRow(p: nat, outcome: Outcome)
    | Finish(p: nat)
    | Cancel(p: nat)
    | GetCall(p: nat, a: string, limit: nat)
    | SelectRows(p: nat)
    | CacheRows(p: nat)
    | SnapshotCall(p: nat, a: string, state: Object, version: int)
    | InsertSnapshot(p: nat)
    | CacheNewSnapshot(p: nat)
    | SnapshotGet(p: nat, a: string)
    | SelectSnapshot(p: nat)
    | CacheReadSnapshot(p: nat)

  datatype System = System(shared: Shared, lock: Option<nat>, tasks: map<nat, Task>)

  function Start(): System {
    System(Initial(), None, map[])
  }

  predicate Holds(t: Task) {
    t.Locked? || t.Ready? || t.Written?
  }

  function TaskOf(s: System, p: nat): Option<Task> {
    if p in s.tasks then Some(s.tasks[p]) else None
  }

  function With(s: System, p: nat, t: Task): System {
    s.(tasks := s.tasks[p := t])
  }

  /** Task `p` ends, giving the lock back if it held it. */
  function Ended(s: System, p: nat): System {
    s.(tasks := s.tasks - {p}, lock := if s.lock == Some(p) then None else s.lock)
  }

  /** `id` is the table's primary key. */
  predicate IdTaken(table: seq<Event>, id: string) {
    exists i :: 0 <= i < |table| && table[i].body.id == id
  }

  /** One step. A step that is not enabled leaves the system as it is. */
  function Next(h: Hasher<EventBody>, s: System, step: Step): System {
    var t := TaskOf(s, step.p);
    match step
    case AppendCall(p, req) =>
      if t.None? then With(s, p, Waiting(req)) else s
    case Acquire(p, id, now) =>
      if t.Some? && t.value.Waiting? && s.lock.None? then
        With(s, p, Locked(t.value.req, id, now)).(lock := Some(p))
      else s
    case ReadTail(p) =>
      if t.Some? && t.value.Locked? then
        var tail := Tail(s.shared.table, t.value.req.aggregate);
        With(s, p, Ready(t.value.req, t.value.id, t.value.now, tail.0, tail.1))
      else s
    case InsertRow(p, outcome) =>
      if t.Some? && t.value.Ready? then
        var e := NewEvent(h, t.value.req, t.value.id, t.value.now, t.value.prev, t.value.sequence);
        if outcome.Dropped? then With(s, p, Written(t.value.req.aggregate))
        else if outcome.Failed? || IdTaken(s.shared.table, t.value.id) then Ended(s, p)
        else if outcome.StoredButFailed? then Ended(s.(shared := Inserted(s.shared, e)), p)
        else With(s.(shared := Inserted(s.shared, e)), p, Written(t.value.req.aggregate))
      else s
    case Finish(p) =>
      if t.Some? && t.value.Written? then Ended(s.(shared := Invalidated(s.shared, t.value.aggregate)), p)
      else s
    case Cancel(p) =>
      if t.Some? && !t.value.Written? then Ended(s, p) else s
    case GetCall(p, a, limit) =>
      if t.Some? then s
      else if a in s.shared.cache.vals then s.(shared := s.shared.(cache := s.shared.cache.MoveToEnd(a)))
      else With(s, p, Selecting(a, limit))
    case SelectRows(p) =>
      if t.Some? && t.value.Selecting? then
        With(s, p, Fetched(t.value.a, Take(Reads(s.shared.table, t.value.a), t.value.limit)))
      else s
    case CacheRows(p) =>
      if t.Some? && t.value.Fetched? then
        Ended(s.(shared := CachedEvents(s.shared, t.value.a, t.value.rows)), p)
      else s
    case SnapshotCall(p, a, state, version) =>
      if t.None? then With(s, p, SnapshotWriting(a, state, version)) else s
    case InsertSnapshot(p) =>
      if t.Some? && t.value.SnapshotWriting? then
        var row := Snapshot(t.value.a, t.value.state, t.value.version);
        With(s.(shared := s.shared.(snapshots := s.shared.snapshots + [row])), p,
             SnapshotWritten(t.value.a, t.value.state))
      else s
    case CacheNewSnapshot(p) =>
      if t.Some? && t.value.SnapshotWritten? then
        Ended(s.(shared := CachedSnapshot(s.shared, t.value.a, t.value.state)), p)
      else s
    case SnapshotGet(p, a) =>
      if t.Some? then s
      else if a in s.shared.snapshotCache.vals then
        s.(shared := s.shared.(snapshotCache := s.shared.snapshotCache.MoveToEnd(a)))
      else With(s, p, SnapshotSelecting(a))
    case SelectSnapshot(p) =>
      if t.Some? && t.value.SnapshotSelecting? then
        var row := NewestSnapshot(s.shared.snapshots, t.value.a);
        if row.None? then Ended(s, p) else With(s, p, SnapshotFetched(t.value.a, row.value.state))
      else s
    case CacheReadSnapshot(p) =>
      if t.Some? && t.value.SnapshotFetched? then
        Ended(s.(shared := CachedSnapshot(s.shared, t.value.a, t.value.state)), p)
      else s
  }

  function Run(h: Hasher<EventBody>, s: System, steps: seq<Step>): System {
    if steps == [] then s else Next(h, Run(h, s, steps[..|steps| - 1]), steps[|steps| - 1])
  }

  // ---------------------------------------------------------------- the invariant

  /** The lock is held by exactly one task: the one between acquiring and releasing it. */
  ghost predicate LockInv(s: System) {
    && (forall p :: p in s.tasks && Holds(s.tasks[p]) ==> s.lock == Some(p))
    && (s.lock.Some? ==> s.lock.value in s.tasks && Holds(s.tasks[s.lock.value]))
  }

  /** Between reading the tail and inserting, the tail does not change. */
  ghost predicate TailInv(s: System) {
    forall p :: p in s.tasks && s.tasks[p].Ready? ==>
      (s.tasks[p].prev, s.tasks[p].sequence) == Tail(s.shared.table, s.tasks[p].req.aggregate)
  }

  /** Whatever is cached or about to be cached is a prefix of the stream. */
  ghost predicate PrefixInv(s: System) {
    && (forall a :: a in s.shared.cache.vals && a != "" ==> s.shared.cache.vals[a] <= Reads(s.shared.table, a))
    && (forall p :: p in s.tasks && s.tasks[p].Fetched? && s.tasks[p].a != "" ==>
          s.tasks[p].rows <= Reads(s.shared.table, s.tasks[p].a))
  }

  /** Some stored snapshot of `a` has this state. */
  ghost predicate Snapshotted(snapshots: seq<Snapshot>, a: string, state: Object) {
    exists x :: x in snapshots && x.aggregate == a && x.state == state
  }

  /** Cached snapshot states were all stored for that aggregate. */
  ghost predicate SnapshotInv(s: System) {
    && (forall a :: a in s.shared.snapshotCache.vals ==>
          Snapshotted(s.shared.snapshots, a, s.shared.snapshotCache.vals[a]))
    && (forall p :: p in s.tasks && (s.tasks[p].SnapshotWritten? || s.tasks[p].SnapshotFetched?) ==>
          Snapshotted(s.shared.snapshots, s.tasks[p].a, s.tasks[p].state))
  }

  ghost predicate Inv(h: Hasher<EventBody>, s: System) {
    && Good(h, s.shared.table)
    && CachesBounded(s.shared)
    && LockInv(s)
    && TailInv(s)
    && PrefixInv(s)
    && SnapshotInv(s)
  }

  /** Inserting a row extends every list of reads at its end. */
  lemma InsertKeepsPrefixes(h: Hasher<EventBody>, s: System, e: Event)
    requires Good(h, s.shared.table) && PrefixInv(s) && Good(h, s.shared.table + [e])
    ensures PrefixInv(s.(shared := Inserted(s.shared, e)))
  {
    forall a | a != "" ensures Reads(s.shared.table, a) <= Reads(s.shared.table + [e], a) {
      ReadsGrow(h, s.shared.table, e, a);
    }
  }

  /** A stored row: the table grows by the row built from its tail. */
  lemma StoredRow(h: Hasher<EventBody>, s: System, p: nat)
    requires Inv(h, s) && p in s.tasks && s.tasks[p].Ready?
    ensures var t := s.tasks[p];
      var e := NewEvent(h, t.req, t.id, t.now, t.prev, t.sequence);
      Good(h, s.shared.table + [e]) && PrefixInv(s.(shared := Inserted(s.shared, e)))
  {
    var t := s.tasks[p];
    AppendKeepsGood(h, s.shared.table, t.req, t.id, t.now);
    InsertKeepsPrefixes(h, s, NewEvent(h, t.req, t.id, t.now, t.prev, t.sequence));
  }

  /** A task that ends leaves the others' part of the invariant as it was. */
  lemma EndKeepsInv(h: Hasher<EventBody>, s: System, p: nat)
    requires Good(h, s.shared.table) && CachesBounded(s.shared) && PrefixInv(s) && SnapshotInv(s) && LockInv(s)
    requires forall q :: q in s.tasks && q != p && s.tasks[q].Ready? ==>
      (s.tasks[q].prev, s.tasks[q].sequence) == Tail(s.shared.table, s.tasks[q].req.aggregate)
    ensures Inv(h, Ended(s, p))
  {
  }

  lemma DroppedKeepsInv(h: Hasher<EventBody>, s: System, p: nat)
    requires Inv(h, s) && p in s.tasks && s.tasks[p].Ready?
    ensures Inv(h, With(s, p, Written(s.tasks[p].req.aggregate)))
  {
  }

  lemma InsertStep(h: Hasher<EventBody>, s: System, step: Step)
    requires Inv(h, s) && step.InsertRow?
    ensures Inv(h, Next(h, s, step))
  {
    var t := TaskOf(s, step.p);
    if t.Some? && t.value.Ready? {
      if step.outcome.Dropped? {
        DroppedKeepsInv(h, s, step.p);
      } else if step.outcome.Failed? || IdTaken(s.shared.table, t.value.id) {
        EndKeepsInv(h, s, step.p);
      } else {
        var e := NewEvent(h, t.value.req, t.value.id, t.value.now, t.value.prev, t.value.sequence);
        StoredRow(h, s, step.p);
        assert forall q :: q in s.tasks && s.tasks[q].Ready? ==> q == step.p by {
          assert forall q :: q in s.tasks && Holds(s.tasks[q]) ==> s.lock == Some(q);
        }
        if step.outcome.StoredButFailed? {
          EndKeepsInv(h, s.(shared := Inserted(s.shared, e)), step.p);
        }
      }
    }
  }

  lemma CacheStep(h: Hasher<EventBody>, s: System, step: Step)
    requires Inv(h, s) && (step.Finish? || step.GetCall? || step.CacheRows?)
    ensures Inv(h, Next(h, s, step))
  {
    var t := TaskOf(s, step.p);
    if t.Some? && t.value.Written? && Truthy(t.value.aggregate) {
      PopFacts(s.shared.cache, t.value.aggregate.value);
      PopFacts(s.shared.snapshotCache, t.value.aggregate.value);
    }
    if step.GetCall? && step.a in s.shared.cache.vals {
      MoveFacts(s.shared.cache, step.a);
    }
    if t.Some? && t.value.Fetched? {
      PutFacts(s.shared.cache, t.value.a, t.value.rows, MAX_CACHE_ENTRIES);
    }
  }

  lemma SnapshotInsert(h: Hasher<EventBody>, s: System, step: Step)
    requires Inv(h, s) && step.InsertSnapshot?
    ensures Inv(h, Next(h, s, step))
  {
    var t := TaskOf(s, step.p);
    if t.Some? && t.value.SnapshotWriting? {
      var row := Snapshot(t.value.a, t.value.state, t.value.version);
      assert row in s.shared.snapshots + [row];
      forall a, state | Snapshotted(s.shared.snapshots, a, state)
        ensures Snapshotted(s.shared.snapshots + [row], a, state)
      {
        var x :| x in s.shared.snapshots && x.aggregate == a && x.state == state;
        assert x in s.shared.snapshots + [row];
      }
    }
  }

  /** A task that holds no lock may move on to anything that holds none and has read what is there. */
  lemma WithKeepsInv(h: Hasher<EventBody>, s: System, p: nat, t: Task)
    requires Inv(h, s) && !Holds(t) && (p in s.tasks ==> !Holds(s.tasks[p]))
    requires t.Fetched? && t.a != "" ==> t.rows <= Reads(s.shared.table, t.a)
    requires t.SnapshotWritten? || t.SnapshotFetched? ==> Snapshotted(s.shared.snapshots, t.a, t.state)
    ensures Inv(h, With(s, p, t))
  {
  }

  /** Reading a snapshot, or finding it cached. */
  lemma SnapshotReadStep(h: Hasher<EventBody>, s: System, step: Step)
    requires Inv(h, s) && (step.SnapshotGet? || step.SelectSnapshot?)
    ensures Inv(h, Next(h, s, step))
  {
    var t := TaskOf(s, step.p);
    match step
    case SnapshotGet(p, a) =>
      if t.None? && a in s.shared.snapshotCache.vals {
        MoveFacts(s.shared.snapshotCache, a);
      } else if t.None? {
        WithKeepsInv(h, s, p, SnapshotSelecting(a));
      }
    case SelectSnapshot(p) =>
      if t.Some? && t.value.SnapshotSelecting? {
        NewestSnapshotIsNewest(s.shared.snapshots, t.value.a);
        var row := NewestSnapshot(s.shared.snapshots, t.value.a);
        if row.None? {
          EndKeepsInv(h, s, p);
        } else {
          WithKeepsInv(h, s, p, SnapshotFetched(t.value.a, row.value.state));
        }
      }
  }

  /** Caching a snapshot that was written or read. */
  lemma SnapshotCacheStep(h: Hasher<EventBody>, s: System, step: Step)
    requires Inv(h, s) && (step.CacheNewSnapshot? || step.CacheReadSnapshot?)
    ensures Inv(h, Next(h, s, step))
  {
    var t := TaskOf(s, step.p);
    if t.Some? && (t.value.SnapshotWritten? || t.value.SnapshotFetched?) {
      PutFacts(s.shared.snapshotCache, t.value.a, t.value.state, MAX_SNAPSHOT_ENTRIES);
      EndKeepsInv(h, s.(shared := CachedSnapshot(s.shared, t.value.a, t.value.state)), step.p);
    }
  }

  lemma TaskStep(h: Hasher<EventBody>, s: System, step: Step)
    requires Inv(h, s) && (step.AppendCall? || step.SelectRows? || step.SnapshotCall?)
    ensures Inv(h, Next(h, s, step))
  {
    var t := TaskOf(s, step.p);
    match step
    case AppendCall(p, req) =>
      if t.None? {
        WithKeepsInv(h, s, p, Waiting(req));
      }
    case SelectRows(p) =>
      if t.Some? && t.value.Selecting? {
        WithKeepsInv(h, s, p, Fetched(t.value.a, Take(Reads(s.shared.table, t.value.a), t.value.limit)));
      }
    case SnapshotCall(p, a, state, version) =>
      if t.None? {
        WithKeepsInv(h, s, p, SnapshotWriting(a, state, version));
      }
  }

  lemma LockStep(h: Hasher<EventBody>, s: System, step: Step)
    requires Inv(h, s) && (step.Acquire? || step.ReadTail?)
    ensures Inv(h, Next(h, s, step))
  {
  }

  lemma CancelStep(h: Hasher<EventBody>, s: System, step: Step)
    requires Inv(h, s) && step.Cancel?
    ensures Inv(h, Next(h, s, step))
  {
    EndKeepsInv(h, s, step.p);
  }

  lemma StepKeepsInv(h: Hasher<EventBody>, s: System, step: Step)
    requires Inv(h, s)
    ensures Inv(h, Next(h, s, step))
  {
    match step
    case AppendCall(_, _) => TaskStep(h, s, step);
    case SelectRows(_) => TaskStep(h, s, step);
    case SnapshotCall(_, _, _, _) => TaskStep(h, s, step);
    case Acquire(_, _, _) => LockStep(h, s, step);
    case ReadTail(_) => LockStep(h, s, step);
    case Cancel(_) => CancelStep(h, s, step);
    case InsertRow(_, _) => InsertStep(h, s, step);
    case Finish(_) => CacheStep(h, s, step);
    case GetCall(_, _, _) => CacheStep(h, s, step);
    case CacheRows(_) => CacheStep(h, s, step);
    case InsertSnapshot(_) => SnapshotInsert(h, s, step);
    case CacheNewSnapshot(_) => SnapshotCacheStep(h, s, step);
    case SnapshotGet(_, _) => SnapshotReadStep(h, s, step);
    case SelectSnapshot(_) => SnapshotReadStep(h, s, step);
    case CacheReadSnapshot(_) => SnapshotCacheStep(h, s, step);
  }

  lemma {:induction false} RunKeepsInv(h: Hasher<EventBody>, steps: seq<Step>)
    ensures Inv(h, Run(h, Start(), steps))
  {
    if steps != [] {
      RunKeepsInv(h, steps[..|steps| - 1]);
      StepKeepsInv(h, Run(h, Start(), steps[..|steps| - 1]), steps[|steps| - 1]);
    }
  }

  // ------------------------------------------------------------- over whole runs

  /**
   In every state that interleaved callers can reach, each aggregate's rows are numbered
   1..n without gaps and form a rooted, self-consistent chain, however many inserts failed;
   and the two caches stay within their bounds.
   */
  lemma EveryRunIsChained(h: Hasher<EventBody>, steps: seq<Step>, a: string)
    requires a != ""
    ensures var s := Run(h, Start(), steps).shared;
      && WellFormed(h, Stream(s.table, a))
      && Stream(s.table, a) == Filter(ByAggregate(a), s.table)
      && |s.cache.keys| <= 1024
      && |s.snapshotCache.keys| <= 256
  {
    RunKeepsInv(h, steps);
    StreamIsInsertionOrder(h, Run(h, Start(), steps).shared.table, a);
  }

  /**
   Whatever the cache holds, `verify_integrity` never raises on a reachable store, and accepts
   exactly when each event it checked was stored without an empty optional column (or is a
   hash collision).
   */
  lemma EveryRunVerifies(h: Hasher<EventBody>, steps: seq<Step>, a: string, limit: nat, verdict: Verdict)
    requires a != ""
    requires IsVerdict(h, EventsRead(Run(h, Start(), steps).shared, a, 0, limit), verdict)
    ensures var table := Run(h, Start(), steps).shared.table;
      && !verdict.Raised?
      && (verdict.Report? ==>
            && verdict.checked <= |Reads(table, a)|
            && (verdict.valid <==> forall i :: 0 <= i < verdict.checked ==>
                  Faithful(Stream(table, a)[i])
                  || Collides(h, Stream(table, a)[i], ReadEvent(Stream(table, a)[i]))))
  {
    RunKeepsInv(h, steps);
    var s := Run(h, Start(), steps).shared;
    PrefixVerdict(h, s.table, a, EventsRead(s, a, 0, limit), verdict);
  }
}
