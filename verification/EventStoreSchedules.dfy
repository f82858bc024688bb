/**
 Particular schedules of the event store, from any reachable state: an append that nobody
 interrupts has the effect the `EventStore` class states; and the three ways of not being clean
 (see `EventStoreFreshness`) leave a list in the cache that is not the stream, from which reads
 are served until the aggregate's next append pops it or it is evicted.
 */
module EventStoreSchedules {
  import opened Options
  import opened Sequences
  import opened OrderedDicts
  import opened HashChain
  import opened EventTable
  import opened StoreEffects
  import opened EventStoreRuns

  lemma RunSnoc(h: Hasher<EventBody>, s: System, steps: seq<Step>, step: Step)
    ensures Run(h, s, steps + [step]) == Next(h, Run(h, s, steps), step)
  {
    assert (steps + [step])[..|steps|] == steps;
  }

  function AppendSteps(q: nat, req: Request, id: string, now: string, outcome: Outcome): seq<Step> {
    [AppendCall(q, req)] + [Acquire(q, id, now)] + [ReadTail(q)] + [InsertRow(q, outcome)]
  }

  ghost predicate Idle(s: System, p: nat) {
    s.lock == None && p !in s.tasks
  }

  /** The row an uninterrupted append inserts. */
  function NextRow(h: Hasher<EventBody>, s: System, req: Request, id: string, now: string): Event {
    var tail := Tail(s.shared.table, req.aggregate);
    NewEvent(h, req, id, now, tail.0, tail.1)
  }

  /** Up to the insert nothing shared has changed; the lock is held and the tail is read. */
  lemma AppendUpToReady(h: Hasher<EventBody>, s: System, q: nat, req: Request, id: string, now: string)
    requires Idle(s, q)
    ensures var tail := Tail(s.shared.table, req.aggregate);
      Next(h, Next(h, Next(h, s, AppendCall(q, req)), Acquire(q, id, now)), ReadTail(q)) ==
      With(s, q, Ready(req, id, now, tail.0, tail.1)).(lock := Some(q))
  {
    var tail := Tail(s.shared.table, req.aggregate);
    assert s.tasks[q := Waiting(req)][q := Locked(req, id, now)][q := Ready(req, id, now, tail.0, tail.1)]
        == s.tasks[q := Ready(req, id, now, tail.0, tail.1)];
  }

  lemma RunAppendSteps(h: Hasher<EventBody>, s: System, q: nat, req: Request, id: string, now: string, outcome: Outcome)
    ensures Run(h, s, AppendSteps(q, req, id, now, outcome)) ==
            Next(h, Next(h, Next(h, Next(h, s, AppendCall(q, req)), Acquire(q, id, now)), ReadTail(q)),
                 InsertRow(q, outcome))
  {
    var c, a, r, i := AppendCall(q, req), Acquire(q, id, now), ReadTail(q), InsertRow(q, outcome);
    RunSnoc(h, s, [], c);
    assert [] + [c] == [c];
    RunSnoc(h, s, [c], a);
    RunSnoc(h, s, [c] + [a], r);
    RunSnoc(h, s, [c] + [a] + [r], i);
  }

  lemma AppendUpToInsert(h: Hasher<EventBody>, s: System, q: nat, req: Request, id: string, now: string,
                         outcome: Outcome)
    requires Idle(s, q) && !IdTaken(s.shared.table, id) && (outcome.Stored? || outcome.StoredButFailed?)
    ensures var s' := Run(h, s, AppendSteps(q, req, id, now, outcome));
      && s'.shared == Inserted(s.shared, NextRow(h, s, req, id, now))
      && (outcome.Stored? ==> s'.tasks == s.tasks[q := Written(req.aggregate)] && s'.lock == Some(q))
      && (outcome.StoredButFailed? ==> s'.tasks == s.tasks && s'.lock == None)
  {
    RunAppendSteps(h, s, q, req, id, now, outcome);
    AppendUpToReady(h, s, q, req, id, now);
    var tail := Tail(s.shared.table, req.aggregate);
    InsertWhenReady(h, s, q, Ready(req, id, now, tail.0, tail.1), outcome);
  }

  lemma InsertWhenReady(h: Hasher<EventBody>, s: System, q: nat, t: Task, outcome: Outcome)
    requires Idle(s, q) && t.Ready? && !IdTaken(s.shared.table, t.id) && (outcome.Stored? || outcome.StoredButFailed?)
    ensures var s' := Next(h, With(s, q, t).(lock := Some(q)), InsertRow(q, outcome));
      && s'.shared == Inserted(s.shared, NewEvent(h, t.req, t.id, t.now, t.prev, t.sequence))
      && (outcome.Stored? ==> s'.tasks == s.tasks[q := Written(t.req.aggregate)] && s'.lock == Some(q))
      && (outcome.StoredButFailed? ==> s'.tasks == s.tasks && s'.lock == None)
  {
    assert s.tasks[q := t] - {q} == s.tasks;
    assert s.tasks[q := t][q := Written(t.req.aggregate)] == s.tasks[q := Written(t.req.aggregate)];
  }

  /** Nobody else running: the five sections together are `EventStore.AppendEvent`. */
  lemma SerialAppend(h: Hasher<EventBody>, s: System, q: nat, req: Request, id: string, now: string)
    requires Idle(s, q) && !IdTaken(s.shared.table, id)
    ensures Run(h, s, AppendSteps(q, req, id, now, Stored) + [Finish(q)]) ==
            s.(shared := Appended(h, s.shared, req, id, now))
  {
    AppendUpToInsert(h, s, q, req, id, now, Stored);
    var steps := AppendSteps(q, req, id, now, Stored);
    assert (steps + [Finish(q)])[..|steps|] == steps;
    assert s.tasks[q := Written(req.aggregate)] - {q} == s.tasks;
  }

  /**
   An insert that raises leaves everything as it was. One that reports success without a row
   pops the caches and stores nothing.
   */
  lemma SerialAppendWithoutRow(h: Hasher<EventBody>, s: System, q: nat, req: Request, id: string, now: string,
                               outcome: Outcome)
    requires Idle(s, q) && (outcome.Dropped? || outcome.Failed? || IdTaken(s.shared.table, id))
    ensures Run(h, s, AppendSteps(q, req, id, now, outcome) + [Finish(q)]) ==
            if outcome.Dropped? then s.(shared := Invalidated(s.shared, req.aggregate)) else s
  {
    var steps := AppendSteps(q, req, id, now, outcome);
    assert (steps + [Finish(q)])[..|steps|] == steps;
    RunAppendSteps(h, s, q, req, id, now, outcome);
    AppendUpToReady(h, s, q, req, id, now);
    var tail := Tail(s.shared.table, req.aggregate);
    InsertWithoutRow(h, s, q, Ready(req, id, now, tail.0, tail.1), outcome);
  }

  lemma InsertWithoutRow(h: Hasher<EventBody>, s: System, q: nat, t: Task, outcome: Outcome)
    requires Idle(s, q) && t.Ready? && (outcome.Dropped? || outcome.Failed? || IdTaken(s.shared.table, t.id))
    ensures Next(h, Next(h, With(s, q, t).(lock := Some(q)), InsertRow(q, outcome)), Finish(q)) ==
            if outcome.Dropped? then s.(shared := Invalidated(s.shared, t.req.aggregate)) else s
  {
    assert s.tasks[q := t] - {q} == s.tasks;
    assert s.tasks[q := t][q := Written(t.req.aggregate)] - {q} == s.tasks;
  }

  /** A read with nobody in between is `EventStore.GetEvents`, on a hit and on a miss. */
  lemma SerialRead(h: Hasher<EventBody>, s: System, p: nat, a: string, limit: nat)
    requires Idle(s, p)
    ensures var s1 := Next(h, s, GetCall(p, a, limit));
      var s3 := Next(h, Next(h, s1, SelectRows(p)), CacheRows(p));
      s3 == s.(shared := if a in s.shared.cache.vals then s.shared.(cache := s.shared.cache.MoveToEnd(a))
                         else CachedEvents(s.shared, a, Take(Reads(s.shared.table, a), limit)))
  {
    if a !in s.shared.cache.vals {
      QueryAfterMiss(h, s, p, a, limit);
      assert s.tasks[p := Fetched(a, Take(Reads(s.shared.table, a), limit))] - {p} == s.tasks;
    }
  }

  /** A task that comes and goes leaves only its effect on the shared state. */
  lemma TaskGone(s: System, p: nat, t: Task, t': Task, shared: Shared)
    requires Idle(s, p)
    ensures With(With(s, p, t), p, t') == With(s, p, t')
    ensures Ended(With(s, p, t).(shared := shared), p) == s.(shared := shared)
  {
    assert s.tasks[p := t] - {p} == s.tasks;
  }

  /** A snapshot written with nobody in between is `EventStore.CreateSnapshot`. */
  lemma SerialSnapshotWrite(h: Hasher<EventBody>, s: System, p: nat, a: string, state: Object, version: int)
    requires Idle(s, p)
    ensures var s2 := Next(h, Next(h, s, SnapshotCall(p, a, state, version)), InsertSnapshot(p));
      var stored := s.shared.(snapshots := s.shared.snapshots + [Snapshot(a, state, version)]);
      Next(h, s2, CacheNewSnapshot(p)) == s.(shared := CachedSnapshot(stored, a, state))
  {
    var stored := s.shared.(snapshots := s.shared.snapshots + [Snapshot(a, state, version)]);
    var t, t' := SnapshotWriting(a, state, version), SnapshotWritten(a, state);
    TaskGone(s.(shared := stored), p, t, t', CachedSnapshot(stored, a, state));
    TaskGone(s.(shared := stored), p, t', t', CachedSnapshot(stored, a, state));
    assert Next(h, With(s, p, t), InsertSnapshot(p)) == With(s.(shared := stored), p, t');
  }

  /** A snapshot read with nobody in between is `EventStore.GetSnapshot`. */
  lemma SerialSnapshotRead(h: Hasher<EventBody>, s: System, p: nat, a: string)
    requires Idle(s, p)
    ensures var s2 := Next(h, Next(h, s, SnapshotGet(p, a)), SelectSnapshot(p));
      var found := SnapshotRead(s.shared, a);
      Next(h, s2, CacheReadSnapshot(p)) ==
      s.(shared := if a in s.shared.snapshotCache.vals then
                     s.shared.(snapshotCache := s.shared.snapshotCache.MoveToEnd(a))
                   else if found.Some? then CachedSnapshot(s.shared, a, found.value) else s.shared)
  {
    if a !in s.shared.snapshotCache.vals {
      SnapshotMiss(h, s, p, a);
    }
  }

  lemma SnapshotMiss(h: Hasher<EventBody>, s: System, p: nat, a: string)
    requires Idle(s, p) && a !in s.shared.snapshotCache.vals
    ensures var s2 := Next(h, Next(h, s, SnapshotGet(p, a)), SelectSnapshot(p));
      var row := NewestSnapshot(s.shared.snapshots, a);
      Next(h, s2, CacheReadSnapshot(p)) ==
      s.(shared := if row.Some? then CachedSnapshot(s.shared, a, row.value.state) else s.shared)
  {
    var row, t := NewestSnapshot(s.shared.snapshots, a), SnapshotSelecting(a);
    assert Next(h, s, SnapshotGet(p, a)) == With(s, p, t);
    SnapshotSelected(h, s, p, a);
    if row.Some? {
      var t' := SnapshotFetched(a, row.value.state);
      TaskGone(s, p, t', t', CachedSnapshot(s.shared, a, row.value.state));
    }
  }

  lemma SnapshotSelected(h: Hasher<EventBody>, s: System, p: nat, a: string)
    requires Idle(s, p)
    ensures var row := NewestSnapshot(s.shared.snapshots, a);
      Next(h, With(s, p, SnapshotSelecting(a)), SelectSnapshot(p)) ==
      if row.Some? then With(s, p, SnapshotFetched(a, row.value.state)) else s
  {
    var row, t := NewestSnapshot(s.shared.snapshots, a), SnapshotSelecting(a);
    TaskGone(s, p, t, t, s.shared);
    if row.Some? {
      TaskGone(s, p, t, SnapshotFetched(a, row.value.state), s.shared);
    }
  }

  /** A read that misses the cache and has run its query. */
  lemma QueryAfterMiss(h: Hasher<EventBody>, s: System, p: nat, a: string, limit: nat)
    requires p !in s.tasks && a !in s.shared.cache.vals
    ensures Next(h, Next(h, s, GetCall(p, a, limit)), SelectRows(p)) ==
            With(s, p, Fetched(a, Take(Reads(s.shared.table, a), limit)))
  {
  }

  /** A fetched list is cached as it was fetched. */
  lemma CacheFetched(h: Hasher<EventBody>, s: System, p: nat, a: string, rows: seq<Event>)
    requires CachesBounded(s.shared) && p in s.tasks && s.tasks[p] == Fetched(a, rows) && s.lock == None
    ensures var s' := Next(h, s, CacheRows(p));
      && s'.tasks == s.tasks - {p} && s'.lock == None
      && s'.shared.table == s.shared.table
      && a in s'.shared.cache.vals && s'.shared.cache.vals[a] == rows
  {
    PutFacts(s.shared.cache, a, rows, MAX_CACHE_ENTRIES);
  }

  lemma InvalidatedBounded(s: Shared, aggregate: Option<string>)
    requires CachesBounded(s)
    ensures CachesBounded(Invalidated(s, aggregate)) && Invalidated(s, aggregate).table == s.table
  {
    if Truthy(aggregate) {
      PopFacts(s.cache, aggregate.value);
      PopFacts(s.snapshotCache, aggregate.value);
    }
  }

  lemma CacheAfterAppend(h: Hasher<EventBody>, s: System, p: nat, q: nat, a: string, rows: seq<Event>,
                         req: Request, id: string, now: string)
    requires CachesBounded(s.shared) && Idle(s, p) && Idle(s, q) && p != q
    requires req.aggregate == Some(a) && !IdTaken(s.shared.table, id)
    ensures var s2 := Run(h, With(s, p, Fetched(a, rows)), AppendSteps(q, req, id, now, Stored) + [Finish(q)]);
      var s3 := Next(h, s2, CacheRows(p));
      && s3.tasks == s.tasks && s3.lock == None
      && s3.shared.table == s.shared.table + [NextRow(h, s, req, id, now)]
      && a in s3.shared.cache.vals && s3.shared.cache.vals[a] == rows
  {
    var s1 := With(s, p, Fetched(a, rows));
    SerialAppend(h, s1, q, req, id, now);
    var row := NextRow(h, s, req, id, now);
    var after := Invalidated(Inserted(s.shared, row), req.aggregate);
    InvalidatedBounded(Inserted(s.shared, row), req.aggregate);
    CacheFetched(h, s1.(shared := after), p, a, rows);
    assert s1.tasks - {p} == s.tasks;
  }

  /** A reader queries, an append to the same aggregate completes, the reader fills the cache. */
  lemma RaceLeavesStaleList(h: Hasher<EventBody>, s: System, p: nat, q: nat, a: string, limit: nat,
                            req: Request, id: string, now: string)
    requires Inv(h, s) && Idle(s, p) && Idle(s, q) && p != q
    requires a != "" && a !in s.shared.cache.vals && |Reads(s.shared.table, a)| <= limit
    requires req.aggregate == Some(a) && !IdTaken(s.shared.table, id)
    ensures var s1 := Next(h, Next(h, s, GetCall(p, a, limit)), SelectRows(p));
      var s2 := Run(h, s1, AppendSteps(q, req, id, now, Stored) + [Finish(q)]);
      var s3 := Next(h, s2, CacheRows(p));
      && s3.tasks == s.tasks && s3.lock == None
      && a in s3.shared.cache.vals
      && s3.shared.cache.vals[a] == Reads(s.shared.table, a)
      && Reads(s3.shared.table, a) == s3.shared.cache.vals[a] + [ReadEvent(NextRow(h, s, req, id, now))]
  {
    QueryAfterMiss(h, s, p, a, limit);
    CacheAfterAppend(h, s, p, q, a, Reads(s.shared.table, a), req, id, now);
    AppendKeepsGood(h, s.shared.table, req, id, now);
    ReadsGrow(h, s.shared.table, NextRow(h, s, req, id, now), a);
  }

  /** A row that is stored while its insert is reported as failed never invalidates the cache. */
  lemma LostInvalidationLeavesStaleList(h: Hasher<EventBody>, s: System, q: nat, a: string,
                                        req: Request, id: string, now: string)
    requires Inv(h, s) && Idle(s, q)
    requires a != "" && a in s.shared.cache.vals && s.shared.cache.vals[a] == Reads(s.shared.table, a)
    requires req.aggregate == Some(a) && !IdTaken(s.shared.table, id)
    ensures var s' := Run(h, s, AppendSteps(q, req, id, now, StoredButFailed));
      && s'.tasks == s.tasks && s'.lock == None
      && a in s'.shared.cache.vals
      && Reads(s'.shared.table, a) == s'.shared.cache.vals[a] + [ReadEvent(NextRow(h, s, req, id, now))]
  {
    AppendUpToInsert(h, s, q, req, id, now, StoredButFailed);
    AppendKeepsGood(h, s.shared.table, req, id, now);
    ReadsGrow(h, s.shared.table, NextRow(h, s, req, id, now), a);
  }

  /** A read with a small limit hides the rest of the stream from every later read. */
  lemma SmallLimitLeavesShortList(h: Hasher<EventBody>, s: System, p: nat, a: string, limit: nat, later: nat)
    requires Inv(h, s) && Idle(s, p)
    requires a !in s.shared.cache.vals && limit < |Reads(s.shared.table, a)| && limit < later
    ensures var s' := Next(h, Next(h, Next(h, s, GetCall(p, a, limit)), SelectRows(p)), CacheRows(p));
      && s'.tasks == s.tasks
      && |EventsRead(s'.shared, a, 0, later)| == limit
      && |EventsRead(s'.shared.(cache := Empty()), a, 0, later)| > limit
  {
    var rows := Take(Reads(s.shared.table, a), limit);
    SerialRead(h, s, p, a, limit);
    PutFacts(s.shared.cache, a, rows, MAX_CACHE_ENTRIES);
    ShortListRead(CachedEvents(s.shared, a, rows), a, rows, later);
  }

  lemma ShortListRead(s: Shared, a: string, rows: seq<Event>, later: nat)
    requires a in s.cache.vals && s.cache.vals[a] == rows
    requires |rows| < |Reads(s.table, a)| && |rows| < later
    ensures |EventsRead(s, a, 0, later)| == |rows|
    ensures |EventsRead(s.(cache := Empty()), a, 0, later)| > |rows|
  {
  }
}
