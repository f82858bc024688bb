/**
 The `EventStore` object: its methods run one at a time, proved against the effects in
 `StoreEffects`. What interleaved callers can do to it is the subject of `EventStoreRuns`.
 */
module EventStore {
  import opened Options
  import opened Sequences
  import opened OrderedDicts
  import opened HashChain
  import opened EventTable
  import opened StoreEffects
  import opened ChainVerifier
  import opened Replay

  const DEFAULT_LIMIT: nat := 1000

  /** A cached list is the aggregate's whole stream. */
  ghost predicate Fresh(s: Shared, a: string) {
    a in s.cache.vals ==> s.cache.vals[a] == Reads(s.table, a)
  }

  /** What was fresh stays fresh. */
  ghost predicate FreshKept(s: Shared, s': Shared) {
    forall a :: a != "" && Fresh(s, a) ==> Fresh(s', a)
  }

  /** Popping the appended aggregate from the cache keeps every cached list fresh. */
  lemma FreshAfterAppend(s: Shared, e: Event)
    requires CachesBounded(s)
    ensures FreshKept(s, Invalidated(Inserted(s, e), e.body.aggregate))
  {
    var s' := Invalidated(Inserted(s, e), e.body.aggregate);
    if Truthy(e.body.aggregate) {
      PopFacts(s.cache, e.body.aggregate.value);
    }
    forall a | a != "" && Fresh(s, a) ensures Fresh(s', a) {
      StreamSnoc(s.table, e, a);
      assert Filter(ByAggregate(a), s.table) + [] == Filter(ByAggregate(a), s.table);
    }
  }

  lemma AppendedFacts(h: Hasher<EventBody>, s: Shared, req: Request, id: string, now: string)
    requires CachesBounded(s)
    ensures Good(h, s.table) ==> Good(h, Appended(h, s, req, id, now).table)
    ensures FreshKept(s, Appended(h, s, req, id, now))
  {
    var t := Tail(s.table, req.aggregate);
    FreshAfterAppend(s, NewEvent(h, req, id, now, t.0, t.1));
    if Good(h, s.table) {
      AppendKeepsGood(h, s.table, req, id, now);
    }
  }

  /** Caching the whole stream of one aggregate leaves the true lists true. */
  lemma CachingKeepsFresh(s: Shared, a: string)
    requires CachesBounded(s)
    ensures FreshKept(s, CachedEvents(s, a, Reads(s.table, a)))
  {
    PutFacts(s.cache, a, Reads(s.table, a), MAX_CACHE_ENTRIES);
  }

  lemma FreshRead(s: Shared, a: string, from: int, limit: nat)
    requires Fresh(s, a) && |Reads(s.table, a)| <= limit
    ensures EventsRead(s, a, from, limit) == FromSequence(Reads(s.table, a), from)
  {
    if from > 0 {
      FilterLength((e: Event) => e.body.sequence >= from, Reads(s.table, a));
    }
  }

  /** Replay from a snapshot over the events that `get_events` returns in a given state. */
  function ReplayRead(s: Shared, a: string, apply: Apply, snapshot: Option<Object>): Option<Json> {
    match StartOf(snapshot)
    case None => None
    case Some(st) => Some(Fold(apply, st.state, EventsRead(s, a, st.sequence + 1, DEFAULT_LIMIT)))
  }

  /** With a fresh cache and a stream within the limit, that is the replay of the whole stream. */
  lemma FreshReplay(s: Shared, a: string, apply: Apply, snapshot: Option<Object>)
    requires Fresh(s, a) && |Reads(s.table, a)| <= DEFAULT_LIMIT
    ensures ReplayRead(s, a, apply, snapshot) == Replayed(apply, snapshot, Reads(s.table, a))
  {
    var start := StartOf(snapshot);
    if start.Some? {
      FreshRead(s, a, start.value.sequence + 1, DEFAULT_LIMIT);
    }
  }

  /** Looking for a snapshot does not change which events are read. */
  lemma ReplayAfterLook(s: Shared, s': Shared, a: string, apply: Apply, snapshot: Option<Object>)
    requires s'.cache == s.cache && s'.table == s.table
    ensures ReplayRead(s', a, apply, snapshot) == ReplayRead(s, a, apply, snapshot)
  {
  }

  /** A stream that is too long and not cached is replayed only as far as its 1000th event. */
  lemma LongReplay(s: Shared, a: string, apply: Apply)
    requires a !in s.cache.vals && Numbered(Reads(s.table, a)) && |Reads(s.table, a)| > 1000
    ensures ReplayRead(s, a, apply, None) == Some(Fold(apply, JNull, Reads(s.table, a)[..1000]))
  {
    MissSlice(s, a, 1, 1000);
  }

  /** Replaying after an append applies the appended data to what was replayed before. */
  lemma AppendAppliesData(h: Hasher<EventBody>, s: Shared, req: Request, id: string, now: string, a: string,
                          apply: Apply)
    requires Good(h, s.table) && req.aggregate == Some(a) && a != ""
    ensures var after := Appended(h, s, req, id, now).table;
      Fold(apply, JNull, Reads(after, a)) == apply(Fold(apply, JNull, Reads(s.table, a)), req.data)
  {
    var t := Tail(s.table, req.aggregate);
    var e := NewEvent(h, req, id, now, t.0, t.1);
    AppendKeepsGood(h, s.table, req, id, now);
    ReadsGrow(h, s.table, e, a);
    var r := Reads(s.table, a);
    assert (r + [ReadEvent(e)])[..|r|] == r;
  }

  /** `for event in events: state = apply_fn(state, event.data)` */
  method ApplyAll(apply: Apply, start: Json, events: seq<Event>) returns (state: Json)
    ensures state == Fold(apply, start, events)
  {
    state := start;
    for i := 0 to |events|
      invariant state == Fold(apply, start, events[..i])
    {
      assert events[..i + 1][..i] == events[..i];
      state := apply(state, events[i].body.data);
    }
    assert events[..|events|] == events;
  }

  class EventStore {
    const h: Hasher<EventBody>
    var table: seq<Event>
    var cache: OrderedDict<seq<Event>>
    var snapshots: seq<Snapshot>
    var snapshotCache: OrderedDict<Object>

    ghost function State(): Shared
      reads this
    {
      Shared(table, cache, snapshots, snapshotCache)
    }

    ghost predicate Valid()
      reads this
    {
      CachesBounded(State())
    }

    constructor (hasher: Hasher<EventBody>)
      ensures Valid() && State() == Initial() && h == hasher
    {
      h := hasher;
      table, cache := [], Empty();
      snapshots, snapshotCache := [], Empty();
    }

    method StoreCachedEvents(a: string, events: seq<Event>)
      requires Valid()
      modifies this`cache
      ensures Valid() && State() == CachedEvents(old(State()), a, events)
      ensures Renewed(old(cache), cache, a, events, 1024)
    {
      PutRenews(cache, a, events, MAX_CACHE_ENTRIES);
      cache := cache.Set(a, events);
      cache := cache.MoveToEnd(a);
      cache := PopDownTo(cache, MAX_CACHE_ENTRIES);
    }

    method StoreCachedSnapshot(a: string, state: Object)
      requires Valid()
      modifies this`snapshotCache
      ensures Valid() && State() == CachedSnapshot(old(State()), a, state)
      ensures Renewed(old(snapshotCache), snapshotCache, a, state, 256)
    {
      PutRenews(snapshotCache, a, state, MAX_SNAPSHOT_ENTRIES);
      snapshotCache := snapshotCache.Set(a, state);
      snapshotCache := snapshotCache.MoveToEnd(a);
      snapshotCache := PopDownTo(snapshotCache, MAX_SNAPSHOT_ENTRIES);
    }

    /** An event with the highest sequence number of the aggregate. */
    method GetLastEvent(a: string) returns (last: Option<Event>)
      ensures last.None? <==> Reads(table, a) == []
      ensures last.Some? ==>
        && last.value == Reads(table, a)[|Reads(table, a)| - 1]
        && last.value in Reads(table, a)
        && forall e :: e in Reads(table, a) ==> e.body.sequence <= last.value.body.sequence
    {
      var s := Stream(table, a);
      SortSorted(BySequence(), Filter(ByAggregate(a), table));
      if s == [] {
        return None;
      }
      last := Some(ReadEvent(s[|s| - 1]));
      assert last.value == Reads(table, a)[|s| - 1];
      forall e | e in Reads(table, a) ensures e.body.sequence <= last.value.body.sequence {
        var i :| 0 <= i < |s| && Reads(table, a)[i] == e;
        assert i < |s| - 1 ==> BySequence()(s[i], s[|s| - 1]);
      }
    }

    /** The hash and the sequence number of the next event of an aggregate. */
    method ReadTail(aggregate: Option<string>) returns (prevHash: Option<string>, nextSequence: int)
      ensures (prevHash, nextSequence) == Tail(table, aggregate)
    {
      prevHash, nextSequence := None, 1;
      if Truthy(aggregate) {
        var last := GetLastEvent(aggregate.value);
        if last.Some? {
          prevHash := Some(last.value.hashSelf);
          nextSequence := last.value.body.sequence + 1;
        }
      }
    }

    /** Pop the aggregate from both caches. */
    method InvalidateCaches(aggregate: Option<string>)
      requires Valid()
      modifies this`cache, this`snapshotCache
      ensures Valid() && State() == Invalidated(old(State()), aggregate)
      ensures aggregate.Some? && aggregate.value != "" ==>
        && cache.vals == old(cache.vals) - {aggregate.value}
        && snapshotCache.vals == old(snapshotCache.vals) - {aggregate.value}
      ensures aggregate in {None, Some("")} ==> cache == old(cache) && snapshotCache == old(snapshotCache)
    {
      if Truthy(aggregate) {
        PopFacts(cache, aggregate.value);
        PopFacts(snapshotCache, aggregate.value);
        cache := cache.Pop(aggregate.value);
        snapshotCache := snapshotCache.Pop(aggregate.value);
      }
    }

    /**
     Append one event. `accepted` says whether the database took the row; if it did not, the
     insert raises and nothing has changed. A table of well-formed streams stays one, and no
     cached list that was the whole stream becomes stale.
     */
    method AppendEvent(req: Request, id: string, now: string, accepted: bool) returns (r: Option<string>)
      requires Valid()
      modifies this`table, this`cache, this`snapshotCache
      ensures Valid()
      ensures !accepted ==> r == None && State() == old(State())
      ensures accepted ==> r == Some(id) && State() == Appended(h, old(State()), req, id, now)
      ensures accepted ==>
        && |table| == |old(table)| + 1 && table[..|old(table)|] == old(table)
        && var b := table[|old(table)|].body;
           && b.id == id && b.eventType == req.eventType && b.version == req.version && b.traceId == req.traceId
           && b.parent == req.parent && b.aggregate == req.aggregate && b.aggregateType == req.aggregateType
           && b.data == req.data && b.createdAt == now
           && b.metadata == if req.metadata.Some? then req.metadata.value else map[]
      ensures accepted ==>
        var e := table[|old(table)|];
        if req.aggregate.Some? && req.aggregate.value != "" then FollowsLatest(old(table), req.aggregate.value, e)
        else e.body.sequence == 1 && e.hashPrev == None
      ensures accepted && req.aggregate.Some? && req.aggregate.value != "" ==>
        && cache.vals == old(cache.vals) - {req.aggregate.value}
        && snapshotCache.vals == old(snapshotCache.vals) - {req.aggregate.value}
      ensures old(Good(h, table)) ==> Good(h, table)
      ensures FreshKept(old(State()), State())
    {
      var prevHash, nextSequence := ReadTail(req.aggregate);
      var e := NewEvent(h, req, id, now, prevHash, nextSequence);
      if !accepted {
        return None;
      }
      AppendedFacts(h, State(), req, id, now);
      if req.aggregate.Some? && req.aggregate.value != "" {
        TailFollowsLatest(h, table, req, id, now);
      }
      table := table + [e];
      InvalidateCaches(req.aggregate);
      return Some(id);
    }

    /** A hit: the cached list, cut at the sequence number and then at the limit. */
    method GetCached(a: string, from: int, limit: nat) returns (events: seq<Event>)
      requires Valid() && a in cache.vals
      modifies this`cache
      ensures Valid() && State() == old(State()).(cache := old(cache).MoveToEnd(a))
      ensures events == EventsRead(old(State()), a, from, limit)
      ensures var c := old(cache.vals[a]);
        var lo := if from <= 1 then 0 else if from > |c| then |c| else from - 1;
        Numbered(c) ==> events == c[lo..if lo + limit <= |c| then lo + limit else |c|]
    {
      if Numbered(cache.vals[a]) {
        HitSlice(State(), a, from, limit);
      }
      events := cache.vals[a];
      MoveFacts(cache, a);
      cache := cache.MoveToEnd(a);
      events := Take(FromSequence(events, from), limit);
    }

    /** A miss: the stream, cut at the limit, cached, and then cut at the sequence number. */
    method GetStored(a: string, from: int, limit: nat) returns (events: seq<Event>)
      requires Valid() && a !in cache.vals
      modifies this`cache
      ensures Valid() && State() == CachedEvents(old(State()), a, Take(Reads(table, a), limit))
      ensures events == EventsRead(old(State()), a, from, limit)
      ensures |Reads(table, a)| <= limit ==> FreshKept(old(State()), State())
      ensures var r := Reads(table, a);
        var hi := if limit <= |r| then limit else |r|;
        Numbered(r) ==> events == r[if from <= 1 then 0 else if from > hi then hi else from - 1..hi]
    {
      if Numbered(Reads(table, a)) {
        MissSlice(State(), a, from, limit);
      }
      var rows := Take(Map(ReadEvent, Stream(table, a)), limit);
      if |Reads(table, a)| <= limit {
        CachingKeepsFresh(State(), a);
      }
      StoreCachedEvents(a, rows);
      events := FromSequence(rows, from);
    }

    /**
     Events of an aggregate from a sequence number on. When what is cached is the whole
     stream and the stream fits the limit, a hit and a miss return the same.
     */
    method GetEvents(a: string, from: int, limit: nat) returns (events: seq<Event>)
      requires Valid()
      modifies this`cache
      ensures Valid()
      ensures events == EventsRead(old(State()), a, from, limit)
      ensures old(a in cache.vals) ==> State() == old(State()).(cache := old(cache).MoveToEnd(a))
      ensures old(a !in cache.vals) ==>
        State() == CachedEvents(old(State()), a, Take(Reads(table, a), limit))
      ensures old(Fresh(State(), a)) && |Reads(table, a)| <= limit ==>
        events == FromSequence(Reads(table, a), from)
      ensures |Reads(table, a)| <= limit ==> FreshKept(old(State()), State())
      ensures old(a in cache.vals && Numbered(cache.vals[a])) ==>
        var c := old(cache.vals[a]);
        var lo := if from <= 1 then 0 else if from > |c| then |c| else from - 1;
        events == c[lo..if lo + limit <= |c| then lo + limit else |c|]
      ensures old(a !in cache.vals) && Numbered(Reads(table, a)) ==>
        var r := Reads(table, a);
        var hi := if limit <= |r| then limit else |r|;
        events == r[if from <= 1 then 0 else if from > hi then hi else from - 1..hi]
    {
      if Fresh(State(), a) && |Reads(table, a)| <= limit {
        FreshRead(State(), a, from, limit);
      }
      if a in cache.vals {
        events := GetCached(a, from, limit);
      } else {
        events := GetStored(a, from, limit);
      }
    }

    /** Insert a snapshot and cache its state, whatever versions are already stored. */
    method CreateSnapshot(a: string, state: Object, version: int)
      requires Valid()
      modifies this`snapshots, this`snapshotCache
      ensures Valid()
      ensures var row := Snapshot(a, state, version);
        State() == CachedSnapshot(old(State()).(snapshots := old(snapshots) + [row]), a, state)
      ensures snapshots == old(snapshots) + [Snapshot(a, state, version)]
      ensures a in snapshotCache.vals && snapshotCache.vals[a] == state
    {
      snapshots := snapshots + [Snapshot(a, state, version)];
      PutFacts(snapshotCache, a, state, MAX_SNAPSHOT_ENTRIES);
      StoreCachedSnapshot(a, state);
    }

    method GetSnapshot(a: string) returns (r: Option<Object>)
      requires Valid()
      modifies this`snapshotCache
      ensures Valid()
      ensures r == SnapshotRead(old(State()), a)
      ensures old(a in snapshotCache.vals) ==> r == Some(old(snapshotCache.vals[a]))
      ensures old(a !in snapshotCache.vals) && r.None? ==> forall x :: x in snapshots ==> x.aggregate != a
      ensures old(a !in snapshotCache.vals) && r.Some? ==>
        exists x :: x in snapshots && x.aggregate == a && x.state == r.value
                    && forall y :: y in snapshots && y.aggregate == a ==> y.version <= x.version
      ensures old(a in snapshotCache.vals) ==>
        State() == old(State()).(snapshotCache := old(snapshotCache).MoveToEnd(a))
      ensures old(a !in snapshotCache.vals) ==>
        State() == if r.Some? then CachedSnapshot(old(State()), a, r.value) else old(State())
    {
      SnapshotReadFacts(State(), a);
      if a in snapshotCache.vals {
        MoveFacts(snapshotCache, a);
        snapshotCache := snapshotCache.MoveToEnd(a);
        return Some(snapshotCache.vals[a]);
      }
      var row := NewestSnapshot(snapshots, a);
      if row.Some? {
        StoreCachedSnapshot(a, row.value.state);
        return Some(row.value.state);
      }
      return None;
    }

    /** The first half of a replay: the snapshot, if one is wanted and found. */
    method LookForSnapshot(a: string, useSnapshot: bool) returns (found: Option<Object>)
      requires Valid()
      modifies this`snapshotCache
      ensures Valid()
      ensures found == if useSnapshot then SnapshotRead(old(State()), a) else None
      ensures snapshotCache == if useSnapshot then SnapshotCacheAfterRead(old(snapshotCache), snapshots, a)
                               else old(snapshotCache)
    {
      found := None;
      if useSnapshot {
        found := GetSnapshot(a);
      }
    }

    /** The second half of a replay: read the events and apply them. */
    method ReplayFrom(a: string, apply: Apply, snapshot: Option<Object>) returns (r: Option<Json>)
      requires Valid()
      modifies this`cache
      ensures Valid()
      ensures r == ReplayRead(old(State()), a, apply, snapshot)
      ensures cache == if r.Some? then CacheAfterRead(old(cache), table, a, DEFAULT_LIMIT) else old(cache)
    {
      var start := StartOf(snapshot);
      if start.None? {
        return None;
      }
      var events := GetEvents(a, start.value.sequence + 1, DEFAULT_LIMIT);
      var state := ApplyAll(apply, start.value.state, events);
      return Some(state);
    }

    /**
     Replay an aggregate. `None` is the `TypeError` of a stored `version` that is no number.
     With a fresh cache and at most 1000 events, the result is that of replaying the whole
     stream from the snapshot `get_snapshot` returns. A longer stream that is not cached is
     replayed as far as its 1000th event.
     */
    method ReplayAggregate(a: string, apply: Apply, useSnapshot: bool) returns (r: Option<Json>)
      requires Valid()
      modifies this`cache, this`snapshotCache
      ensures Valid() && table == old(table) && snapshots == old(snapshots)
      ensures
        var snapshot := if useSnapshot then SnapshotRead(old(State()), a) else None;
        && r == ReplayRead(old(State()), a, apply, snapshot)
        && (old(Fresh(State(), a)) && |Reads(table, a)| <= 1000 ==>
              r == Replayed(apply, snapshot, Reads(table, a)))
      ensures old(a !in cache.vals) && !useSnapshot && Numbered(Reads(table, a)) && |Reads(table, a)| > 1000 ==>
        r == Some(Fold(apply, JNull, Reads(table, a)[..1000]))
      ensures cache == if r.Some? then CacheAfterRead(old(cache), table, a, 1000) else old(cache)
      ensures snapshotCache == if useSnapshot then SnapshotCacheAfterRead(old(snapshotCache), snapshots, a)
                               else old(snapshotCache)
    {
      if a !in cache.vals && Numbered(Reads(table, a)) && |Reads(table, a)| > 1000 {
        LongReplay(State(), a, apply);
      }
      if Fresh(State(), a) && |Reads(table, a)| <= 1000 {
        FreshReplay(State(), a, apply, if useSnapshot then SnapshotRead(State(), a) else None);
      }
      ghost var before := State();
      var snapshot := LookForSnapshot(a, useSnapshot);
      ReplayAfterLook(before, State(), a, apply, snapshot);
      r := ReplayFrom(a, apply, snapshot);
    }

    /**
     Verify an aggregate. Over an append-only table with a cached list that is a prefix of the
     stream, it never raises, and it accepts exactly when every event it checked reads back
     faithfully (or is a hash collision with what is read back).
     */
    method VerifyIntegrity(a: string) returns (verdict: Verdict)
      requires Valid()
      modifies this`cache
      ensures Valid() && table == old(table)
      ensures IsVerdict(h, EventsRead(old(State()), a, 0, 1000), verdict)
      ensures cache == CacheAfterRead(old(cache), table, a, 1000)
      ensures old(a !in cache.vals) && verdict.Report? ==>
        verdict.checked == if |Reads(table, a)| <= 1000 then |Reads(table, a)| else 1000
      ensures Good(h, table) && a != "" && old(a in cache.vals ==> cache.vals[a] <= Reads(table, a)) ==>
        && !verdict.Raised?
        && (verdict.Report? ==>
              && verdict.checked <= |Reads(table, a)|
              && (verdict.valid <==> forall i :: 0 <= i < verdict.checked ==>
                    Faithful(Stream(table, a)[i])
                    || Collides(h, Stream(table, a)[i], ReadEvent(Stream(table, a)[i]))))
    {
      var events := GetEvents(a, 0, DEFAULT_LIMIT);
      verdict := CheckChain(h, events);
      if Good(h, table) && a != "" && old(a in cache.vals ==> cache.vals[a] <= Reads(table, a)) {
        PrefixVerdict(h, table, a, events, verdict);
      }
    }
  }
}
