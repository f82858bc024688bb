/**
 What an `EventStore`'s callers share, and the effect on it of each section of code that
 runs without interruption. The class `EventStore.EventStore` is proved against these
 functions, and the step machine of `EventStoreRuns` is built from them.
 */
module StoreEffects {
  import opened Options
  import opened Sequences
  import opened OrderedDicts
  import opened HashChain
  import opened EventTable

  const MAX_CACHE_ENTRIES: nat := 1024
  const MAX_SNAPSHOT_ENTRIES: nat := 256

  /** Everything the store's callers share. */
  datatype Shared = Shared(
    table: seq<Event>, cache: OrderedDict<seq<Event>>,
    snapshots: seq<Snapshot>, snapshotCache: OrderedDict<Object>)

  function Initial(): Shared {
    Shared([], Empty(), [], Empty())
  }

  ghost predicate CachesBounded(s: Shared) {
    && s.cache.Valid() && |s.cache.keys| <= MAX_CACHE_ENTRIES
    && s.snapshotCache.Valid() && |s.snapshotCache.keys| <= MAX_SNAPSHOT_ENTRIES
  }

  // ------------------------------------------------------ effects of the sections

  /** `_cache.pop` and `_snapshot_cache.pop`, for a truthy aggregate id. */
  function Invalidated(s: Shared, aggregate: Option<string>): Shared {
    if Truthy(aggregate) then
      s.(cache := s.cache.Pop(aggregate.value), snapshotCache := s.snapshotCache.Pop(aggregate.value))
    else s
  }

  function Inserted(s: Shared, e: Event): Shared {
    s.(table := s.table + [e])
  }

  function CachedEvents(s: Shared, a: string, rows: seq<Event>): Shared {
    s.(cache := s.cache.Put(a, rows, MAX_CACHE_ENTRIES))
  }

  function CachedSnapshot(s: Shared, a: string, state: Object): Shared {
    s.(snapshotCache := s.snapshotCache.Put(a, state, MAX_SNAPSHOT_ENTRIES))
  }

  /** The whole effect of an append that is not interrupted. */
  function Appended(h: Hasher<EventBody>, s: Shared, req: Request, id: string, now: string): Shared {
    var t := Tail(s.table, req.aggregate);
    Invalidated(Inserted(s, NewEvent(h, req, id, now, t.0, t.1)), req.aggregate)
  }

  /** `WHERE aggregate_id = a ORDER BY version DESC LIMIT 1`; of equal versions, one of them. */
  function NewestSnapshot(snapshots: seq<Snapshot>, a: string): Option<Snapshot> {
    if snapshots == [] then None
    else
      var last := snapshots[|snapshots| - 1];
      var best := NewestSnapshot(snapshots[..|snapshots| - 1], a);
      if last.aggregate == a && (best.None? || last.version >= best.value.version) then Some(last) else best
  }

  lemma {:induction false} NewestSnapshotIsNewest(snapshots: seq<Snapshot>, a: string)
    ensures var b := NewestSnapshot(snapshots, a);
      && (b.Some? ==> b.value in snapshots && b.value.aggregate == a)
      && (forall x :: x in snapshots && x.aggregate == a ==> b.Some? && x.version <= b.value.version)
  {
    if snapshots != [] {
      var n := |snapshots| - 1;
      NewestSnapshotIsNewest(snapshots[..n], a);
      assert snapshots == snapshots[..n] + [snapshots[n]];
    }
  }

  /** The list comprehension that keeps events from a sequence number on. */
  function FromSequence(events: seq<Event>, from: int): seq<Event> {
    if from > 0 then Filter((e: Event) => e.body.sequence >= from, events) else events
  }

  /** What `get_events` returns in a given state. */
  function EventsRead(s: Shared, a: string, from: int, limit: nat): seq<Event> {
    if a in s.cache.vals then Take(FromSequence(s.cache.vals[a], from), limit)
    else FromSequence(Take(Reads(s.table, a), limit), from)
  }

  /** What `get_snapshot` returns in a given state. */
  function SnapshotRead(s: Shared, a: string): Option<Object> {
    if a in s.snapshotCache.vals then Some(s.snapshotCache.vals[a])
    else
      var b := NewestSnapshot(s.snapshots, a);
      if b.Some? then Some(b.value.state) else None
  }

  /** The cache after `get_events`: the list is cached, or moved to the end. */
  function CacheAfterRead(cache: OrderedDict<seq<Event>>, table: seq<Event>, a: string, limit: nat):
    OrderedDict<seq<Event>> {
    if a in cache.vals then cache.MoveToEnd(a) else cache.Put(a, Take(Reads(table, a), limit), MAX_CACHE_ENTRIES)
  }

  /** The snapshot cache after `get_snapshot`. */
  function SnapshotCacheAfterRead(cache: OrderedDict<Object>, snapshots: seq<Snapshot>, a: string):
    OrderedDict<Object> {
    if a in cache.vals then cache.MoveToEnd(a)
    else
      var b := NewestSnapshot(snapshots, a);
      if b.Some? then cache.Put(a, b.value.state, MAX_SNAPSHOT_ENTRIES) else cache
  }

  /** In a list numbered 1..n, that is a suffix. */
  lemma {:induction false} FromSequenceIsSuffix(events: seq<Event>, from: int)
    requires forall i :: 0 <= i < |events| ==> events[i].body.sequence == i + 1
    ensures FromSequence(events, from) ==
            if from <= 1 then events else if from > |events| then [] else events[from - 1..]
  {
    if from > 0 {
      var p := (e: Event) => e.body.sequence >= from;
      if from == 1 {
        FilterAll(p, events);
      } else if from > |events| {
        FilterNone(p, events);
      } else {
        var lo, hi := events[..from - 1], events[from - 1..];
        assert lo + hi == events;
        FilterConcat(p, lo, hi);
        FilterNone(p, lo);
        forall x | x in hi ensures p(x) {
          var k :| 0 <= k < |hi| && hi[k] == x;
          assert hi[k] == events[from - 1 + k];
        }
        FilterAll(p, hi);
      }
    }
  }

  lemma CutOfSuffix(c: seq<Event>, from: int, limit: nat)
    requires forall i :: 0 <= i < |c| ==> c[i].body.sequence == i + 1
    ensures var lo := if from <= 1 then 0 else if from > |c| then |c| else from - 1;
      Take(FromSequence(c, from), limit) == c[lo..if lo + limit <= |c| then lo + limit else |c|]
  {
    var lo := if from <= 1 then 0 else if from > |c| then |c| else from - 1;
    FromSequenceIsSuffix(c, from);
    assert FromSequence(c, from) == c[lo..];
    assert lo + limit <= |c| ==> c[lo..][..limit] == c[lo..lo + limit];
  }

  lemma SuffixOfCut(r: seq<Event>, from: int, limit: nat)
    requires forall i :: 0 <= i < |r| ==> r[i].body.sequence == i + 1
    ensures var hi := if limit <= |r| then limit else |r|;
      FromSequence(Take(r, limit), from) == r[if from <= 1 then 0 else if from > hi then hi else from - 1..hi]
  {
    var hi := if limit <= |r| then limit else |r|;
    assert Take(r, limit) == r[..hi];
    FromSequenceIsSuffix(r[..hi], from);
    assert 1 < from <= hi ==> r[..hi][from - 1..] == r[from - 1..hi];
  }

  /** A hit cuts the cached list at the sequence number and then at the limit. */
  lemma HitSlice(s: Shared, a: string, from: int, limit: nat)
    requires a in s.cache.vals && forall i :: 0 <= i < |s.cache.vals[a]| ==> s.cache.vals[a][i].body.sequence == i + 1
    ensures var c := s.cache.vals[a];
      var lo := if from <= 1 then 0 else if from > |c| then |c| else from - 1;
      EventsRead(s, a, from, limit) == c[lo..if lo + limit <= |c| then lo + limit else |c|]
  {
    CutOfSuffix(s.cache.vals[a], from, limit);
  }

  /** A miss cuts the stream at the limit and then at the sequence number. */
  lemma MissSlice(s: Shared, a: string, from: int, limit: nat)
    requires a !in s.cache.vals
    requires forall i :: 0 <= i < |Reads(s.table, a)| ==> Reads(s.table, a)[i].body.sequence == i + 1
    ensures var r := Reads(s.table, a);
      var hi := if limit <= |r| then limit else |r|;
      EventsRead(s, a, from, limit) == r[if from <= 1 then 0 else if from > hi then hi else from - 1..hi]
  {
    SuffixOfCut(Reads(s.table, a), from, limit);
  }

  /** A cached snapshot, or else the state of a newest stored version, or none. */
  lemma SnapshotReadFacts(s: Shared, a: string)
    ensures a in s.snapshotCache.vals ==> SnapshotRead(s, a) == Some(s.snapshotCache.vals[a])
    ensures a !in s.snapshotCache.vals && SnapshotRead(s, a).None? ==> forall x :: x in s.snapshots ==> x.aggregate != a
    ensures a !in s.snapshotCache.vals && SnapshotRead(s, a).Some? ==>
      exists x :: x in s.snapshots && x.aggregate == a && x.state == SnapshotRead(s, a).value
                  && forall y :: y in s.snapshots && y.aggregate == a ==> y.version <= x.version
  {
    NewestSnapshotIsNewest(s.snapshots, a);
  }

  /**
   `create_snapshot` caches its state whatever its version. The next `get_snapshot` therefore
   returns what the table would exactly when no newer version with another state was stored.
   */
  lemma SnapshotCacheAgreesIff(s: Shared, a: string, state: Object, version: int)
    requires CachesBounded(s)
    ensures var stored := s.(snapshots := s.snapshots + [Snapshot(a, state, version)]);
      var after := CachedSnapshot(stored, a, state);
      var best := NewestSnapshot(s.snapshots, a);
      && SnapshotRead(after, a) == Some(state)
      && (SnapshotRead(after, a) == SnapshotRead(after.(snapshotCache := Empty()), a)
          <==> best.None? || best.value.version <= version || best.value.state == state)
  {
    PutFacts(s.snapshotCache, a, state, MAX_SNAPSHOT_ENTRIES);
    var all := s.snapshots + [Snapshot(a, state, version)];
    assert all[..|all| - 1] == s.snapshots;
  }
}
