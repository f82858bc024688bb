/**
 Which key the cap evicts. In every run the keys stand in the order in which they were last asked
 for, whatever the answers were; so a live key that is evicted was last asked for before every
 key that is kept.
 */
module RateLimiterOrder {
  import opened Sequences
  import opened OrderedDicts
  import opened RateLimiter
  import opened RateLimiterRuns

  /** The position of the last request of a key in the run, or -1. */
  function LastAsk(events: seq<Event>, key: string): int {
    if events == [] then -1
    else
      var e := events[|events| - 1];
      if e.Ask? && e.key == key then |events| - 1 else LastAsk(events[..|events| - 1], key)
  }

  /** It is the position of a request of that key, and there is none after it. */
  lemma {:induction false} LastAskIsLast(events: seq<Event>, key: string)
    ensures var n := LastAsk(events, key);
      && -1 <= n < |events|
      && (n >= 0 ==> events[n].Ask? && events[n].key == key)
      && (forall i :: n < i < |events| ==> !(events[i].Ask? && events[i].key == key))
  {
    if events != [] {
      LastAskIsLast(events[..|events| - 1], key);
    }
  }

  function AskedAt(events: seq<Event>): string -> int {
    (k: string) => LastAsk(events, k)
  }

  // ---------------------------------------------------------------- the sweep

  lemma {:induction false} PopAllKeepsOrder(d: Buckets, keys: seq<string>, rank: string -> int)
    requires InOrder(d.keys, rank)
    ensures InOrder(PopAll(d, keys).keys, rank)
  {
    if keys != [] {
      var init, k := keys[..|keys| - 1], keys[|keys| - 1];
      PopAllKeepsOrder(d, init, rank);
      WithoutKeepsOrder(PopAll(d, init).keys, k, rank);
    }
  }

  lemma PrunedKeepsOrder(d: Buckets, now: real, rank: string -> int)
    requires InOrder(d.keys, rank)
    ensures InOrder(Swept(d, now).keys, rank) && InOrder(Pruned(d, now).keys, rank)
  {
    PopAllKeepsOrder(d, Filter(StaleIn(d, now), d.keys), rank);
    EvictKeys(Swept(d, now), MAX_KEYS);
    SuffixKeepsOrder(Swept(d, now).keys, |Swept(d, now).keys| - |Pruned(d, now).keys|, rank);
  }

  lemma SuffixKeepsOrder(keys: seq<string>, n: nat, rank: string -> int)
    requires InOrder(keys, rank) && n <= |keys|
    ensures InOrder(keys[n..], rank)
  {
  }

  /** The cap takes keys from the front: what it takes ranks below what it leaves. */
  lemma CapTakesTheFirst(keys: seq<string>, max: nat, rank: string -> int, k: string, k': string)
    requires InOrder(keys, rank) && |keys| > max
    requires k in keys && k !in keys[|keys| - max..] && k' in keys[|keys| - max..]
    ensures rank(k) < rank(k')
  {
    var n := |keys| - max;
    var i :| 0 <= i < |keys| && keys[i] == k;
    var j :| 0 <= j < max && keys[n..][j] == k';
    assert forall m :: n <= m < |keys| ==> keys[m] in keys[n..] by {
      assert forall m :: n <= m < |keys| ==> keys[n..][m - n] == keys[m];
    }
    assert keys[n + j] == k';
  }

  /** A fresh key that pruning evicts ranks below every key it keeps. */
  lemma PrunedTakesTheFirst(d: Buckets, now: real, rank: string -> int, k: string, k': string)
    requires d.Valid() && InOrder(d.keys, rank)
    requires k in d.vals && !IsStale(d.vals[k], now) && k !in Pruned(d, now).vals && k' in Pruned(d, now).vals
    ensures rank(k) < rank(k')
  {
    var s := Swept(d, now);
    SweptFacts(d, now);
    PrunedFacts(d, now);
    PrunedKeepsOrder(d, now, rank);
    EvictKeys(s, MAX_KEYS);
    assert k in s.vals && k in s.keys;
    assert k !in Pruned(d, now).keys && k' in Pruned(d, now).keys;
    CapTakesTheFirst(s.keys, MAX_KEYS, rank, k, k');
  }

  // -------------------------------------------------------------- the decision

  /** The table between trimming and pruning: the asked key last, the others as they were. */
  lemma OpenedOrder(d: Buckets, key: string, bucket: seq<Stamp>)
    requires d.Valid()
    ensures Opened(d, key).Set(key, bucket).keys == Without(d.keys, key) + [key]
  {
    WithoutMembers(d.keys, key);
  }

  /** A request moves its key behind all others. */
  lemma AskKeepsOrder(keys: seq<string>, key: string, events: seq<Event>, e: Event)
    requires InOrder(keys, AskedAt(events)) && e.Ask? && e.key == key
    ensures InOrder(Without(keys, key) + [key], AskedAt(events + [e]))
  {
    var r, all := Without(keys, key), events + [e];
    WithoutKeepsOrder(keys, key, AskedAt(events));
    WithoutMembers(keys, key);
    assert all[..|events|] == events;
    forall k ensures LastAsk(events, k) < |events| {
      LastAskIsLast(events, k);
    }
    forall k | k in r ensures AskedAt(all)(k) == AskedAt(events)(k) {
      assert k != key;
    }
    assert AskedAt(all)(key) == |events|;
    forall i, j | 0 <= i < j < |r| ensures AskedAt(all)(r[i]) < AskedAt(all)(r[j]) {
      assert r[i] in r && r[j] in r;
    }
    forall i | 0 <= i < |r| ensures AskedAt(all)(r[i]) < |events| {
      assert r[i] in r;
    }
  }

  lemma SweepKeepsOrder(keys: seq<string>, events: seq<Event>, e: Event)
    requires InOrder(keys, AskedAt(events)) && e.Sweep?
    ensures InOrder(keys, AskedAt(events + [e]))
  {
    assert (events + [e])[..|events|] == events;
    forall k ensures AskedAt(events + [e])(k) == AskedAt(events)(k) {
    }
  }

  /** The table before the event's sweep of stale keys and its cap. */
  function Before(d: Buckets, e: Event): Buckets {
    match e
    case Sweep(_) => d
    case Ask(key, limit, role, now) =>
      var recent := Recent(d, key, now);
      Opened(d, key).Set(key, if Admits(d, key, limit, now) then recent + [Stamp(role, now)] else recent)
  }

  /** Whether the event ends with a sweep. */
  predicate Prunes(d: Buckets, e: Event) {
    e.Sweep? || Admits(d, e.key, e.limit, e.now)
  }

  lemma NextIsPruned(s: System, e: Event)
    ensures Next(s, e).buckets ==
            if Prunes(s.buckets, e) then Pruned(Before(s.buckets, e), e.now) else Before(s.buckets, e)
  {
  }

  lemma BeforeKeepsOrder(d: Buckets, events: seq<Event>, e: Event)
    requires d.Valid() && InOrder(d.keys, AskedAt(events))
    ensures Before(d, e).Valid() && InOrder(Before(d, e).keys, AskedAt(events + [e]))
  {
    if e.Ask? {
      var recent := Recent(d, e.key, e.now);
      var bucket := if Admits(d, e.key, e.limit, e.now) then recent + [Stamp(e.role, e.now)] else recent;
      OpenedOrder(d, e.key, bucket);
      OpenedFacts(d, e.key, bucket);
      AskKeepsOrder(d.keys, e.key, events, e);
    } else {
      SweepKeepsOrder(d.keys, events, e);
    }
  }

  // ------------------------------------------------------------------ whole runs

  /** In every run the keys stand in the order in which they were last asked for. */
  lemma {:induction false} KeysInOrderOfRequest(events: seq<Event>)
    ensures Run(events).buckets.Valid() && InOrder(Run(events).buckets.keys, AskedAt(events))
  {
    if events != [] {
      var init, e := events[..|events| - 1], events[|events| - 1];
      KeysInOrderOfRequest(init);
      StepKeepsOrder(Run(init), init, e);
      assert init + [e] == events;
    }
  }

  lemma StepKeepsOrder(s: System, events: seq<Event>, e: Event)
    requires s.buckets.Valid() && InOrder(s.buckets.keys, AskedAt(events))
    ensures Next(s, e).buckets.Valid() && InOrder(Next(s, e).buckets.keys, AskedAt(events + [e]))
  {
    var b := Before(s.buckets, e);
    BeforeKeepsOrder(s.buckets, events, e);
    PrunedKeepsOrder(b, e.now, AskedAt(events + [e]));
    PrunedFacts(b, e.now);
    NextIsPruned(s, e);
  }

  /**
   In every run, a key other than the asked one whose bucket is fresh and which the cap evicts was
   last asked for before every key that is kept; and the asked key is always kept.
   */
  lemma CapEvictsLeastRecentlyAsked(events: seq<Event>, e: Event, k: string, k': string)
    requires k in Run(events).buckets.vals && !IsStale(Run(events).buckets.vals[k], e.now)
    requires e.Ask? ==> k != e.key
    requires k !in Run(events + [e]).buckets.vals && k' in Run(events + [e]).buckets.vals
    ensures LastAsk(events + [e], k) < LastAsk(events + [e], k')
  {
    var d, all := Run(events).buckets, events + [e];
    assert all[..|events|] == events;
    KeysInOrderOfRequest(events);
    assert InOrder(d.keys, AskedAt(events));
    BeforeKeepsOrder(d, events, e);
    BeforeKeepsOthers(d, e, k);
    NextIsPruned(Run(events), e);
    PrunedTakesTheFirst(Before(d, e), e.now, AskedAt(all), k, k');
  }

  lemma BeforeKeepsOthers(d: Buckets, e: Event, k: string)
    requires d.Valid() && k in d.vals && (e.Ask? ==> k != e.key)
    ensures k in Before(d, e).vals && Before(d, e).vals[k] == d.vals[k]
  {
    if e.Ask? {
      var recent := Recent(d, e.key, e.now);
      OpenedFacts(d, e.key, if Admits(d, e.key, e.limit, e.now) then recent + [Stamp(e.role, e.now)] else recent);
    }
  }

  /** The key that is asked for is never evicted by its own request. */
  lemma AskedKeyIsKept(events: seq<Event>, e: Event)
    requires e.Ask?
    ensures e.key in Run(events + [e]).buckets.vals
  {
    assert (events + [e])[..|events|] == events;
    KeysInOrderOfRequest(events);
    NextKeepsAsked(Run(events), e);
  }

  lemma NextKeepsAsked(s: System, e: Event)
    requires e.Ask? && s.buckets.Valid()
    ensures e.key in Next(s, e).buckets.vals
  {
    NextIsPruned(s, e);
    AskedComesLast(s.buckets, e);
    if Prunes(s.buckets, e) {
      NewestSurvives(Before(s.buckets, e), e.now);
    }
  }

  lemma AskedComesLast(d: Buckets, e: Event)
    requires e.Ask? && d.Valid()
    ensures var b := Before(d, e);
      && b.Valid() && b.keys != [] && b.keys[|b.keys| - 1] == e.key && e.key in b.vals
      && (Prunes(d, e) ==> !IsStale(b.vals[e.key], e.now))
  {
    var recent := Recent(d, e.key, e.now);
    var bucket := if Admits(d, e.key, e.limit, e.now) then recent + [Stamp(e.role, e.now)] else recent;
    OpenedFacts(d, e.key, bucket);
    OpenedOrder(d, e.key, bucket);
  }

  lemma NewestSurvives(d: Buckets, now: real)
    requires d.Valid() && d.keys != [] && !IsStale(d.vals[d.keys[|d.keys| - 1]], now)
    ensures d.keys[|d.keys| - 1] in Pruned(d, now).vals
  {
    var k, s := d.keys[|d.keys| - 1], Swept(d, now);
    assert k in d.keys;
    SweptFacts(d, now);
    PlaceInOrder(d.keys);
    PrunedKeepsOrder(d, now, Place(d.keys));
    assert k in s.vals && k in s.keys;
    LastStaysLast(d.keys, s.keys, k);
    EvictNewest(s, MAX_KEYS);
  }

  /** Where a key stands. */
  function Place(keys: seq<string>): string -> int {
    (k: string) => PlaceOf(keys, k)
  }

  function PlaceOf(keys: seq<string>, k: string): int {
    if keys == [] then -1 else if keys[|keys| - 1] == k then |keys| - 1 else PlaceOf(keys[..|keys| - 1], k)
  }

  lemma {:induction false} PlaceFacts(keys: seq<string>, i: nat)
    requires NoDuplicates(keys) && i < |keys|
    ensures PlaceOf(keys, keys[i]) == i
  {
    if i < |keys| - 1 {
      PlaceFacts(keys[..|keys| - 1], i);
    }
  }

  lemma PlaceInOrder(keys: seq<string>)
    requires NoDuplicates(keys)
    ensures InOrder(keys, Place(keys))
  {
    forall i | 0 <= i < |keys| ensures PlaceOf(keys, keys[i]) == i {
      PlaceFacts(keys, i);
    }
  }

  lemma LastStaysLast(keys: seq<string>, kept: seq<string>, k: string)
    requires NoDuplicates(keys) && keys != [] && k == keys[|keys| - 1]
    requires InOrder(kept, Place(keys)) && k in kept && forall x :: x in kept ==> x in keys
    ensures kept[|kept| - 1] == k
  {
    var x := kept[|kept| - 1];
    assert forall m :: 0 <= m < |kept| - 1 ==> Place(keys)(kept[m]) < Place(keys)(x);
    var i :| 0 <= i < |kept| && kept[i] == k;
    assert x in kept;
    var j :| 0 <= j < |keys| && keys[j] == x;
    PlaceFacts(keys, j);
    PlaceFacts(keys, |keys| - 1);
  }
}
