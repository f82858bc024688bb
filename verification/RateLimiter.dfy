/**
 The per-key sliding-window rate limiter of the HTTP middleware. Each request runs two
 uninterrupted sections: a sweep of the bucket table on arrival, and, once its key has been
 validated, the decision. `RateLimiterRuns` is about runs of any such sections.
 */
module RateLimiter {
  import opened Options
  import opened Sequences
  import opened OrderedDicts

  const WINDOW_SECONDS: real := 60.0
  const MAX_KEYS: nat := 5000
  const DEFAULT_LIMIT: int := 30

  datatype Stamp = Stamp(role: string, at: real)

  type Buckets = OrderedDict<seq<Stamp>>

  /** `key_data["rate_limit_per_min"] or 30` */
  function EffectiveLimit(configured: Option<int>): int {
    if configured.None? || configured.value == 0 then DEFAULT_LIMIT else configured.value
  }

  predicate IsStale(bucket: seq<Stamp>, now: real) {
    bucket == [] || now - bucket[|bucket| - 1].at >= WINDOW_SECONDS
  }

  function LiveAt(now: real): Stamp -> bool {
    (s: Stamp) => now - s.at < WINDOW_SECONDS
  }

  function StaleIn(d: Buckets, now: real): string -> bool {
    (k: string) => k in d.vals && IsStale(d.vals[k], now)
  }

  function PopAll(d: Buckets, keys: seq<string>): Buckets {
    if keys == [] then d else PopAll(d, keys[..|keys| - 1]).Pop(keys[|keys| - 1])
  }

  /** The table without its stale keys. */
  function Swept(d: Buckets, now: real): Buckets {
    PopAll(d, Filter(StaleIn(d, now), d.keys))
  }

  /** `_prune_rate_buckets` */
  function Pruned(d: Buckets, now: real): Buckets {
    Swept(d, now).Evict(MAX_KEYS)
  }

  function Opened(d: Buckets, key: string): Buckets {
    if key in d.vals then d.MoveToEnd(key) else d.Set(key, [])
  }

  function BucketOf(d: Buckets, key: string): seq<Stamp> {
    if key in d.vals then d.vals[key] else []
  }

  /** The admissions of this key that are still inside the window. */
  function Recent(d: Buckets, key: string, now: real): seq<Stamp> {
    Filter(LiveAt(now), BucketOf(d, key))
  }

  predicate Admits(d: Buckets, key: string, limit: int, now: real) {
    |Recent(d, key, now)| < limit
  }

  /** The table after the decision section. */
  function Decided(d: Buckets, key: string, limit: int, role: string, now: real): Buckets {
    var recent := Recent(d, key, now);
    if Admits(d, key, limit, now) then Pruned(Opened(d, key).Set(key, recent + [Stamp(role, now)]), now)
    else Opened(d, key).Set(key, recent)
  }

  // ------------------------------------------------------------------ facts

  lemma {:induction false} PopAllFacts(d: Buckets, keys: seq<string>)
    requires d.Valid()
    ensures PopAll(d, keys).Valid()
    ensures PopAll(d, keys).vals == map k | k in d.vals && k !in keys :: d.vals[k]
  {
    if keys != [] {
      var init, k := keys[..|keys| - 1], keys[|keys| - 1];
      PopAllFacts(d, init);
      PopFacts(PopAll(d, init), k);
      assert keys == init + [k];
    }
  }

  /** Sweeping removes exactly the stale keys. */
  lemma SweptFacts(d: Buckets, now: real)
    requires d.Valid()
    ensures Swept(d, now).Valid()
    ensures Swept(d, now).vals == map k | k in d.vals && !IsStale(d.vals[k], now) :: d.vals[k]
  {
    FilterMembers(StaleIn(d, now), d.keys);
    PopAllFacts(d, Filter(StaleIn(d, now), d.keys));
  }

  /** Pruning keeps only fresh buckets, at most 5000, and all of them if they are that few. */
  lemma PrunedFacts(d: Buckets, now: real)
    requires d.Valid()
    ensures Pruned(d, now).Valid() && |Pruned(d, now).keys| <= MAX_KEYS
    ensures forall k :: k in Pruned(d, now).vals ==>
      k in d.vals && Pruned(d, now).vals[k] == d.vals[k] && !IsStale(d.vals[k], now)
    ensures |Swept(d, now).keys| <= MAX_KEYS ==>
      forall k :: k in d.vals && !IsStale(d.vals[k], now) ==> k in Pruned(d, now).vals
  {
    SweptFacts(d, now);
    EvictKeys(Swept(d, now), MAX_KEYS);
    EvictVals(Swept(d, now), MAX_KEYS);
  }

  lemma OpenedFacts(d: Buckets, key: string, bucket: seq<Stamp>)
    requires d.Valid()
    ensures Opened(d, key).Set(key, bucket).Valid()
    ensures Opened(d, key).Set(key, bucket).vals == d.vals[key := bucket]
    ensures |Opened(d, key).Set(key, bucket).keys| <= |d.keys| + 1
  {
    if key in d.vals {
      MoveFacts(d, key);
    } else {
      SetFacts(d, key, []);
    }
    SetFacts(Opened(d, key), key, bucket);
  }

  /** Setting a key twice is setting it once. */
  lemma SetTwice(d: Buckets, key: string, a: seq<Stamp>, b: seq<Stamp>)
    ensures d.Set(key, a).Set(key, b) == d.Set(key, b)
  {
  }

  /** The list comprehension that finds the stale keys. */
  method FindStaleKeys(d: Buckets, now: real) returns (staleKeys: seq<string>)
    requires d.Valid()
    ensures staleKeys == Filter(StaleIn(d, now), d.keys)
    ensures forall k :: k in staleKeys <==> k in d.vals && IsStale(d.vals[k], now)
  {
    staleKeys := [];
    for i := 0 to |d.keys|
      invariant staleKeys == Filter(StaleIn(d, now), d.keys[..i])
    {
      var k := d.keys[i];
      assert d.keys[..i + 1] == d.keys[..i] + [k];
      FilterSnoc(StaleIn(d, now), d.keys[..i], k);
      assert k in d.keys;
      if IsStale(d.vals[k], now) {
        staleKeys := staleKeys + [k];
      }
    }
    assert d.keys[..|d.keys|] == d.keys;
    FilterMembers(StaleIn(d, now), d.keys);
  }

  /** A bucket with a stamp less than `window` seconds old, if its newest is. */
  predicate Live(bucket: seq<Stamp>, now: real, window: real) {
    bucket != [] && now - bucket[|bucket| - 1].at < window
  }

  lemma SweptFewer(d: Buckets, now: real)
    requires d.Valid()
    ensures |Swept(d, now).keys| <= |d.keys|
  {
    PopAllFewer(d, Filter(StaleIn(d, now), d.keys));
  }

  lemma {:induction false} PopAllFewer(d: Buckets, keys: seq<string>)
    ensures |PopAll(d, keys).keys| <= |d.keys|
  {
    if keys != [] {
      PopAllFewer(d, keys[..|keys| - 1]);
      WithoutMembers(PopAll(d, keys[..|keys| - 1]).keys, keys[|keys| - 1]);
    }
  }

  /** The count that the decision is based on. */
  lemma RecentCount(d: Buckets, key: string, now: real)
    ensures var bucket := if key in d.vals then d.vals[key] else [];
      |Recent(d, key, now)| == |set i | 0 <= i < |bucket| && now - bucket[i].at < 60.0|
  {
    var bucket := BucketOf(d, key);
    FilterCount(LiveAt(now), bucket);
    assert Selected(LiveAt(now), bucket) == set i | 0 <= i < |bucket| && now - bucket[i].at < 60.0;
  }

  class Limiter {
    var buckets: Buckets

    constructor ()
      ensures buckets == Empty()
    {
      buckets := Empty();
    }

    /** Drop stale keys, then the oldest keys beyond the cap. */
    method Prune(now: real)
      requires buckets.Valid()
      modifies this
      ensures buckets.Valid() && buckets == Pruned(old(buckets), now)
      ensures |buckets.keys| <= 5000
      ensures forall k :: k in buckets.vals ==> k in old(buckets.vals) && buckets.vals[k] == old(buckets.vals[k])
      ensures forall k :: k in buckets.vals ==> Live(buckets.vals[k], now, 60.0)
      ensures |old(buckets.keys)| <= 5000 ==>
        forall k :: k in old(buckets.vals) && Live(old(buckets.vals[k]), now, 60.0) ==> k in buckets.vals
    {
      ghost var d := buckets;
      PrunedFacts(d, now);
      SweptFewer(d, now);
      DropStale(now);
      while |buckets.keys| > MAX_KEYS
        invariant buckets.Evict(MAX_KEYS) == Pruned(d, now)
        decreases |buckets.keys|
      {
        buckets := buckets.PopOldest();
      }
    }

    /** The first half of the sweep: pop every stale key. */
    method DropStale(now: real)
      requires buckets.Valid()
      modifies this
      ensures buckets == Swept(old(buckets), now)
    {
      ghost var d := buckets;
      var staleKeys := FindStaleKeys(buckets, now);
      for i := 0 to |staleKeys|
        invariant buckets == PopAll(d, staleKeys[..i])
      {
        assert staleKeys[..i + 1][..i] == staleKeys[..i];
        buckets := buckets.Pop(staleKeys[i]);
      }
      assert staleKeys[..|staleKeys|] == staleKeys;
    }

    /** The bucket section of the middleware, for a validated key. */
    method Decide(key: string, configured: Option<int>, role: string, now: real) returns (admitted: bool)
      requires buckets.Valid()
      modifies this
      ensures buckets.Valid()
      ensures var bucket := if key in old(buckets.vals) then old(buckets.vals[key]) else [];
        var limit := if configured in {None, Some(0)} then 30 else configured.value;
        admitted <==> |set i | 0 <= i < |bucket| && now - bucket[i].at < 60.0| < limit
      ensures buckets == Decided(old(buckets), key, EffectiveLimit(configured), role, now)
      ensures admitted ==> |buckets.keys| <= MAX_KEYS
      ensures !admitted ==> |buckets.keys| <= |old(buckets).keys| + 1
    {
      RecentCount(buckets, key, now);
      var rateLimit := EffectiveLimit(configured);
      ghost var d, recent := buckets, Recent(buckets, key, now);
      OpenedFacts(d, key, recent);
      OpenedFacts(d, key, recent + [Stamp(role, now)]);
      SetTwice(Opened(d, key), key, recent, recent + [Stamp(role, now)]);
      if key !in buckets.vals {
        buckets := buckets.Set(key, []);
      } else {
        buckets := buckets.MoveToEnd(key);
      }
      assert buckets == Opened(d, key);
      var bucket := Filter(LiveAt(now), buckets.vals[key]);
      buckets := buckets.Set(key, bucket);
      if |bucket| >= rateLimit {
        return false;
      }
      buckets := buckets.Set(key, bucket + [Stamp(role, now)]);
      Prune(now);
      return true;
    }
  }
}
