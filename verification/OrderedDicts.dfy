/**
 Python's `collections.OrderedDict` with string keys, as the caches of the event
 store, the rate-limit buckets and the grouping passes use it.
 */
module OrderedDicts {

  ghost predicate NoDuplicates(s: seq<string>) {
    forall i, j :: 0 <= i < j < |s| ==> s[i] != s[j]
  }

  /** `s` with every occurrence of `k` taken out. */
  function Without(s: seq<string>, k: string): seq<string> {
    if s == [] then []
    else if s[0] == k then Without(s[1..], k)
    else [s[0]] + Without(s[1..], k)
  }

  lemma {:induction false} WithoutMembers(s: seq<string>, k: string)
    ensures forall x :: x in Without(s, k) <==> x in s && x != k
    ensures NoDuplicates(s) ==> NoDuplicates(Without(s, k))
    ensures |Without(s, k)| <= |s|
    ensures k !in s ==> Without(s, k) == s
    ensures k in s ==> |Without(s, k)| < |s|
    ensures NoDuplicates(s) && k in s ==> |Without(s, k)| == |s| - 1
  {
    if s != [] {
      WithoutMembers(s[1..], k);
      assert s == [s[0]] + s[1..];
      if NoDuplicates(s) {
        assert s[0] !in s[1..];
        assert NoDuplicates(s[1..]);
      }
    }
  }

  /** Keys oldest first, and the value of each key. */
  datatype OrderedDict<V> = OrderedDict(keys: seq<string>, vals: map<string, V>)
  {
    ghost predicate Valid() {
      NoDuplicates(keys) && (forall k :: k in keys <==> k in vals)
    }

    /** `d.pop(k, None)` */
    function Pop(k: string): OrderedDict<V> {
      OrderedDict(Without(keys, k), vals - {k})
    }

    /** `d[k] = v`: an existing key keeps its place. */
    function Set(k: string, v: V): OrderedDict<V> {
      OrderedDict(if k in vals then keys else keys + [k], vals[k := v])
    }

    /** `d.move_to_end(k)` */
    function MoveToEnd(k: string): OrderedDict<V> {
      OrderedDict(Without(keys, k) + [k], vals)
    }

    /** `d.popitem(last=False)` */
    function PopOldest(): OrderedDict<V>
      requires keys != []
    {
      OrderedDict(keys[1..], vals - {keys[0]})
    }

    /** `while len(d) > max: d.popitem(last=False)` */
    function Evict(max: nat): OrderedDict<V>
      decreases |keys|
    {
      if |keys| <= max then this else PopOldest().Evict(max)
    }

    /** Set, move to the end, and evict down to `max` entries. */
    function Put(k: string, v: V, max: nat): OrderedDict<V> {
      Set(k, v).MoveToEnd(k).Evict(max)
    }
  }

  /** The eviction loop. */
  method PopDownTo<V>(d: OrderedDict<V>, max: nat) returns (e: OrderedDict<V>)
    ensures e == d.Evict(max)
  {
    e := d;
    while |e.keys| > max
      invariant e.Evict(max) == d.Evict(max)
      decreases |e.keys|
    {
      e := e.PopOldest();
    }
  }

  function Empty<V>(): OrderedDict<V> {
    OrderedDict([], map[])
  }

  lemma PopFacts<V>(d: OrderedDict<V>, k: string)
    requires d.Valid()
    ensures d.Pop(k).Valid()
    ensures d.Pop(k).vals == map x | x in d.vals && x != k :: d.vals[x]
    ensures |d.Pop(k).keys| <= |d.keys|
  {
    WithoutMembers(d.keys, k);
  }

  lemma SetFacts<V>(d: OrderedDict<V>, k: string, v: V)
    requires d.Valid()
    ensures d.Set(k, v).Valid()
    ensures |d.Set(k, v).keys| == if k in d.vals then |d.keys| else |d.keys| + 1
  {
  }

  lemma MoveFacts<V>(d: OrderedDict<V>, k: string)
    requires d.Valid() && k in d.vals
    ensures d.MoveToEnd(k).Valid()
    ensures |d.MoveToEnd(k).keys| == |d.keys|
  {
    WithoutMembers(d.keys, k);
  }

  lemma PopOldestFacts<V>(d: OrderedDict<V>)
    requires d.Valid() && d.keys != []
    ensures d.PopOldest().Valid()
    ensures forall k :: k in d.PopOldest().vals ==> k in d.vals && d.PopOldest().vals[k] == d.vals[k]
  {
    var e := d.PopOldest();
    assert d.keys == [d.keys[0]] + e.keys;
  }

  /** Eviction keeps exactly the newest `max` keys. */
  lemma {:induction false} EvictKeys<V>(d: OrderedDict<V>, max: nat)
    ensures d.Evict(max).keys == if |d.keys| <= max then d.keys else d.keys[|d.keys| - max..]
    decreases |d.keys|
  {
    if |d.keys| > max {
      EvictKeys(d.PopOldest(), max);
      assert d.keys[1..][|d.keys| - 1 - max..] == d.keys[|d.keys| - max..];
    }
  }

  /** The keys that are kept keep their values. */
  lemma {:induction false} EvictVals<V>(d: OrderedDict<V>, max: nat)
    requires d.Valid()
    ensures d.Evict(max).Valid()
    ensures forall k :: k in d.Evict(max).vals ==> k in d.vals && d.Evict(max).vals[k] == d.vals[k]
    decreases |d.keys|
  {
    if |d.keys| > max {
      PopOldestFacts(d);
      EvictVals(d.PopOldest(), max);
    }
  }

  /** `Set` and `MoveToEnd`: the key comes last with its new value, and nothing else changes. */
  lemma RenewFacts<V>(d: OrderedDict<V>, k: string, v: V)
    requires d.Valid()
    ensures var m := d.Set(k, v).MoveToEnd(k);
      && m.Valid() && m.keys != [] && m.keys[|m.keys| - 1] == k
      && m.vals == d.vals[k := v]
      && |m.keys| == if k in d.vals then |d.keys| else |d.keys| + 1
  {
    SetFacts(d, k, v);
    MoveFacts(d.Set(k, v), k);
  }

  lemma LastOfSuffix(keys: seq<string>, max: nat)
    requires keys != [] && 0 < max
    ensures var kept := if |keys| <= max then keys else keys[|keys| - max..];
      0 < |kept| <= max && kept[|kept| - 1] == keys[|keys| - 1] && keys[|keys| - 1] in kept
  {
  }

  /** The newest key is never evicted. */
  lemma EvictNewest<V>(d: OrderedDict<V>, max: nat)
    requires d.Valid() && d.keys != [] && 0 < max
    ensures var e, k := d.Evict(max), d.keys[|d.keys| - 1];
      0 < |e.keys| <= max && e.keys[|e.keys| - 1] == k && k in e.vals
  {
    EvictKeys(d, max);
    LastOfSuffix(d.keys, max);
    EvictVals(d, max);
  }

  /** A bounded `Put` leaves the newest keys, the renewed one last and the others in their order. */
  lemma PutKeys<V>(d: OrderedDict<V>, k: string, v: V, max: nat)
    requires d.Valid()
    ensures var all := Without(d.keys, k) + [k];
      d.Put(k, v, max).keys == if |all| <= max then all else all[|all| - max..]
  {
    RenewedKeys(d, k, v);
    EvictKeys(d.Set(k, v).MoveToEnd(k), max);
  }

  lemma RenewedKeys<V>(d: OrderedDict<V>, k: string, v: V)
    ensures d.Set(k, v).MoveToEnd(k).keys == Without(d.keys, k) + [k]
  {
    WithoutSet(d.keys, k);
  }

  /** Appending a key and taking it out again. */
  lemma {:induction false} WithoutSet(keys: seq<string>, k: string)
    ensures Without(keys + [k], k) == Without(keys, k)
  {
    if keys == [] {
      assert [] + [k] == [k];
    } else {
      assert (keys + [k])[1..] == keys[1..] + [k];
      WithoutSet(keys[1..], k);
    }
  }

  /** Keys stand in ascending order of some rank. */
  ghost predicate InOrder(keys: seq<string>, rank: string -> int) {
    forall i, j :: 0 <= i < j < |keys| ==> rank(keys[i]) < rank(keys[j])
  }

  /** Taking a key out keeps the others in their order. */
  lemma {:induction false} WithoutKeepsOrder(keys: seq<string>, k: string, rank: string -> int)
    requires InOrder(keys, rank)
    ensures InOrder(Without(keys, k), rank)
  {
    if keys != [] {
      var tail := keys[1..];
      assert forall i :: 0 <= i < |tail| ==> tail[i] == keys[i + 1];
      WithoutKeepsOrder(tail, k, rank);
      WithoutMembers(tail, k);
      forall x | x in Without(tail, k) ensures rank(keys[0]) < rank(x) {
        assert x in tail;
      }
      FirstKeepsOrder(keys[0], Without(tail, k), rank);
    }
  }

  lemma FirstKeepsOrder(first: string, rest: seq<string>, rank: string -> int)
    requires InOrder(rest, rank) && forall x :: x in rest ==> rank(first) < rank(x)
    ensures InOrder([first] + rest, rank)
  {
    var all := [first] + rest;
    forall i, j | 0 <= i < j < |all| ensures rank(all[i]) < rank(all[j]) {
      assert all[j] == rest[j - 1] && rest[j - 1] in rest;
      assert i > 0 ==> all[i] == rest[i - 1];
    }
  }

  /** What a bounded `Put` leaves: the new entry at the end, nothing invented, at most `max` keys. */
  lemma PutFacts<V>(d: OrderedDict<V>, k: string, v: V, max: nat)
    requires d.Valid() && 0 < max
    ensures var e := d.Put(k, v, max);
      && e.Valid()
      && 0 < |e.keys| <= max
      && e.keys[|e.keys| - 1] == k
      && k in e.vals && e.vals[k] == v
      && (forall x :: x in e.vals && x != k ==> x in d.vals && e.vals[x] == d.vals[x])
      && (|d.keys| + (if k in d.vals then 0 else 1) <= max ==> e.vals == d.vals[k := v])
  {
    RenewFacts(d, k, v);
    var m := d.Set(k, v).MoveToEnd(k);
    EvictNewest(m, max);
    EvictVals(m, max);
  }

  /**
   `after` is `before` with `k` renewed: `k` comes last with its new value, the newest of the other
   keys come before it in their order with theirs, and there are `max` keys if there were as many.
   */
  ghost predicate Renewed<V>(before: OrderedDict<V>, after: OrderedDict<V>, k: string, v: V, max: nat) {
    var all := Without(before.keys, k) + [k];
    && after.keys == (if |all| <= max then all else all[|all| - max..])
    && k in after.vals && after.vals[k] == v
    && (forall x :: x in after.vals <==> x in after.keys)
    && (forall x :: x in after.vals && x != k ==> x in before.vals && after.vals[x] == before.vals[x])
  }

  lemma PutRenews<V>(d: OrderedDict<V>, k: string, v: V, max: nat)
    requires d.Valid() && 0 < max
    ensures var e := d.Put(k, v, max);
      e.Valid() && |e.keys| <= max && Renewed(d, e, k, v, max)
  {
    PutFacts(d, k, v, max);
    PutKeys(d, k, v, max);
  }
}
