/**
 Bursts: requests of distinct keys that all arrive inside one window. One key more than the cap
 evicts the first key while its admission is still live, and its next request is let through
 although the full history is at the limit.
 */
module RateLimiterBursts {
  import opened Sequences
  import opened OrderedDicts
  import opened RateLimiter
  import opened RateLimiterRuns

  /** Requests of distinct keys, each with a positive limit, in order, within 60 seconds of `start`. */
  ghost predicate Burst(events: seq<Event>, start: real) {
    && (forall i :: 0 <= i < |events| ==> events[i].Ask? && events[i].limit > 0)
    && (forall i, j :: 0 <= i < j < |events| && events[i].Ask? && events[j].Ask? ==> events[i].key != events[j].key)
    && (forall i :: 0 <= i < |events| ==> start <= events[i].now < start + WINDOW_SECONDS)
    && ClockForward(events)
  }

  /** One bucket with one stamp for each key, in order. */
  function Filled(events: seq<Event>): Buckets {
    if events == [] then Empty()
    else
      var init, e := Filled(events[..|events| - 1]), events[|events| - 1];
      if e.Ask? then init.Set(e.key, [Stamp(e.role, e.now)]) else init
  }

  function Logged(events: seq<Event>): seq<Admission> {
    if events == [] then []
    else
      var init, e := Logged(events[..|events| - 1]), events[|events| - 1];
      if e.Ask? then init + [Admission(e.key, e.now)] else init
  }

  function KeysOf(events: seq<Event>): seq<string> {
    Map((e: Event) => if e.Ask? then e.key else "", events)
  }

  lemma BurstInit(events: seq<Event>, start: real)
    requires Burst(events, start) && events != []
    ensures Burst(events[..|events| - 1], start)
    ensures KeysOf(events) == KeysOf(events[..|events| - 1]) + [events[|events| - 1].key]
    ensures events[|events| - 1].key !in KeysOf(events[..|events| - 1])
  {
  }

  /** A bucket whose newest stamp is from the window that begins at `start`. */
  predicate FreshBucket(bucket: seq<Stamp>, start: real) {
    bucket != [] && start <= bucket[|bucket| - 1].at
  }

  ghost predicate AllFresh(d: Buckets, start: real) {
    forall k :: k in d.vals ==> FreshBucket(d.vals[k], start)
  }

  lemma {:induction false} FilledFacts(events: seq<Event>, start: real)
    requires Burst(events, start)
    ensures Filled(events).keys == KeysOf(events) && Filled(events).Valid() && AllFresh(Filled(events), start)
  {
    if events != [] {
      var e := events[|events| - 1];
      BurstInit(events, start);
      FilledFacts(events[..|events| - 1], start);
      SetFacts(Filled(events[..|events| - 1]), e.key, [Stamp(e.role, e.now)]);
    }
  }

  lemma {:induction false} LoggedFacts(events: seq<Event>, start: real, k: string)
    requires Burst(events, start)
    ensures k !in KeysOf(events) ==> Times(Logged(events), k) == []
    ensures events != [] && k == events[0].key ==> Times(Logged(events), k) == [events[0].now]
  {
    if events != [] {
      var init, e := events[..|events| - 1], events[|events| - 1];
      BurstInit(events, start);
      LoggedFacts(init, start, k);
      TimesSnoc(Logged(init), e.key, e.now, k);
    }
  }

  /** Without a stale key the sweep only enforces the cap. */
  lemma NothingStale(d: Buckets, start: real, now: real)
    requires d.Valid() && AllFresh(d, start) && now < start + WINDOW_SECONDS
    ensures Swept(d, now) == d
  {
    FilterNone(StaleIn(d, now), d.keys);
  }

  /** The decision on a new key in a fresh table. */
  lemma NewKeyDecided(d: Buckets, start: real, key: string, limit: int, role: string, now: real)
    requires d.Valid() && AllFresh(d, start) && start <= now < start + WINDOW_SECONDS
    requires key !in d.vals && limit > 0
    ensures Admits(d, key, limit, now)
    ensures Decided(d, key, limit, role, now) == d.Set(key, [Stamp(role, now)]).Evict(MAX_KEYS)
  {
    var e := d.Set(key, [Stamp(role, now)]);
    SetTwice(d, key, [], [Stamp(role, now)]);
    SetFacts(d, key, [Stamp(role, now)]);
    NothingStale(e, start, now);
    assert Recent(d, key, now) == [];
    assert [] + [Stamp(role, now)] == [Stamp(role, now)];
  }

  /** The next request of a burst, as far as the buckets go. */
  lemma BurstStep(d: Buckets, init: seq<Event>, e: Event, start: real)
    requires Burst(init + [e], start) && d == Filled(init)
    ensures e.Ask? && Admits(d, e.key, e.limit, e.now)
    ensures Decided(d, e.key, e.limit, e.role, e.now) == Filled(init + [e]).Evict(MAX_KEYS)
  {
    var all := init + [e];
    assert all[..|init|] == init && all[|init|] == e;
    BurstInit(all, start);
    FilledFacts(init, start);
    NewKeyDecided(d, start, e.key, e.limit, e.role, e.now);
  }

  /** The full history lets it through as well. */
  lemma BurstLogs(log: seq<Admission>, init: seq<Event>, e: Event, start: real)
    requires Burst(init + [e], start) && log == Logged(init)
    ensures e.Ask? && Count(log, e.key, e.now) < e.limit
    ensures log + [Admission(e.key, e.now)] == Logged(init + [e])
  {
    var all := init + [e];
    assert all[..|init|] == init && all[|init|] == e;
    BurstInit(all, start);
    LoggedFacts(init, start, e.key);
    assert Filter(Within(e.now), []) == [];
  }

  /** The next request of a burst, in both limiters. */
  lemma BurstRunStep(s: System, h: Ideal, init: seq<Event>, e: Event, start: real)
    requires Burst(init + [e], start)
    requires s.buckets == Filled(init) && s.log == h.log == Logged(init)
    ensures Next(s, e).buckets == Filled(init + [e]).Evict(MAX_KEYS)
    ensures Next(s, e).log == IdealNext(h, e).log == Logged(init + [e])
  {
    BurstStep(s.buckets, init, e, start);
    BurstLogs(s.log, init, e, start);
    AdmittedByBoth(s, h, e);
  }

  lemma AdmittedByBoth(s: System, h: Ideal, e: Event)
    requires e.Ask? && Admits(s.buckets, e.key, e.limit, e.now) && Count(h.log, e.key, e.now) < e.limit
    ensures Next(s, e).buckets == Decided(s.buckets, e.key, e.limit, e.role, e.now)
    ensures Next(s, e).log == s.log + [Admission(e.key, e.now)]
    ensures IdealNext(h, e).log == h.log + [Admission(e.key, e.now)]
  {
  }

  lemma RunSnoc(events: seq<Event>, e: Event)
    ensures Run(events + [e]) == Next(Run(events), e) && IdealRun(events + [e]) == IdealNext(IdealRun(events), e)
  {
    assert (events + [e])[..|events|] == events;
  }

  lemma BurstRunSnoc(init: seq<Event>, e: Event, start: real)
    requires Burst(init + [e], start)
    requires Run(init).buckets == Filled(init) && Run(init).log == IdealRun(init).log == Logged(init)
    ensures Run(init + [e]).buckets == Filled(init + [e]).Evict(MAX_KEYS)
    ensures Run(init + [e]).log == IdealRun(init + [e]).log == Logged(init + [e])
  {
    RunSnoc(init, e);
    BurstRunStep(Run(init), IdealRun(init), init, e, start);
  }

  lemma NothingEvicted(events: seq<Event>, start: real)
    requires Burst(events, start) && |events| <= MAX_KEYS
    ensures Filled(events).Evict(MAX_KEYS) == Filled(events)
  {
    FilledFacts(events, start);
  }

  /** Both limiters admit a burst; up to the cap each key keeps its bucket, and then the first one goes. */
  lemma {:induction false} BurstFills(events: seq<Event>, start: real)
    requires Burst(events, start) && |events| <= MAX_KEYS + 1
    ensures Run(events).buckets == Filled(events).Evict(MAX_KEYS)
    ensures Run(events).log == IdealRun(events).log == Logged(events)
  {
    if events != [] {
      var init, e := events[..|events| - 1], events[|events| - 1];
      BurstInit(events, start);
      BurstFills(init, start);
      NothingEvicted(init, start);
      assert init + [e] == events;
      BurstRunSnoc(init, e, start);
    }
  }

  lemma OldestEvicted(d: Buckets)
    requires d.Valid() && |d.keys| == MAX_KEYS + 1
    ensures d.keys[0] !in d.Evict(MAX_KEYS).vals
  {
    assert d.Evict(MAX_KEYS) == d.PopOldest();
  }

  /** A key whose only admission is live, and whose bucket is gone. */
  lemma LostKeyAdmitted(s: System, h: Ideal, key: string, first: real, role: string, now: real)
    requires key !in s.buckets.vals && Times(s.log, key) == [first] && now < first + WINDOW_SECONDS
    requires h.log == s.log
    ensures var again := Ask(key, 1, role, now);
      && !Forgets(s, key, now)
      && Next(s, again).verdicts == s.verdicts + [true]
      && IdealNext(h, again).verdicts == h.verdicts + [false]
      && Count(Next(s, again).log, key, now) == 2
  {
    assert [first][..0] == [];
    assert Filter(Within(now), [first]) == [first];
    EvictedKeyStartsAfresh(s, key, 1, role, now);
    assert Stamped(s.buckets, key) == [];
  }

  /**
   After any burst of 5001 keys, the next request of its first key within the window is admitted,
   with the limit 1 that its first admission has used up: a limiter that forgets nothing rejects
   it, and the window holds two admissions. The bucket it lost was live.
   */
  lemma BurstOverturnsLimit(events: seq<Event>, start: real, role: string, now: real)
    requires Burst(events, start) && |events| == MAX_KEYS + 1
    requires events[|events| - 1].now <= now < events[0].now + WINDOW_SECONDS
    ensures var key := events[0].key;
      var again := Ask(key, 1, role, now);
      && ClockForward(events + [again])
      && !Complete(Run(events), now)
      && Next(Run(events), again).verdicts == Run(events).verdicts + [true]
      && IdealNext(IdealRun(events), again).verdicts == IdealRun(events).verdicts + [false]
      && Count(Next(Run(events), again).log, key, now) == 2
  {
    var key := events[0].key;
    BurstFills(events, start);
    FilledFacts(events, start);
    OldestEvicted(Filled(events));
    assert KeysOf(events)[0] == key;
    LoggedFacts(events, start, key);
    LostKeyAdmitted(Run(events), IdealRun(events), key, events[0].now, role, now);
    ClockStillForward(events, Ask(key, 1, role, now));
  }

  lemma ClockStillForward(events: seq<Event>, e: Event)
    requires ClockForward(events) && events != [] && events[|events| - 1].now <= e.now
    ensures ClockForward(events + [e])
  {
    var all := events + [e];
    forall i, j | 0 <= i < j < |all| ensures all[i].now <= all[j].now {
      assert events[i].now <= events[|events| - 1].now;
    }
  }

  // ---------------------------------------------------------- a renewed first key

  /** The bucket of a burst's first key. */
  lemma {:induction false} FirstBucket(events: seq<Event>, start: real)
    requires Burst(events, start) && events != []
    ensures events[0].key in Filled(events).vals
    ensures Filled(events).vals[events[0].key] == [Stamp(events[0].role, events[0].now)]
  {
    var n := |events| - 1;
    if n > 0 {
      BurstInit(events, start);
      FirstBucket(events[..n], start);
      assert events[..n][0] == events[0];
    }
  }

  /** Renewing the first key of a fresh table that is at the cap: it goes to the end. */
  lemma RenewalDecided(d: Buckets, start: real, limit: int, first: Stamp, role: string, now: real)
    requires d.Valid() && AllFresh(d, start) && |d.keys| == MAX_KEYS && d.vals[d.keys[0]] == [first]
    requires start <= now < start + WINDOW_SECONDS && now - first.at < WINDOW_SECONDS && limit >= 2
    ensures var k := d.keys[0];
      var e := Decided(d, k, limit, role, now);
      && Admits(d, k, limit, now)
      && e.Valid() && AllFresh(e, start) && e.keys == d.keys[1..] + [k]
      && e.vals == d.vals[k := [first, Stamp(role, now)]]
  {
    var k := d.keys[0];
    assert k in d.keys;
    OneLive(d, k, first, now);
    RenewedTable(d, start, [first] + [Stamp(role, now)]);
    var b := OrderedDict(d.keys[1..] + [k], d.vals[k := [first] + [Stamp(role, now)]]);
    NothingStale(b, start, now);
    assert b.Evict(MAX_KEYS) == b;
    assert [first] + [Stamp(role, now)] == [first, Stamp(role, now)];
  }

  lemma OneLive(d: Buckets, k: string, first: Stamp, now: real)
    requires k in d.vals && d.vals[k] == [first] && now - first.at < WINDOW_SECONDS
    ensures Recent(d, k, now) == [first]
  {
    FilterAll(LiveAt(now), [first]);
  }

  /** The first key's bucket replaced, and the key moved to the end. */
  lemma RenewedTable(d: Buckets, start: real, bucket: seq<Stamp>)
    requires d.Valid() && AllFresh(d, start) && d.keys != [] && FreshBucket(bucket, start)
    ensures var k := d.keys[0];
      var b := OrderedDict(d.keys[1..] + [k], d.vals[k := bucket]);
      Opened(d, k).Set(k, bucket) == b && b.Valid() && AllFresh(b, start)
  {
    assert d.keys[0] in d.keys;
    OpenedFacts(d, d.keys[0], bucket);
    FirstMoved(d.keys);
  }

  lemma FirstMoved(keys: seq<string>)
    requires NoDuplicates(keys) && keys != []
    ensures Without(keys, keys[0]) == keys[1..]
  {
    assert keys[0] !in keys[1..];
    WithoutMembers(keys[1..], keys[0]);
  }

  /** A new key in a fresh table at the cap evicts the key at the front, and only that one. */
  lemma NewcomerDecided(d: Buckets, start: real, key: string, limit: int, role: string, now: real)
    requires d.Valid() && AllFresh(d, start) && |d.keys| == MAX_KEYS && key !in d.vals && limit > 0
    requires start <= now < start + WINDOW_SECONDS
    ensures var e := Decided(d, key, limit, role, now);
      && Admits(d, key, limit, now)
      && d.keys[0] !in e.vals
      && (forall k :: k in d.vals && k != d.keys[0] ==> k in e.vals && e.vals[k] == d.vals[k])
  {
    NewKeyDecided(d, start, key, limit, role, now);
    SetEvictsOldest(d, key, [Stamp(role, now)], MAX_KEYS);
  }

  lemma SetEvictsOldest(d: Buckets, key: string, bucket: seq<Stamp>, max: nat)
    requires d.Valid() && |d.keys| == max > 0 && key !in d.vals
    ensures var e := d.Set(key, bucket).Evict(max);
      && d.keys[0] !in e.vals
      && (forall k :: k in d.vals && k != d.keys[0] ==> k in e.vals && e.vals[k] == d.vals[k])
  {
    var b := d.Set(key, bucket);
    SetFacts(d, key, bucket);
    assert b.keys[0] == d.keys[0];
    assert b.Evict(max) == b.PopOldest();
  }

  /**
   The cap evicts what was least recently asked for. After any burst of 5000 keys, a second request
   of the first one with the limit 2, and a request of one more key: the second key is the one
   evicted, and the first key's third request in the window is rejected.
   */
  lemma RenewedKeyIsKept(events: seq<Event>, start: real, role: string, t1: real,
                         newcomer: string, limit: int, role2: string, t2: real, t3: real)
    requires Burst(events, start) && |events| == MAX_KEYS && newcomer !in KeysOf(events) && limit > 0
    requires events[|events| - 1].now <= t1 <= t2 <= t3 < events[0].now + WINDOW_SECONDS
    requires t2 < start + WINDOW_SECONDS
    ensures var first, second := events[0].key, events[1].key;
      var s1 := Next(Run(events), Ask(first, 2, role, t1));
      var s2 := Next(s1, Ask(newcomer, limit, role2, t2));
      && second !in s2.buckets.vals && first in s2.buckets.vals
      && !Admits(s2.buckets, first, 2, t3)
  {
    var first, d := events[0].key, Filled(events);
    var stamp := Stamp(events[0].role, events[0].now);
    BurstFills(events, start);
    NothingEvicted(events, start);
    FilledFacts(events, start);
    FirstBucket(events, start);
    assert d.keys[0] == first && d.keys[1] == events[1].key;
    assert newcomer !in d.keys;
    RenewedThenNewcomer(d, start, stamp, role, t1, newcomer, limit, role2, t2, t3);
    var s1 := Next(Run(events), Ask(first, 2, role, t1));
    AskDecides(Run(events), first, 2, role, t1);
    AskDecides(s1, newcomer, limit, role2, t2);
  }

  lemma AskDecides(s: System, key: string, limit: int, role: string, now: real)
    ensures Next(s, Ask(key, limit, role, now)).buckets == Decided(s.buckets, key, limit, role, now)
  {
  }

  /** The same on the tables. */
  lemma RenewedThenNewcomer(d: Buckets, start: real, stamp: Stamp, role: string, t1: real,
                            newcomer: string, limit: int, role2: string, t2: real, t3: real)
    requires d.Valid() && AllFresh(d, start) && |d.keys| == MAX_KEYS && d.vals[d.keys[0]] == [stamp]
    requires newcomer !in d.keys && limit > 0
    requires start <= stamp.at <= t1 <= t2 <= t3 < stamp.at + WINDOW_SECONDS && t2 < start + WINDOW_SECONDS
    ensures var e := Decided(Decided(d, d.keys[0], 2, role, t1), newcomer, limit, role2, t2);
      d.keys[1] !in e.vals && d.keys[0] in e.vals && !Admits(e, d.keys[0], 2, t3)
  {
    var first := d.keys[0];
    RenewalDecided(d, start, 2, stamp, role, t1);
    FirstNotSecond(d.keys);
    NewcomerAfterRenewal(Decided(d, first, 2, role, t1), start, first, stamp, Stamp(role, t1),
                         newcomer, limit, role2, t2, t3);
  }

  lemma FirstNotSecond(keys: seq<string>)
    requires NoDuplicates(keys) && |keys| >= 2
    ensures keys[0] != keys[1] && (keys[1..] + [keys[0]])[0] == keys[1] && keys[0] in keys[1..] + [keys[0]]
    ensures forall k :: k in keys[1..] + [keys[0]] ==> k in keys
  {
  }

  lemma NewcomerAfterRenewal(d: Buckets, start: real, key: string, a: Stamp, b: Stamp,
                             newcomer: string, limit: int, role: string, now: real, later: real)
    requires d.Valid() && AllFresh(d, start) && |d.keys| == MAX_KEYS && limit > 0
    requires newcomer !in d.keys && key in d.keys && key != d.keys[0] && d.vals[key] == [a, b]
    requires start <= now < start + WINDOW_SECONDS && later - a.at < WINDOW_SECONDS && later - b.at < WINDOW_SECONDS
    ensures var e := Decided(d, newcomer, limit, role, now);
      d.keys[0] !in e.vals && key in e.vals && !Admits(e, key, 2, later)
  {
    NewcomerDecided(d, start, newcomer, limit, role, now);
    TwoLive(Decided(d, newcomer, limit, role, now), key, a, b, later);
  }

  lemma TwoLive(d: Buckets, key: string, a: Stamp, b: Stamp, now: real)
    requires key in d.vals && d.vals[key] == [a, b] && now - a.at < WINDOW_SECONDS && now - b.at < WINDOW_SECONDS
    ensures !Admits(d, key, 2, now)
  {
    FilterAll(LiveAt(now), [a, b]);
  }

  /** There are bursts of every length and from every moment on. */
  lemma BurstsExist(n: nat, start: real) returns (events: seq<Event>)
    ensures |events| == n && Burst(events, start)
  {
    events := seq(n, i requires 0 <= i < n => Ask(seq(i, _ => 'k'), 1, "", start));
    forall i, j | 0 <= i < j < n ensures events[i].key != events[j].key {
      assert |events[i].key| == i && |events[j].key| == j;
    }
  }
}
