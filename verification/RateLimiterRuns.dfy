/**
 Whole runs of the rate limiter: any interleaving of sweeps and decisions, under a clock
 that does not go back. The run's own log of admissions is the full history a limiter that
 forgets nothing would keep.
 */
module RateLimiterRuns {
  import opened Sequences
  import opened OrderedDicts
  import opened RateLimiter

  datatype Event =
    | Sweep(now: real)
    | Ask(key: string, limit: int, role: string, now: real)

  datatype Admission = Admission(key: string, at: real)

  /** `verdicts` holds, for each event, whether it was an admitted request. */
  datatype System = System(buckets: Buckets, log: seq<Admission>, verdicts: seq<bool>)

  function Next(s: System, e: Event): System {
    match e
    case Sweep(now) => s.(buckets := Pruned(s.buckets, now), verdicts := s.verdicts + [false])
    case Ask(key, limit, role, now) =>
      var ok := Admits(s.buckets, key, limit, now);
      System(Decided(s.buckets, key, limit, role, now),
             if ok then s.log + [Admission(key, now)] else s.log,
             s.verdicts + [ok])
  }

  function Run(events: seq<Event>): System {
    if events == [] then System(Empty(), [], [])
    else Next(Run(events[..|events| - 1]), events[|events| - 1])
  }

  // ------------------------------------------------- the limiter that never forgets

  function OfKey(key: string): Admission -> bool {
    (a: Admission) => a.key == key
  }

  /** All admission times of a key, oldest first. */
  function Times(log: seq<Admission>, key: string): seq<real> {
    Map((a: Admission) => a.at, Filter(OfKey(key), log))
  }

  function Within(now: real): real -> bool {
    (t: real) => now - t < WINDOW_SECONDS
  }

  /** Admissions of a key inside the window, counted over the full history. */
  function Count(log: seq<Admission>, key: string, now: real): nat {
    |Filter(Within(now), Times(log, key))|
  }

  datatype Ideal = Ideal(log: seq<Admission>, verdicts: seq<bool>)

  function IdealNext(s: Ideal, e: Event): Ideal {
    match e
    case Sweep(now) => s.(verdicts := s.verdicts + [false])
    case Ask(key, limit, role, now) =>
      var ok := Count(s.log, key, now) < limit;
      Ideal(if ok then s.log + [Admission(key, now)] else s.log, s.verdicts + [ok])
  }

  function IdealRun(events: seq<Event>): Ideal {
    if events == [] then Ideal([], [])
    else IdealNext(IdealRun(events[..|events| - 1]), events[|events| - 1])
  }

  ghost predicate ClockForward(events: seq<Event>) {
    forall i, j :: 0 <= i < j < |events| ==> events[i].now <= events[j].now
  }

  // -------------------------------------------------------------- sorted times

  ghost predicate Ascending(ts: seq<real>) {
    forall i, j :: 0 <= i < j < |ts| ==> ts[i] <= ts[j]
  }

  ghost predicate AllUpTo(ts: seq<real>, clock: real) {
    forall i :: 0 <= i < |ts| ==> ts[i] <= clock
  }

  /** In ascending times the window is a suffix. */
  lemma WindowIsSuffix(ts: seq<real>, now: real) returns (j: nat)
    requires Ascending(ts)
    ensures j <= |ts| && Filter(Within(now), ts) == ts[j..]
    ensures forall i :: 0 <= i < j ==> now - ts[i] >= WINDOW_SECONDS
    ensures forall i :: j <= i < |ts| ==> now - ts[i] < WINDOW_SECONDS
  {
    j := 0;
    while j < |ts| && now - ts[j] >= WINDOW_SECONDS
      invariant j <= |ts| && forall i :: 0 <= i < j ==> now - ts[i] >= WINDOW_SECONDS
    {
      j := j + 1;
    }
    forall i | j <= i < |ts| ensures now - ts[i] < WINDOW_SECONDS {
      assert ts[j] <= ts[i];
    }
    FilterSlice(Within(now), ts, j, |ts|);
  }

  /** The bucket's times, oldest first. */
  function Stamped(d: Buckets, key: string): seq<real> {
    Map((s: Stamp) => s.at, BucketOf(d, key))
  }

  lemma RecentTimes(d: Buckets, key: string, now: real)
    ensures Map((s: Stamp) => s.at, Recent(d, key, now)) == Filter(Within(now), Stamped(d, key))
    ensures |Recent(d, key, now)| == |Filter(Within(now), Stamped(d, key))|
  {
    FilterMap((s: Stamp) => s.at, LiveAt(now), Within(now), BucketOf(d, key));
  }

  ghost predicate IsSuffix(b: seq<real>, ts: seq<real>) {
    |b| <= |ts| && ts[|ts| - |b|..] == b
  }

  // ----------------------------------------------------------------- invariant

  /** A bucket's times are a suffix of the admission times, which ascend up to the clock. */
  ghost predicate Keeps(ts: seq<real>, b: seq<real>, clock: real) {
    Ascending(ts) && AllUpTo(ts, clock) && IsSuffix(b, ts)
  }

  ghost predicate KeyInv(s: System, key: string, clock: real) {
    Keeps(Times(s.log, key), Stamped(s.buckets, key), clock)
  }

  ghost predicate Inv(s: System, clock: real) {
    s.buckets.Valid() && forall key :: KeyInv(s, key, clock)
  }

  /** What the bucket has dropped of the history is outside the window. */
  ghost predicate LostAreOld(ts: seq<real>, b: seq<real>, clock: real) {
    forall i :: 0 <= i < |ts| - |b| ==> clock - ts[i] >= WINDOW_SECONDS
  }

  ghost predicate Forgets(s: System, key: string, clock: real) {
    LostAreOld(Times(s.log, key), Stamped(s.buckets, key), clock)
  }

  ghost predicate Complete(s: System, clock: real) {
    forall key :: Forgets(s, key, clock)
  }

  /** No fresh bucket is evicted: the keys that are not stale fit under the cap. */
  predicate FitsCap(d: Buckets, now: real) {
    |Swept(d, now).keys| <= MAX_KEYS
  }

  predicate NoLiveEviction(s: System, e: Event) {
    match e
    case Sweep(now) => FitsCap(s.buckets, now)
    case Ask(key, limit, role, now) =>
      Admits(s.buckets, key, limit, now) ==>
        FitsCap(Opened(s.buckets, key).Set(key, Recent(s.buckets, key, now) + [Stamp(role, now)]), now)
  }

  /** No event of the run evicts a fresh bucket. */
  ghost predicate RunsWithinCap(events: seq<Event>) {
    events == [] || (RunsWithinCap(events[..|events| - 1])
                     && NoLiveEviction(Run(events[..|events| - 1]), events[|events| - 1]))
  }

  lemma SuffixOfSuffix(b: seq<real>, ts: seq<real>, j: nat)
    requires IsSuffix(b, ts) && j <= |b|
    ensures IsSuffix(b[j..], ts)
  {
  }

  lemma SuffixSnoc(b: seq<real>, ts: seq<real>, t: real)
    requires IsSuffix(b, ts)
    ensures IsSuffix(b + [t], ts + [t])
  {
    assert (ts + [t])[|ts| - |b|..] == ts[|ts| - |b|..] + [t];
  }

  lemma TimesSnoc(log: seq<Admission>, key: string, now: real, k: string)
    ensures Times(log + [Admission(key, now)], k) == if k == key then Times(log, k) + [now] else Times(log, k)
  {
    FilterSnoc(OfKey(k), log, Admission(key, now));
  }

  /** Pruning keeps the invariant, and keeps completeness unless a fresh bucket is evicted. */
  lemma PruneKeeps(s: System, clock: real, now: real)
    requires Inv(s, clock) && clock <= now
    ensures Inv(s.(buckets := Pruned(s.buckets, now)), now)
    ensures Complete(s, now) && FitsCap(s.buckets, now) ==> Complete(s.(buckets := Pruned(s.buckets, now)), now)
  {
    var s' := s.(buckets := Pruned(s.buckets, now));
    PrunedFacts(s.buckets, now);
    forall k
      ensures KeyInv(s', k, now)
      ensures Complete(s, now) && FitsCap(s.buckets, now) ==> Forgets(s', k, now)
    {
      PruneKeepsKey(s, clock, now, k);
    }
  }

  /** If the newest stamp is outside the window, so is the whole history. */
  lemma StaleMeansForgotten(ts: seq<real>, b: seq<real>, now: real)
    requires Ascending(ts) && IsSuffix(b, ts)
    requires b == [] || now - b[|b| - 1] >= WINDOW_SECONDS
    requires forall i :: 0 <= i < |ts| - |b| ==> now - ts[i] >= WINDOW_SECONDS
    ensures forall i :: 0 <= i < |ts| ==> now - ts[i] >= WINDOW_SECONDS
  {
    if b != [] {
      assert ts[|ts| - 1] == b[|b| - 1];
      forall i | 0 <= i < |ts| ensures ts[i] <= ts[|ts| - 1] {
      }
    }
  }

  lemma EmptyIsSuffix(ts: seq<real>)
    ensures IsSuffix([], ts)
  {
    assert ts[|ts|..] == [];
  }

  lemma StampedBySweep(d: Buckets, now: real, k: string)
    requires d.Valid()
    ensures k in Pruned(d, now).vals ==> Stamped(Pruned(d, now), k) == Stamped(d, k)
    ensures k !in Pruned(d, now).vals ==> Stamped(Pruned(d, now), k) == []
    ensures k !in Pruned(d, now).vals && FitsCap(d, now) ==>
      Stamped(d, k) == [] || now - Stamped(d, k)[|Stamped(d, k)| - 1] >= WINDOW_SECONDS
  {
    PrunedFacts(d, now);
  }

  lemma PruneKeepsKey(s: System, clock: real, now: real, k: string)
    requires Inv(s, clock) && clock <= now
    ensures var s' := s.(buckets := Pruned(s.buckets, now));
      && KeyInv(s', k, now)
      && (Complete(s, now) && FitsCap(s.buckets, now) ==> Forgets(s', k, now))
  {
    assert KeyInv(s, k, clock);
    assert Complete(s, now) ==> Forgets(s, k, now);
    StampedBySweep(s.buckets, now, k);
    SweptKeeps(Times(s.log, k), Stamped(s.buckets, k), Stamped(Pruned(s.buckets, now), k),
               FitsCap(s.buckets, now), clock, now);
  }

  /** Leaving the bucket as it is, or dropping it, within the cap only if it is stale. */
  lemma SweptKeeps(ts: seq<real>, b: seq<real>, c: seq<real>, fits: bool, clock: real, now: real)
    requires Keeps(ts, b, clock) && clock <= now && (c == b || c == [])
    requires fits ==> c == b || b == [] || now - b[|b| - 1] >= WINDOW_SECONDS
    ensures Keeps(ts, c, now)
    ensures LostAreOld(ts, b, now) && fits ==> LostAreOld(ts, c, now)
  {
    EmptyIsSuffix(ts);
    if LostAreOld(ts, b, now) && fits && c != b {
      StaleMeansForgotten(ts, b, now);
    }
  }

  /** Filtering the asked key's bucket to the window. */
  function Trimmed(s: System, key: string, now: real): System {
    s.(buckets := Opened(s.buckets, key).Set(key, Recent(s.buckets, key, now)))
  }

  lemma TrimmedBuckets(d: Buckets, key: string, now: real, k: string)
    requires d.Valid()
    ensures Stamped(Opened(d, key).Set(key, Recent(d, key, now)), k) ==
            if k == key then Filter(Within(now), Stamped(d, key)) else Stamped(d, k)
  {
    OpenedFacts(d, key, Recent(d, key, now));
    RecentTimes(d, key, now);
  }

  /** Trimming a suffix of ascending times leaves a suffix, and drops only what is outside the window. */
  lemma TrimmedSuffix(ts: seq<real>, b: seq<real>, now: real)
    requires Ascending(ts) && IsSuffix(b, ts)
    ensures var c := Filter(Within(now), b);
      IsSuffix(c, ts) && (LostAreOld(ts, b, now) ==> LostAreOld(ts, c, now))
  {
    SuffixAscending(b, ts);
    var j := WindowIsSuffix(b, now);
    SuffixOfSuffix(b, ts, j);
    forall i | |ts| - |b| <= i < |ts| - |b| + j ensures ts[i] == b[i - (|ts| - |b|)] {
    }
  }

  lemma TrimKeepsKey(s: System, clock: real, key: string, now: real, k: string)
    requires Inv(s, clock) && clock <= now
    ensures KeyInv(Trimmed(s, key, now), k, now)
    ensures Complete(s, now) ==> Forgets(Trimmed(s, key, now), k, now)
  {
    assert KeyInv(s, k, clock);
    assert Complete(s, now) ==> Forgets(s, k, now);
    TrimmedBuckets(s.buckets, key, now, k);
    TrimmedKeeps(Times(s.log, k), Stamped(s.buckets, k), Stamped(Trimmed(s, key, now).buckets, k), clock, now);
  }

  /** Leaving the bucket as it is, or cutting it to the window. */
  lemma TrimmedKeeps(ts: seq<real>, b: seq<real>, c: seq<real>, clock: real, now: real)
    requires Keeps(ts, b, clock) && clock <= now && (c == b || c == Filter(Within(now), b))
    ensures Keeps(ts, c, now)
    ensures LostAreOld(ts, b, now) ==> LostAreOld(ts, c, now)
  {
    TrimmedSuffix(ts, b, now);
  }

  lemma TrimKeeps(s: System, clock: real, key: string, now: real)
    requires Inv(s, clock) && clock <= now
    ensures Inv(Trimmed(s, key, now), now)
    ensures Complete(s, now) ==> Complete(Trimmed(s, key, now), now)
  {
    OpenedFacts(s.buckets, key, Recent(s.buckets, key, now));
    forall k
      ensures KeyInv(Trimmed(s, key, now), k, now)
      ensures Complete(s, now) ==> Forgets(Trimmed(s, key, now), k, now)
    {
      TrimKeepsKey(s, clock, key, now, k);
    }
  }

  lemma SuffixAscending(b: seq<real>, ts: seq<real>)
    requires IsSuffix(b, ts) && Ascending(ts)
    ensures Ascending(b)
  {
    forall i, j | 0 <= i < j < |b| ensures b[i] <= b[j] {
      assert b[i] == ts[|ts| - |b| + i] && b[j] == ts[|ts| - |b| + j];
    }
  }

  /** Logging an admission and stamping the bucket. */
  function Stamping(s: System, key: string, role: string, now: real): System {
    System(s.buckets.Set(key, BucketOf(s.buckets, key) + [Stamp(role, now)]), s.log + [Admission(key, now)], s.verdicts)
  }

  lemma StampedBuckets(d: Buckets, key: string, role: string, now: real, k: string)
    ensures Stamped(d.Set(key, BucketOf(d, key) + [Stamp(role, now)]), k) ==
            if k == key then Stamped(d, key) + [now] else Stamped(d, k)
  {
  }

  lemma StampKeepsKey(s: System, key: string, role: string, now: real, k: string)
    requires KeyInv(s, k, now)
    ensures KeyInv(Stamping(s, key, role, now), k, now)
    ensures Forgets(s, k, now) ==> Forgets(Stamping(s, key, role, now), k, now)
  {
    TimesSnoc(s.log, key, now, k);
    StampedBuckets(s.buckets, key, role, now, k);
    StampedKeeps(Times(s.log, k), Stamped(s.buckets, k), now);
  }

  lemma StampedKeeps(ts: seq<real>, b: seq<real>, now: real)
    requires Keeps(ts, b, now)
    ensures Keeps(ts + [now], b + [now], now)
    ensures LostAreOld(ts, b, now) ==> LostAreOld(ts + [now], b + [now], now)
  {
    StampedTimes(ts, b, now);
  }

  lemma StampedTimes(ts: seq<real>, b: seq<real>, now: real)
    requires Ascending(ts) && AllUpTo(ts, now) && IsSuffix(b, ts)
    ensures Ascending(ts + [now]) && AllUpTo(ts + [now], now) && IsSuffix(b + [now], ts + [now])
    ensures forall i :: 0 <= i < |ts| - |b| ==> (ts + [now])[i] == ts[i]
  {
    SuffixSnoc(b, ts, now);
  }

  lemma StampKeeps(s: System, key: string, role: string, now: real)
    requires Inv(s, now)
    ensures Inv(Stamping(s, key, role, now), now)
    ensures Complete(s, now) ==> Complete(Stamping(s, key, role, now), now)
  {
    SetFacts(s.buckets, key, BucketOf(s.buckets, key) + [Stamp(role, now)]);
    forall k
      ensures KeyInv(Stamping(s, key, role, now), k, now)
      ensures Complete(s, now) ==> Forgets(Stamping(s, key, role, now), k, now)
    {
      assert KeyInv(s, k, now);
      assert Complete(s, now) ==> Forgets(s, k, now);
      StampKeepsKey(s, key, role, now, k);
    }
  }

  /** Time passing changes nothing but what is in the window. */
  lemma Later(s: System, clock: real, now: real)
    requires Inv(s, clock) && clock <= now
    ensures Inv(s, now)
    ensures Complete(s, clock) ==> Complete(s, now)
  {
    forall k ensures KeyInv(s, k, now) {
      assert KeyInv(s, k, clock);
    }
    if Complete(s, clock) {
      forall k ensures Forgets(s, k, now) {
        assert Forgets(s, k, clock);
      }
    }
  }

  /** The decision section, as trimming, stamping and pruning. */
  lemma DecidedSteps(s: System, key: string, limit: int, role: string, now: real)
    ensures var t := Trimmed(s, key, now);
      var u := Stamping(t, key, role, now);
      var s' := Next(s, Ask(key, limit, role, now));
      if Admits(s.buckets, key, limit, now) then
        s'.log == u.log && s'.buckets == Pruned(u.buckets, now)
        && u.buckets == Opened(s.buckets, key).Set(key, Recent(s.buckets, key, now) + [Stamp(role, now)])
      else s'.log == t.log && s'.buckets == t.buckets
  {
    var recent := Recent(s.buckets, key, now);
    SetTwice(Opened(s.buckets, key), key, recent, recent + [Stamp(role, now)]);
  }

  /** The verdicts play no part in the invariant. */
  lemma SameTables(s: System, s': System, clock: real)
    requires s.buckets == s'.buckets && s.log == s'.log
    ensures Inv(s, clock) ==> Inv(s', clock)
    ensures Complete(s, clock) ==> Complete(s', clock)
  {
    if Inv(s, clock) {
      forall k ensures KeyInv(s', k, clock) {
        assert KeyInv(s, k, clock);
      }
    }
    if Complete(s, clock) {
      forall k ensures Forgets(s', k, clock) {
        assert Forgets(s, k, clock);
      }
    }
  }

  lemma StepKeeps(s: System, clock: real, e: Event)
    requires Inv(s, clock) && clock <= e.now
    ensures Inv(Next(s, e), e.now)
    ensures Complete(s, clock) && NoLiveEviction(s, e) ==> Complete(Next(s, e), e.now)
  {
    Later(s, clock, e.now);
    var s' := Next(s, e);
    match e
    case Sweep(now) =>
      PruneKeeps(s, clock, now);
      SameTables(s.(buckets := Pruned(s.buckets, now)), s', now);
    case Ask(key, limit, role, now) =>
      var t := Trimmed(s, key, now);
      var u := Stamping(t, key, role, now);
      DecidedSteps(s, key, limit, role, now);
      TrimKeeps(s, clock, key, now);
      if Admits(s.buckets, key, limit, now) {
        StampKeeps(t, key, role, now);
        PruneKeeps(u, now, now);
        SameTables(u.(buckets := Pruned(u.buckets, now)), s', now);
      } else {
        SameTables(t, s', now);
      }
  }

  lemma BirthInv(clock: real)
    ensures Inv(Run([]), clock) && Complete(Run([]), clock)
  {
    var s := Run([]);
    assert s == System(Empty(), [], []);
    forall k ensures KeyInv(s, k, clock) && Forgets(s, k, clock) {
      assert Times(s.log, k) == [] && Stamped(s.buckets, k) == [];
    }
  }

  lemma {:induction false} RunKeepsInv(events: seq<Event>, clock: real)
    requires ClockForward(events)
    requires forall i :: 0 <= i < |events| ==> events[i].now <= clock
    ensures Inv(Run(events), clock)
    ensures RunsWithinCap(events) ==> Complete(Run(events), clock)
  {
    if events == [] {
      BirthInv(clock);
    } else {
      var init, e := events[..|events| - 1], events[|events| - 1];
      RunKeepsInv(init, e.now);
      StepKeeps(Run(init), e.now, e);
      Later(Next(Run(init), e), e.now, clock);
    }
  }

  // -------------------------------------------------------------- over whole runs

  /**
   The count a decision is based on falls short of the full history's by exactly the live
   admissions that the bucket has lost.
   */
  lemma CountGap(s: System, key: string, now: real)
    requires KeyInv(s, key, now)
    ensures var ts, b := Times(s.log, key), Stamped(s.buckets, key);
      Count(s.log, key, now) == |Recent(s.buckets, key, now)| + |Filter(Within(now), ts[..|ts| - |b|])|
  {
    RecentTimes(s.buckets, key, now);
    SuffixCount(Within(now), Stamped(s.buckets, key), Times(s.log, key));
  }

  lemma SuffixCount(p: real -> bool, b: seq<real>, ts: seq<real>)
    requires IsSuffix(b, ts)
    ensures |Filter(p, ts)| == |Filter(p, b)| + |Filter(p, ts[..|ts| - |b|])|
  {
    FilterConcat(p, ts[..|ts| - |b|], b);
    assert ts == ts[..|ts| - |b|] + b;
  }

  /** No request is rejected that the full history of admissions would let through. */
  lemma RejectionsAreJustified(events: seq<Event>, key: string, limit: int, role: string, now: real)
    requires ClockForward(events + [Ask(key, limit, role, now)])
    requires !Admits(Run(events).buckets, key, limit, now)
    ensures Count(Run(events).log, key, now) >= limit
  {
    var all := events + [Ask(key, limit, role, now)];
    forall i, j | 0 <= i < j < |events| ensures events[i].now <= events[j].now {
      assert all[i].now <= all[j].now;
    }
    forall i | 0 <= i < |events| ensures events[i].now <= now {
      assert all[i].now <= all[|events|].now;
    }
    RunKeepsInv(events, now);
    assert KeyInv(Run(events), key, now);
    CountGap(Run(events), key, now);
  }

  /**
   While no live key is evicted by the cap, the limiter takes the same decisions as one that
   forgets nothing, over every run.
   */
  lemma {:induction false} RunsLikeIdeal(events: seq<Event>)
    requires ClockForward(events) && RunsWithinCap(events)
    ensures Run(events).log == IdealRun(events).log
    ensures Run(events).verdicts == IdealRun(events).verdicts
  {
    if events != [] {
      var init, e := events[..|events| - 1], events[|events| - 1];
      RunsLikeIdeal(init);
      RunKeepsInv(init, e.now);
      if e.Ask? {
        CompleteCount(Run(init), e.key, e.now);
      }
    }
  }

  lemma CompleteCount(s: System, key: string, now: real)
    requires Inv(s, now) && Complete(s, now)
    ensures Count(s.log, key, now) == |Recent(s.buckets, key, now)|
  {
    assert KeyInv(s, key, now) && Forgets(s, key, now);
    CountGap(s, key, now);
    var ts, b := Times(s.log, key), Stamped(s.buckets, key);
    FilterNone(Within(now), ts[..|ts| - |b|]);
  }

  /** For any limit, the decision on this key is that of the full history. */
  ghost predicate DecidesLikeHistory(s: System, key: string, now: real) {
    forall limit: int :: Admits(s.buckets, key, limit, now) <==> Count(s.log, key, now) < limit
  }

  /** A key's decisions are those of the full history exactly when its bucket has lost nothing live. */
  lemma KeyAgreesIff(s: System, key: string, now: real)
    requires KeyInv(s, key, now)
    ensures DecidesLikeHistory(s, key, now) <==> Forgets(s, key, now)
  {
    var ts, b := Times(s.log, key), Stamped(s.buckets, key);
    var lost, counted := ts[..|ts| - |b|], |Recent(s.buckets, key, now)|;
    CountGap(s, key, now);
    if DecidesLikeHistory(s, key, now) {
      assert Admits(s.buckets, key, counted + 1, now);
      forall i | 0 <= i < |lost| ensures now - ts[i] >= WINDOW_SECONDS {
        if Within(now)(lost[i]) {
          var j := FilterFinds(Within(now), lost, i);
        }
      }
    }
    if Forgets(s, key, now) {
      FilterNone(Within(now), lost);
    }
  }

  /**
   In any state a run can reach, every decision (on any key, with any limit) is that of the full
   history exactly when no bucket has lost a live admission.
   */
  lemma AgreesIffComplete(s: System, now: real)
    requires Inv(s, now)
    ensures (forall key :: DecidesLikeHistory(s, key, now)) <==> Complete(s, now)
  {
    forall key ensures DecidesLikeHistory(s, key, now) <==> Forgets(s, key, now) {
      KeyAgreesIff(s, key, now);
    }
  }

  function Between(x: real): real -> bool {
    (t: real) => x < t <= x + WINDOW_SECONDS
  }

  /** Every request on this key asks for at most `limit`. */
  ghost predicate LimitedTo(events: seq<Event>, key: string, limit: nat) {
    forall i :: 0 <= i < |events| && events[i].Ask? && events[i].key == key ==> events[i].limit <= limit
  }

  /**
   Safety over whole runs: with limits up to `limit` for a key, and no live key evicted, no
   window of 60 seconds anywhere in the run contains more than `limit` admissions of that key.
   */
  lemma {:induction false} EveryWindowIsLimited(events: seq<Event>, key: string, limit: nat, x: real)
    requires ClockForward(events) && RunsWithinCap(events) && LimitedTo(events, key, limit)
    ensures |Filter(Between(x), Times(Run(events).log, key))| <= limit
  {
    if events != [] {
      var init, e := events[..|events| - 1], events[|events| - 1];
      EveryWindowIsLimited(init, key, limit, x);
      RunKeepsInv(init, e.now);
      var ts := Times(Run(init).log, key);
      if e.Ask? && Admits(Run(init).buckets, e.key, e.limit, e.now) {
        TimesSnoc(Run(init).log, e.key, e.now, key);
        if e.key == key {
          CompleteCount(Run(init), key, e.now);
          FilterSnoc(Between(x), ts, e.now);
          if Between(x)(e.now) {
            FilterMonotone(Between(x), Within(e.now), ts);
          }
        }
      }
    }
  }

  /** After a sweep, and after an admission, at most 5000 keys are kept. */
  lemma KeysAreBounded(events: seq<Event>, e: Event)
    requires ClockForward(events + [e])
    requires e.Sweep? || Admits(Run(events).buckets, e.key, e.limit, e.now)
    ensures |Run(events + [e]).buckets.keys| <= MAX_KEYS
  {
    var all := events + [e];
    forall i, j | 0 <= i < j < |events| ensures events[i].now <= events[j].now {
      assert all[i].now <= all[j].now;
    }
    forall i | 0 <= i < |events| ensures events[i].now <= e.now {
      assert all[i].now <= all[|events|].now;
    }
    RunKeepsInv(events, e.now);
    assert all[..|events|] == events;
    var d := Run(events).buckets;
    if e.Sweep? {
      PrunedFacts(d, e.now);
    } else {
      var recent := Recent(d, e.key, e.now) + [Stamp(e.role, e.now)];
      OpenedFacts(d, e.key, recent);
      PrunedFacts(Opened(d, e.key).Set(e.key, recent), e.now);
    }
  }

  /** Why the cap matters: a key whose bucket is gone is admitted whatever it did before. */
  lemma EvictedKeyStartsAfresh(s: System, key: string, limit: int, role: string, now: real)
    requires key !in s.buckets.vals && 0 < limit <= Count(s.log, key, now)
    ensures var s' := Next(s, Ask(key, limit, role, now));
      s'.verdicts == s.verdicts + [true] && Count(s'.log, key, now) == Count(s.log, key, now) + 1
  {
    TimesSnoc(s.log, key, now, key);
    FilterSnoc(Within(now), Times(s.log, key), now);
    assert Filter(LiveAt(now), BucketOf(s.buckets, key)) == [];
  }
}
