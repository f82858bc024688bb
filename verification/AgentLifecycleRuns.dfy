/**
 An agent's whole life: any interleaving of start, stop, pause and resume calls with the
 steps of its main tasks. Starting a paused agent gives it a second main task, so the
 number of tasks is not fixed.
 */
module AgentLifecycleRuns {
  import opened Options
  import opened AgentLifecycle

  /** Main tasks, by where they are; `pending` holds the start calls that sleep, and their wake-up time. */
  datatype Life = Life(
    status: Status, retryCount: nat, lastStart: Option<real>, pending: map<nat, real>,
    ready: set<nat>, running: set<nat>, sleeping: set<nat>, cooling: set<nat>,
    failures: nat, slept: nat, launches: seq<real>)

  datatype Step =
    | StartCall(p: nat, now: real, at: real)   // `at`: when it launches, if it need not wait
    | StartWakes(p: nat, at: real)
    | LoopHead(t: nat)
    | RunFails(t: nat)
    | RunSucceeds(t: nat, fast: bool)
    | CoolingEnds(t: nat)
    | SleepEnds(t: nat)
    | TaskCancelled(t: nat)
    | Stop
    | Pause
    | Resume

  function Birth(): Life {
    Life(Stopped, 0, None, map[], {}, {}, {}, {}, 0, 0, [])
  }

  /** The main task created by a launch is named after the number of launches so far. */
  function Launch(s: Life, at: real): Life {
    s.(status := Running, lastStart := Some(at), ready := s.ready + {|s.launches|}, launches := s.launches + [at])
  }

  function Next(s: Life, step: Step): Life {
    match step
    case StartCall(p, now, at) =>
      if s.status == Running || p in s.pending then s
      else if Wait(s.lastStart, now) > 0.0 then s.(pending := s.pending[p := now + Wait(s.lastStart, now)])
      else if at >= now then Launch(s, at) else s
    case StartWakes(p, at) =>
      if p in s.pending && at >= s.pending[p] then Launch(s.(pending := s.pending - {p}), at) else s
    case LoopHead(t) =>
      if t !in s.ready then s
      else if s.retryCount <= MAX_RETRIES && s.status == Running then
        s.(ready := s.ready - {t}, running := s.running + {t})
      else s.(ready := s.ready - {t})
    case RunFails(t) =>
      if t !in s.running then s
      else
        var n := s.retryCount + 1;
        var failed := s.(retryCount := n, failures := s.failures + 1, running := s.running - {t});
        if n <= MAX_RETRIES then failed.(sleeping := s.sleeping + {t}, slept := s.slept + Power2(n))
        else failed.(status := Error)
    case RunSucceeds(t, fast) =>
      if t !in s.running then s
      else if fast then s.(running := s.running - {t}, cooling := s.cooling + {t})
      else s.(running := s.running - {t}, status := Stopped)
    case CoolingEnds(t) =>
      if t in s.cooling then s.(cooling := s.cooling - {t}, status := Stopped) else s
    case SleepEnds(t) =>
      if t in s.sleeping then s.(sleeping := s.sleeping - {t}, ready := s.ready + {t}) else s
    case TaskCancelled(t) =>
      s.(ready := s.ready - {t}, running := s.running - {t}, sleeping := s.sleeping - {t}, cooling := s.cooling - {t})
    case Stop => if s.status == Error then s else s.(status := Stopped)
    case Pause => s.(status := Paused)
    case Resume => s.(status := Running)
  }

  function Lived(steps: seq<Step>): Life {
    if steps == [] then Birth() else Next(Lived(steps[..|steps| - 1]), steps[|steps| - 1])
  }

  /** A start call with nobody in between is `BaseAgent.Start`. */
  lemma SerialStart(s: Life, p: nat, now: real, at: real)
    requires p !in s.pending && at >= now + Wait(s.lastStart, now)
    ensures var s2 := Next(Next(s, StartCall(p, now, at)), StartWakes(p, at));
      s2 == if s.status == Running then s else Launch(s, at)
  {
    assert s.pending[p := now + Wait(s.lastStart, now)] - {p} == s.pending;
  }

  /** Everything of a main task's life but its place, as `BaseAgent.RunOnce` leaves it. */
  ghost predicate TurnedBy(s: Life, s': Life, attempt: Attempt, pause: nat) {
    var r := s.retryCount + if attempt.Fails? then 1 else 0;
    && s'.retryCount == r && s'.failures == s.failures + (r - s.retryCount) && s'.slept == s.slept + pause
    && s'.status == StatusAfter(attempt, r)
    && s'.lastStart == s.lastStart && s'.launches == s.launches && s'.pending == s.pending
  }

  /** A task's turn with nobody in between is one turn of the retry loop. */
  lemma SerialTurn(s: Life, t: nat, elapsed: real)
    requires t in s.ready && s.status == Running && s.retryCount <= 3
    requires t !in s.running && t !in s.sleeping && t !in s.cooling
    ensures var head := Next(s, LoopHead(t));
      var failed, done := Next(head, RunFails(t)), Next(head, RunSucceeds(t, elapsed < 60.0));
      var pause := if s.retryCount == 0 then 2 else if s.retryCount == 1 then 4 else if s.retryCount == 2 then 8 else 0;
      && TurnedBy(s, failed, Fails(None, false), pause)
      && Next(failed, SleepEnds(t)).ready == (if s.retryCount < 3 then s.ready else s.ready - {t})
      && TurnedBy(s, Next(failed, SleepEnds(t)), Fails(None, false), pause)
      && TurnedBy(s, Next(done, CoolingEnds(t)), Succeeds(None, elapsed, false), 0)
      && Next(done, CoolingEnds(t)).ready == s.ready - {t}
      && TurnedBy(s, Next(done, TaskCancelled(t)), Succeeds(None, elapsed, true), 0)
      && TurnedBy(s, Next(head, TaskCancelled(t)), Cancelled, 0)
      && Next(done, TaskCancelled(t)).ready == Next(head, TaskCancelled(t)).ready == s.ready - {t}
  {
    assert Power2(1) == 2 && Power2(2) == 4 && Power2(3) == 8;
    assert s.ready - {t} + {t} == s.ready;
  }

  // ------------------------------------------------------------- retry budget

  /** In every state so far at most `k` main tasks were inside `run()`. */
  ghost predicate AtMostRunning(steps: seq<Step>, k: nat) {
    forall i :: 0 <= i <= |steps| ==> |Lived(steps[..i]).running| <= k
  }

  ghost predicate BudgetInv(s: Life, k: nat) {
    && s.failures == s.retryCount
    && s.retryCount + |s.running| <= MAX_RETRIES + k
    && s.slept == Backoffs(Capped(s.retryCount))
    && (s.status == Error ==> s.retryCount > MAX_RETRIES)
  }

  lemma FailureKeepsBudget(s: Life, t: nat, k: nat)
    requires BudgetInv(s, k) && t in s.running
    ensures BudgetInv(Next(s, RunFails(t)), k)
  {
    SmallerSet(s.running, t);
  }

  lemma BudgetStep(s: Life, step: Step, k: nat)
    requires BudgetInv(s, k) && |Next(s, step).running| <= k
    ensures BudgetInv(Next(s, step), k)
  {
    if step.RunFails? {
      if step.t in s.running {
        FailureKeepsBudget(s, step.t, k);
      }
    } else {
      if step.TaskCancelled? || step.RunSucceeds? {
        SmallerSet(s.running, step.t);
      }
      OtherKeepsBudget(s, step, k);
    }
  }

  lemma OtherKeepsBudget(s: Life, step: Step, k: nat)
    requires BudgetInv(s, k) && !step.RunFails?
    requires |Next(s, step).running| <= k
    requires !step.LoopHead? ==> |Next(s, step).running| <= |s.running|
    ensures BudgetInv(Next(s, step), k)
  {
  }

  lemma SmallerSet(s: set<nat>, t: nat)
    ensures |s - {t}| == if t in s then |s| - 1 else |s|
  {
    if t in s {
      assert s == (s - {t}) + {t};
    } else {
      assert s - {t} == s;
    }
  }

  lemma {:induction false} BudgetOverLife(steps: seq<Step>, k: nat)
    requires AtMostRunning(steps, k)
    ensures BudgetInv(Lived(steps), k)
  {
    if steps != [] {
      var n := |steps| - 1;
      forall i | 0 <= i <= n ensures |Lived(steps[..n][..i]).running| <= k {
        assert steps[..n][..i] == steps[..i];
      }
      BudgetOverLife(steps[..n], k);
      assert steps[..n + 1] == steps;
      BudgetStep(Lived(steps[..n]), steps[n], k);
    }
  }

  /**
   Over an agent's whole life, all restarts included: with at most `k` tasks inside `run()`
   at a time, at most `3 + k` runs fail, the backoffs add up to at most 14 seconds
   whatever `k`, and the `Error` status means that the budget is spent.
   */
  lemma WholeLifeBudget(steps: seq<Step>, k: nat)
    requires AtMostRunning(steps, k)
    ensures var s := Lived(steps);
      && s.failures <= 3 + k
      && (s.slept == if s.failures == 0 then 0 else if s.failures == 1 then 2 else if s.failures == 2 then 6 else 14)
      && (s.status == Error ==> s.failures > 3)
  {
    BudgetOverLife(steps, k);
    BackoffSums(Lived(steps).retryCount);
  }

  /** Once the budget is spent and nothing runs, nothing ever runs again. */
  lemma {:induction false} SpentBudgetIsFinal(s: Life, steps: seq<Step>)
    requires s.retryCount > MAX_RETRIES && s.running == {}
    ensures Continued(s, steps).running == {} && Continued(s, steps).failures == s.failures
    ensures Continued(s, steps).retryCount == s.retryCount
  {
    if steps != [] {
      SpentBudgetIsFinal(s, steps[..|steps| - 1]);
    }
  }

  function Continued(s: Life, steps: seq<Step>): Life {
    if steps == [] then s else Next(Continued(s, steps[..|steps| - 1]), steps[|steps| - 1])
  }

  /**
   `Error` survives any number of stops: with no `run()` under way, no start call asleep, and
   nobody starting, pausing or resuming the agent, the status never changes again.
   */
  lemma {:induction false} ErrorStays(s: Life, steps: seq<Step>)
    requires s.status == Error && s.running == {} && s.cooling == {} && s.pending == map[]
    requires forall i :: 0 <= i < |steps| ==> !steps[i].StartCall? && !steps[i].Pause? && !steps[i].Resume?
    ensures var s' := Continued(s, steps);
      s'.status == Error && s'.running == {} && s'.cooling == {} && s'.pending == map[]
  {
    if steps != [] {
      ErrorStays(s, steps[..|steps| - 1]);
    }
  }

  /** No main task exists and no start call sleeps. */
  predicate Hollow(s: Life) {
    s.ready == {} && s.running == {} && s.sleeping == {} && s.cooling == {} && s.pending == map[]
  }

  /** An agent that claims to run without a task stays as it is until it is stopped or paused. */
  lemma {:induction false} HollowStays(s: Life, steps: seq<Step>)
    requires s.status == Running && Hollow(s)
    requires forall i :: 0 <= i < |steps| ==> !steps[i].Stop? && !steps[i].Pause?
    ensures Continued(s, steps) == s
  {
    if steps != [] {
      HollowStays(s, steps[..|steps| - 1]);
    }
  }

  /**
   A hollow restart: starting an agent whose budget is spent, now or after its sleep, makes it
   `Running` with a task that ends at once; from then on, whatever is called other than stop or
   pause, and however often it is started, nothing changes and nothing runs.
   */
  lemma RestartAfterErrorIsHollow(s: Life, p: nat, now: real, at: real, later: seq<Step>)
    requires s.status == Error && s.retryCount > MAX_RETRIES && Hollow(s)
    requires at >= now + Wait(s.lastStart, now)
    requires forall i :: 0 <= i < |later| ==> !later[i].Stop? && !later[i].Pause?
    ensures var s2 := Next(Next(s, StartCall(p, now, at)), StartWakes(p, at));
      var s3 := Next(s2, LoopHead(|s.launches|));
      && s3.status == Running && Hollow(s3) && s3.launches == s.launches + [at]
      && Continued(s3, later) == s3
  {
    SerialStart(s, p, now, at);
    assert {} + {|s.launches|} - {|s.launches|} == {};
    HollowStays(Next(Launch(s, at), LoopHead(|s.launches|)), later);
  }

  /** Resuming an agent without a task, whatever its status, only makes it claim to run. */
  lemma ResumeIsHollow(s: Life, later: seq<Step>)
    requires Hollow(s) && forall i :: 0 <= i < |later| ==> !later[i].Stop? && !later[i].Pause?
    ensures Continued(Next(s, Resume), later) == s.(status := Running)
  {
    HollowStays(Next(s, Resume), later);
  }

  /** Until somebody starts or resumes it, a paused agent begins no new run. */
  lemma {:induction false} PausedBeginsNothing(s: Life, steps: seq<Step>)
    requires forall i :: 0 <= i < |steps| ==> !steps[i].StartCall? && !steps[i].StartWakes? && !steps[i].Resume?
    ensures var s' := Continued(Next(s, Pause), steps);
      s'.status != Running && s'.running <= s.running && s'.launches == s.launches
  {
    if steps != [] {
      PausedBeginsNothing(s, steps[..|steps| - 1]);
    }
  }

  // ---------------------------------------------------------- launches apart

  /** Start calls do not overlap: a call finds no other call asleep. */
  ghost predicate OneStartAtATime(steps: seq<Step>) {
    forall i :: 0 <= i < |steps| && steps[i].StartCall? ==> Lived(steps[..i]).pending == map[]
  }

  ghost predicate SpacingInv(s: Life) {
    && (s.lastStart.None? <==> s.launches == [])
    && (s.launches != [] ==> s.lastStart == Some(s.launches[|s.launches| - 1]))
    && (forall i :: 0 < i < |s.launches| ==> s.launches[i] - s.launches[i - 1] >= MIN_RESTART_INTERVAL)
    && (forall p :: p in s.pending ==> s.lastStart.Some? && s.pending[p] >= s.lastStart.value + MIN_RESTART_INTERVAL)
    && (forall p, q :: p in s.pending && q in s.pending ==> p == q)
  }

  /** A launch at least 30 seconds after the last one, with no other start call asleep. */
  lemma LaunchSpaced(s: Life, at: real)
    requires SpacingInv(s) && s.pending == map[]
    requires s.lastStart.Some? ==> at >= s.lastStart.value + MIN_RESTART_INTERVAL
    ensures SpacingInv(Launch(s, at))
  {
  }

  lemma SpacingStep(s: Life, step: Step)
    requires SpacingInv(s) && (step.StartCall? ==> s.pending == map[])
    ensures SpacingInv(Next(s, step))
  {
    if step.StartCall? {
      if Wait(s.lastStart, step.now) <= 0.0 && step.at >= step.now {
        LaunchSpaced(s, step.at);
      }
    } else if step.StartWakes? {
      if step.p in s.pending && step.at >= s.pending[step.p] {
        var awake := s.(pending := s.pending - {step.p});
        assert awake.pending == map[];
        LaunchSpaced(awake, step.at);
      }
    } else {
      OtherStepSpaced(s, step);
    }
  }

  lemma OtherStepSpaced(s: Life, step: Step)
    requires SpacingInv(s) && !step.StartCall? && !step.StartWakes?
    ensures SpacingInv(Next(s, step))
  {
  }

  /** With start calls that do not overlap, successive launches are at least 30 seconds apart. */
  lemma {:induction false} LaunchesApart(steps: seq<Step>)
    requires OneStartAtATime(steps)
    ensures SpacingInv(Lived(steps))
    ensures forall i :: 0 < i < |Lived(steps).launches| ==>
      Lived(steps).launches[i] - Lived(steps).launches[i - 1] >= 30.0
  {
    if steps != [] {
      var n := |steps| - 1;
      forall i | 0 <= i < n && steps[..n][i].StartCall? ensures Lived(steps[..n][..i]).pending == map[] {
        assert steps[..n][..i] == steps[..i];
      }
      LaunchesApart(steps[..n]);
      SpacingStep(Lived(steps[..n]), steps[n]);
    }
  }

  /** Two start calls that sleep at the same time launch two main tasks, with no distance between them. */
  lemma OverlappingStartsLaunchTwice(s: Life, p: nat, q: nat, now: real)
    requires s.status != Running && p != q && p !in s.pending && q !in s.pending
    requires Wait(s.lastStart, now) > 0.0
    ensures var s2 := Next(Next(s, StartCall(p, now, now)), StartCall(q, now, now));
      var wake := now + Wait(s.lastStart, now);
      var s4 := Next(Next(s2, StartWakes(p, wake)), StartWakes(q, wake));
      && s4.launches == s.launches + [wake, wake]
      && s4.ready == s.ready + {|s.launches|, |s.launches| + 1}
  {
  }
}
