/** The retry loop and the status changes of one agent, run on their own. */
module AgentLifecycle {
  import opened Options

  const MAX_RETRIES: nat := 3
  const MIN_RUN_DURATION: real := 60.0
  const MIN_RESTART_INTERVAL: real := 30.0

  datatype Status = Stopped | Running | Paused | Error

  function Power2(n: nat): nat {
    if n == 0 then 1 else 2 * Power2(n - 1)
  }

  /** The seconds slept after failures number 1 to `n`. */
  function Backoffs(n: nat): nat {
    if n == 0 then 0 else Backoffs(n - 1) + Power2(n)
  }

  function Capped(n: nat): nat {
    if n <= MAX_RETRIES then n else MAX_RETRIES
  }

  lemma {:induction false} BackoffSums(n: nat)
    ensures Backoffs(Capped(n)) == if n == 0 then 0 else if n == 1 then 2 else if n == 2 then 6 else 14
  {
    assert Backoffs(1) == 2 && Backoffs(2) == 6 && Backoffs(3) == 14;
  }

  /**
   How one `run()` ends, and what other callers set the status to meanwhile. A sleep that is
   cancelled ends its main task.
   */
  datatype Attempt =
    | Fails(during: Option<Status>, sleepCancelled: bool)
    | Succeeds(during: Option<Status>, elapsed: real, padCancelled: bool)
    | Cancelled

  lemma NextBackoff(n: nat)
    ensures Backoffs(Capped(n + 1)) == Backoffs(Capped(n)) + if n + 1 <= MAX_RETRIES then Power2(n + 1) else 0
  {
  }

  /** The status of a running agent after what others set it to meanwhile. */
  function Meanwhile(during: Option<Status>): Status {
    if during.Some? then during.value else Running
  }

  /** Somebody else set the status to `Error` during one of the runs. */
  ghost predicate SetToError(attempts: nat -> Attempt, runs: nat) {
    exists i :: 0 <= i < runs && !attempts(i).Cancelled? && attempts(i).during == Some(Error)
  }

  /** The run failed, and nothing else ended the retrying. */
  predicate GoesOn(attempt: Attempt) {
    attempt.Fails? && !attempt.sleepCancelled && Meanwhile(attempt.during) == Running
  }

  /** Where the last of some runs leaves the status, with `r` failures counted by then. */
  function StatusAfter(attempt: Attempt, r: nat): Status {
    match attempt
    case Cancelled => Running
    case Succeeds(during, elapsed, padCancelled) =>
      if elapsed < 60.0 && padCancelled then Meanwhile(during) else Stopped
    case Fails(during, _) => if r <= 3 then Meanwhile(during) else Error
  }

  /** Every run but the last one failed and was retried; the last one says how it all ended. */
  ghost predicate Unfolds(attempts: nat -> Attempt, failures: nat, runs: nat, r: nat, s: Status) {
    && (forall i :: 0 <= i < runs - 1 ==> GoesOn(attempts(i)))
    && (runs > 0 ==>
          && s == StatusAfter(attempts(runs - 1), r)
          && failures == if attempts(runs - 1).Fails? then runs else runs - 1)
  }

  lemma UnfoldsStep(attempts: nat -> Attempt, runs: nat, r: nat, failures': nat, r': nat, s': Status)
    requires Unfolds(attempts, runs, runs, r, Running) && r <= MAX_RETRIES
    requires runs > 0 ==> attempts(runs - 1).Fails? && !attempts(runs - 1).sleepCancelled
    requires s' == StatusAfter(attempts(runs), r')
    requires failures' == runs + if attempts(runs).Fails? then 1 else 0
    ensures Unfolds(attempts, failures', runs + 1, r', s')
  {
    assert runs > 0 ==> GoesOn(attempts(runs - 1));
  }

  /** An agent that ends in `Error` has spent its budget, or somebody else has put it there. */
  lemma ErrorCause(attempts: nat -> Attempt, failures: nat, runs: nat, r: nat, s: Status)
    requires Unfolds(attempts, failures, runs, r, s) && runs > 0
    ensures s == Error ==> r > 3 || SetToError(attempts, runs)
  {
    if s == Error && r <= 3 {
      assert !attempts(runs - 1).Cancelled? && attempts(runs - 1).during == Some(Error);
    }
  }

  /**
   The retry loop from the retry count `r0` and the status `s0`: every failure is counted and, within
   the budget, followed by its own backoff.
   */
  ghost predicate Retried(attempts: nat -> Attempt, r0: nat, s0: Status, r: nat, s: Status,
                          failures: nat, slept: nat, runs: nat) {
    && r == r0 + failures && failures <= runs <= failures + 1
    && (r0 <= 4 ==> r <= 4)
    && (runs == 0 ==> s == s0)
    && (runs > 0 ==> r0 <= 3 && s0 == Running)
    && (runs > 0 && s == Error ==> r > 3 || SetToError(attempts, runs))
    && Unfolds(attempts, failures, runs, r, s)
    && Backoffs(Capped(r0)) + slept == Backoffs(Capped(r))
  }

  lemma RetriedStep(attempts: nat -> Attempt, r0: nat, s0: Status, r: nat, slept: nat, runs: nat,
                    r': nat, s': Status, pause: nat)
    requires Retried(attempts, r0, s0, r, Running, runs, slept, runs) && r <= MAX_RETRIES
    requires runs > 0 ==> attempts(runs - 1).Fails? && !attempts(runs - 1).sleepCancelled
    requires r' == r + if attempts(runs).Fails? then 1 else 0
    requires s' == StatusAfter(attempts(runs), r')
    requires pause == if attempts(runs).Fails? && r' <= MAX_RETRIES then Power2(r') else 0
    ensures Retried(attempts, r0, s0, r', s', runs + (r' - r), slept + pause, runs + 1)
  {
    NextBackoff(r);
    UnfoldsStep(attempts, runs, r, runs + (r' - r), r', s');
    ErrorCause(attempts, runs + (r' - r), runs + 1, r', s');
  }

  class BaseAgent {
    var status: Status
    var retryCount: nat
    var lastStartTime: Option<real>
    var heartbeatTask: Option<nat>
    var mainTask: Option<nat>
    var created: nat                 // tasks are numbered in the order they are created

    constructor ()
      ensures status == Stopped && retryCount == 0 && lastStartTime == None
      ensures heartbeatTask == None && mainTask == None && created == 0
    {
      status, retryCount, lastStartTime := Stopped, 0, None;
      heartbeatTask, mainTask, created := None, None, 0;
    }

    /** One turn of the retry loop: whether it goes on, whether `run()` failed, and for how long it slept. */
    method RunOnce(attempt: Attempt) returns (again: bool, failed: bool, pause: nat)
      requires retryCount <= MAX_RETRIES && status == Running
      modifies this`status, this`retryCount
      ensures failed <==> attempt.Fails?
      ensures retryCount == old(retryCount) + if failed then 1 else 0
      ensures pause == if failed && retryCount <= MAX_RETRIES then Power2(retryCount) else 0
      ensures again <==> attempt.Fails? && retryCount <= MAX_RETRIES && !attempt.sleepCancelled
      ensures failed && retryCount <= 3 ==> pause == if retryCount == 1 then 2 else if retryCount == 2 then 4 else 8
      ensures status == StatusAfter(attempt, retryCount)
    {
      again, failed, pause := false, false, 0;
      match attempt {
        case Cancelled =>
        case Succeeds(during, elapsed, padCancelled) =>
          status := Meanwhile(during);
          if elapsed < MIN_RUN_DURATION && padCancelled {
            return;
          }
          status := Stopped;
        case Fails(during, sleepCancelled) =>
          status := Meanwhile(during);
          retryCount := retryCount + 1;
          failed := true;
          if retryCount <= MAX_RETRIES {
            pause := Power2(retryCount);
            again := !sleepCancelled;
          } else {
            status := Error;
          }
      }
    }

    /**
     `_run_with_retry` against any sequence of attempts. It stops on the retry budget that is
     left: at most `MAX_RETRIES + 1 - retryCount` failures, each followed by its own backoff,
     and it ends in `Error` only when the budget is spent.
     */
    method RunWithRetry(attempts: nat -> Attempt) returns (failures: nat, slept: nat, runs: nat)
      modifies this`status, this`retryCount
      ensures Retried(attempts, old(retryCount), old(status), retryCount, status, failures, slept, runs)
      ensures old(retryCount) <= 3 && old(status) == Running ==> runs > 0
      ensures runs > 0 && GoesOn(attempts(runs - 1)) ==> retryCount > 3
    {
      failures, slept, runs := 0, 0, 0;
      while retryCount <= MAX_RETRIES && status == Running
        invariant Retried(attempts, old(retryCount), old(status), retryCount, status, failures, slept, runs)
        invariant runs == failures && (runs > 0 ==> attempts(runs - 1).Fails? && !attempts(runs - 1).sleepCancelled)
        decreases MAX_RETRIES + 1 - retryCount
      {
        ghost var r := retryCount;
        var again, failed, pause := RunOnce(attempts(runs));
        RetriedStep(attempts, old(retryCount), old(status), r, slept, runs, retryCount, status, pause);
        runs := runs + 1;
        slept := slept + pause;
        failures := failures + if failed then 1 else 0;
        if !again {
          return;
        }
      }
    }

    /**
     `start`, called at `now`. It does nothing for a running agent; otherwise it sleeps until 30
     seconds after the last launch and creates two tasks. `delay` is by how much the launch comes
     later than asked; a sleep never ends early.
     */
    method Start(now: real, delay: real) returns (launched: bool)
      requires delay >= 0.0
      modifies this`status, this`lastStartTime, this`heartbeatTask, this`mainTask, this`created
      ensures launched <==> old(status) != Running
      ensures status == Running
      ensures launched ==>
        && lastStartTime.Some? && lastStartTime.value == now + Wait(old(lastStartTime), now) + delay
        && (old(lastStartTime).Some? ==> lastStartTime.value - old(lastStartTime).value >= 30.0)
        && (lastStartTime.value - delay != now ==>
              old(lastStartTime).Some? && lastStartTime.value - delay == old(lastStartTime).value + 30.0 > now)
        && heartbeatTask == Some(old(created)) && mainTask == Some(old(created) + 1) && created == old(created) + 2
      ensures !launched ==>
        && lastStartTime == old(lastStartTime)
        && heartbeatTask == old(heartbeatTask) && mainTask == old(mainTask) && created == old(created)
    {
      if status == Running {
        return false;
      }
      var at := now;
      if lastStartTime.Some? {
        var elapsed := now - lastStartTime.value;
        if elapsed < MIN_RESTART_INTERVAL {
          at := at + (MIN_RESTART_INTERVAL - elapsed);
        }
      }
      status := Running;
      heartbeatTask, mainTask := Some(created), Some(created + 1);
      created := created + 2;
      lastStartTime := Some(at + delay);
      return true;
    }

    /** The tasks that `stop` looks at. */
    function Tasks(): set<nat>
      reads this
    {
      (if heartbeatTask.Some? then {heartbeatTask.value} else {}) + (if mainTask.Some? then {mainTask.value} else {})
    }

    /** `stop`: cancel the two tasks, unless they are done, and forget them. */
    method Stop(done: set<nat>) returns (cancelled: set<nat>)
      modifies this`status, this`heartbeatTask, this`mainTask
      ensures status == if old(status) == Error then Error else Stopped
      ensures cancelled == old(Tasks()) - done
      ensures heartbeatTask == None && mainTask == None
    {
      if status != Error {
        status := Stopped;
      }
      cancelled := Tasks() - done;
      heartbeatTask, mainTask := None, None;
    }

    method Pause()
      modifies this`status
      ensures status == Paused
    {
      status := Paused;
    }

    method Resume()
      modifies this`status
      ensures status == Running
    {
      status := Running;
    }
  }

  /** The sleep that keeps launches 30 seconds apart. */
  function Wait(lastStart: Option<real>, now: real): real {
    if lastStart.Some? && now - lastStart.value < MIN_RESTART_INTERVAL
    then MIN_RESTART_INTERVAL - (now - lastStart.value)
    else 0.0
  }
}
