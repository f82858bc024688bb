/**
 The queued LLM client: one worker answers requests in turn through a primary provider, and
 latches into a degraded mode after two failures in a row. The worker's loop has no end, so
 one of its iterations is a method, and another drains what is queued; arbitrary
 interleavings with callers are the subject of the step machine below them.
 */
module LlmQueue {
  import opened Options

  const FAILURE_THRESHOLD: nat := 2

  datatype Source = Primary | Degraded

  /** Who answered which request. */
  datatype Reply = Reply(id: nat, source: Source)

  class ClaudeClient {
    var queue: seq<nat>
    var degradedMode: bool
    var consecutiveFailures: nat

    /** Two failures in a row have always led to the degraded mode. */
    ghost predicate Valid()
      reads this
    {
      !degradedMode ==> consecutiveFailures < FAILURE_THRESHOLD
    }

    constructor ()
      ensures Valid() && queue == [] && !degradedMode && consecutiveFailures == 0
    {
      queue, degradedMode, consecutiveFailures := [], false, 0;
    }

    /**
     `complete`, up to waiting for the future. Without an API key there is nothing to wait for:
     the degraded provider answers at once, and the client stays degraded.
     */
    method Complete(id: nat, hasKey: bool) returns (reply: Option<Reply>)
      requires Valid()
      modifies this`queue, this`degradedMode
      ensures Valid()
      ensures hasKey ==> reply == None && queue == old(queue) + [id] && degradedMode == old(degradedMode)
      ensures !hasKey ==> reply == Some(Reply(id, Degraded)) && queue == old(queue) && degradedMode
    {
      if !hasKey {
        degradedMode := true;
        return Some(Reply(id, Degraded));
      }
      queue := queue + [id];
      return None;
    }

    /** One iteration of the worker loop; `ok` is how the primary provider fares if it is asked. */
    method ServeOne(ok: bool) returns (reply: Reply, asked: bool)
      requires Valid() && queue != []
      modifies this
      ensures Valid() && queue == old(queue)[1..] && reply.id == old(queue)[0]
      ensures asked <==> !old(degradedMode)
      ensures reply.source.Primary? <==> asked && ok
      ensures consecutiveFailures ==
        if !asked then old(consecutiveFailures) else if ok then 0 else old(consecutiveFailures) + 1
      ensures degradedMode <==> old(degradedMode) || (!ok && old(consecutiveFailures) + 1 >= FAILURE_THRESHOLD)
    {
      var request := queue[0];
      queue := queue[1..];
      if degradedMode {
        return Reply(request, Degraded), false;
      }
      if ok {
        consecutiveFailures := 0;
        return Reply(request, Primary), true;
      }
      consecutiveFailures := consecutiveFailures + 1;
      if consecutiveFailures >= FAILURE_THRESHOLD {
        degradedMode := true;
      }
      return Reply(request, Degraded), true;
    }

    /**
     Serve everything queued, taking up after the outcomes in `past`. The replies come in arrival
     order, one per request; the primary provider is asked until two of its answers in a row have
     failed, the last of `past` included, and not after that.
     */
    method Drain(oks: seq<bool>, ghost past: seq<bool>) returns (replies: seq<Reply>, outcomes: seq<bool>)
      requires Valid() && |oks| == |queue| && consecutiveFailures == Trailing(past)
      modifies this
      ensures Valid() && queue == [] && |replies| == |old(queue)|
      ensures Drained(old(queue), oks, past, replies, outcomes)
      ensures Follows(old(degradedMode), degradedMode, consecutiveFailures, past, outcomes)
      ensures !degradedMode ==> outcomes == oks
    {
      replies, outcomes := [], [];
      ghost var all := queue;
      StartFollows(degradedMode, consecutiveFailures, past);
      while queue != []
        invariant Valid()
        invariant Draining(all, oks, past, old(degradedMode), queue, degradedMode, consecutiveFailures,
                           replies, outcomes)
      {
        ghost var d, f, q := degradedMode, consecutiveFailures, queue;
        var ok := oks[|replies|];
        var reply, asked := ServeOne(ok);
        DrainStep(all, oks, past, old(degradedMode), q, d, f, replies, outcomes,
                  reply, degradedMode, consecutiveFailures);
        replies := replies + [reply];
        outcomes := if asked then outcomes + [ok] else outcomes;
      }
    }
  }

  /** Where `Drain` is after some requests. */
  ghost predicate Draining(all: seq<nat>, oks: seq<bool>, past: seq<bool>, was: bool, queue: seq<nat>,
                           degraded: bool, failures: nat, replies: seq<Reply>, outcomes: seq<bool>) {
    && |oks| == |all| && |replies| + |queue| == |all| && queue == all[|replies|..]
    && Drained(all, oks, past, replies, outcomes)
    && (!degraded ==> |outcomes| == |replies|)
    && Follows(was, degraded, failures, past, outcomes)
  }

  lemma DrainStep(all: seq<nat>, oks: seq<bool>, past: seq<bool>, was: bool, queue: seq<nat>,
                  degraded: bool, failures: nat, replies: seq<Reply>, outcomes: seq<bool>,
                  reply: Reply, degraded': bool, failures': nat)
    requires Draining(all, oks, past, was, queue, degraded, failures, replies, outcomes) && queue != []
    requires var ok := oks[|replies|];
      && reply.id == queue[0] && (reply.source.Primary? <==> !degraded && ok)
      && failures' == (if degraded then failures else if ok then 0 else failures + 1)
      && (degraded' <==> degraded || (!ok && failures + 1 >= FAILURE_THRESHOLD))
    ensures var now := if degraded then outcomes else outcomes + [oks[|replies|]];
      Draining(all, oks, past, was, queue[1..], degraded', failures', replies + [reply], now)
  {
    CallFollows(was, degraded, failures, past, outcomes, oks[|replies|]);
    DrainedSnoc(all, oks, past, replies, outcomes, reply, !degraded);
  }

  /**
   Replies in arrival order, one per request; the primary provider was asked as long as no two of
   its answers in a row had failed since the last one in `past`, and answered exactly where it was
   asked and did not fail.
   */
  ghost predicate Drained(all: seq<nat>, oks: seq<bool>, past: seq<bool>, replies: seq<Reply>, outcomes: seq<bool>) {
    && |replies| <= |all| && (forall i :: 0 <= i < |replies| ==> replies[i].id == all[i])
    && outcomes <= oks && |outcomes| <= |replies|
    && (forall n :: 0 <= n < |outcomes| ==> !EndsInTwoFailures(past + outcomes[..n]))
    && (forall i :: 0 <= i < |replies| ==> (replies[i].source.Primary? <==> i < |outcomes| && outcomes[i]))
  }

  lemma DrainedSnoc(all: seq<nat>, oks: seq<bool>, past: seq<bool>, replies: seq<Reply>, outcomes: seq<bool>,
                    reply: Reply, asked: bool)
    requires Drained(all, oks, past, replies, outcomes) && |replies| < |all| == |oks|
    requires reply.id == all[|replies|]
    requires asked ==> |outcomes| == |replies| && !EndsInTwoFailures(past + outcomes)
    requires reply.source.Primary? <==> asked && oks[|replies|]
    ensures Drained(all, oks, past, replies + [reply], if asked then outcomes + [oks[|replies|]] else outcomes)
  {
    if asked {
      var outcomes' := outcomes + [oks[|replies|]];
      forall n | 0 <= n < |outcomes'| ensures !EndsInTwoFailures(past + outcomes'[..n]) {
        if n == |outcomes| {
          assert outcomes'[..n] == outcomes;
        } else {
          assert outcomes'[..n] == outcomes[..n];
        }
      }
    }
  }

  /** The mode and the count of failures, as the outcomes since `past` leave them. */
  ghost predicate Follows(was: bool, degraded: bool, failures: nat, past: seq<bool>, outcomes: seq<bool>) {
    && failures == Trailing(past + outcomes)
    && (was ==> degraded && outcomes == [])
    && (!was ==> (degraded <==> EndsInTwoFailures(past + outcomes)))
  }

  lemma StartFollows(degraded: bool, failures: nat, past: seq<bool>)
    requires failures == Trailing(past) && (!degraded ==> failures < FAILURE_THRESHOLD)
    ensures Follows(degraded, degraded, failures, past, [])
  {
    assert past + [] == past;
  }

  lemma CallFollows(was: bool, degraded: bool, failures: nat, past: seq<bool>, outcomes: seq<bool>, ok: bool)
    requires Follows(was, degraded, failures, past, outcomes)
    ensures !degraded && ok ==> Follows(was, false, 0, past, outcomes + [ok])
    ensures !degraded && !ok ==>
      Follows(was, failures + 1 >= FAILURE_THRESHOLD, failures + 1, past, outcomes + [ok])
    ensures !degraded ==> !EndsInTwoFailures(past + outcomes)
  {
    TrailingSnoc(past + outcomes, ok);
    assert past + (outcomes + [ok]) == past + outcomes + [ok];
  }

  predicate EndsInTwoFailures(outcomes: seq<bool>) {
    |outcomes| >= 2 && !outcomes[|outcomes| - 1] && !outcomes[|outcomes| - 2]
  }

  /** How many of the latest outcomes failed in a row. */
  function Trailing(outcomes: seq<bool>): nat {
    if outcomes == [] || outcomes[|outcomes| - 1] then 0 else 1 + Trailing(outcomes[..|outcomes| - 1])
  }

  lemma TrailingSnoc(outcomes: seq<bool>, ok: bool)
    ensures Trailing(outcomes + [ok]) == if ok then 0 else Trailing(outcomes) + 1
    ensures EndsInTwoFailures(outcomes + [ok]) <==> !ok && Trailing(outcomes) >= 1
  {
    assert (outcomes + [ok])[..|outcomes|] == outcomes;
  }

  // --------------------------------------------------------------- interleavings

  /** `arrived`, `served` and `answered` record the run; `settled` are the futures that are done. */
  datatype Client = Client(
    queue: seq<nat>, inFlight: Option<nat>, degraded: bool, failures: nat,
    arrived: seq<nat>, served: seq<nat>, answered: seq<Reply>, settled: set<nat>, outcomes: seq<bool>)

  datatype Step =
    | Arrive(id: nat)          // a caller with an API key queues a request
    | Take                     // the idle worker takes the next request
    | Finish(ok: bool)         // the provider has answered the worker
    | Abandon(id: nat)         // the caller's future is cancelled

  function Fresh(): Client {
    Client([], None, false, 0, [], [], [], {}, [])
  }

  /** `if not future.done(): future.set_result(...)` */
  function Settle(s: Client, reply: Reply): Client {
    var served := s.(inFlight := None, served := s.served + [reply.id]);
    if reply.id in s.settled then served
    else served.(answered := s.answered + [reply], settled := s.settled + {reply.id})
  }

  function Next(s: Client, step: Step): Client {
    match step
    case Arrive(id) =>
      if id in s.arrived then s else s.(queue := s.queue + [id], arrived := s.arrived + [id])
    case Take =>
      if s.inFlight.None? && s.queue != [] then s.(inFlight := Some(s.queue[0]), queue := s.queue[1..]) else s
    case Finish(ok) =>
      if s.inFlight.None? then s
      else if s.degraded then Settle(s, Reply(s.inFlight.value, Degraded))
      else if ok then Settle(s.(failures := 0, outcomes := s.outcomes + [ok]), Reply(s.inFlight.value, Primary))
      else
        var n := s.failures + 1;
        Settle(s.(failures := n, degraded := n >= FAILURE_THRESHOLD, outcomes := s.outcomes + [ok]),
               Reply(s.inFlight.value, Degraded))
    case Abandon(id) => if id in s.arrived then s.(settled := s.settled + {id}) else s
  }

  /** Taking and finishing a request, with nobody in between, is `ClaudeClient.ServeOne`. */
  lemma SerialServe(s: Client, ok: bool)
    requires s.inFlight.None? && s.queue != []
    ensures var s', id := Next(Next(s, Take), Finish(ok)), s.queue[0];
      var reply := Reply(id, if !s.degraded && ok then Primary else Degraded);
      && s'.inFlight.None? && s'.queue == s.queue[1..] && s'.served == s.served + [id]
      && s'.answered == (if id in s.settled then s.answered else s.answered + [reply])
      && s'.outcomes == (if s.degraded then s.outcomes else s.outcomes + [ok])
      && s'.failures == (if s.degraded then s.failures else if ok then 0 else s.failures + 1)
      && (s'.degraded <==> s.degraded || (!ok && s.failures + 1 >= FAILURE_THRESHOLD))
  {
  }

  function Run(steps: seq<Step>): Client {
    if steps == [] then Fresh() else Next(Run(steps[..|steps| - 1]), steps[|steps| - 1])
  }

  function Pending(s: Client): seq<nat> {
    if s.inFlight.Some? then [s.inFlight.value] else []
  }

  ghost predicate Distinct(ids: seq<nat>) {
    forall i, j :: 0 <= i < j < |ids| ==> ids[i] != ids[j]
  }

  /** Requests are served in arrival order, and none is lost or repeated. */
  ghost predicate OrderInv(s: Client) {
    s.arrived == s.served + Pending(s) + s.queue && Distinct(s.arrived)
  }

  /** Answers are given to served requests, in the order of service, each future once. */
  ghost predicate AnswerInv(s: Client) {
    && (forall i :: 0 <= i < |s.answered| ==> s.answered[i].id in s.served && s.answered[i].id in s.settled)
    && (forall i :: 0 <= i < |s.served| ==> s.served[i] in s.settled)
    && (forall i, j :: 0 <= i < j < |s.answered| ==> ServedBefore(s.served, s.answered[i].id, s.answered[j].id))
  }

  ghost predicate ServedBefore(served: seq<nat>, x: nat, y: nat) {
    exists m, n :: 0 <= m < n < |served| && served[m] == x && served[n] == y
  }

  ghost predicate AdjacentFailures(outcomes: seq<bool>) {
    exists i :: 0 < i < |outcomes| && !outcomes[i - 1] && !outcomes[i]
  }

  /** Degraded exactly when the primary outcomes end, for good, in their first two adjacent failures. */
  ghost predicate ModeOk(outcomes: seq<bool>, failures: nat, degraded: bool) {
    && failures == Trailing(outcomes)
    && (degraded <==> EndsInTwoFailures(outcomes))
    && (degraded <==> AdjacentFailures(outcomes))
  }

  ghost predicate ModeInv(s: Client) {
    ModeOk(s.outcomes, s.failures, s.degraded)
  }

  /** One more outcome after none adjacent failed: two do now exactly if they are the last two. */
  lemma AdjacentSnoc(outcomes: seq<bool>, ok: bool)
    requires !AdjacentFailures(outcomes)
    ensures AdjacentFailures(outcomes + [ok]) <==> EndsInTwoFailures(outcomes + [ok])
  {
    var all := outcomes + [ok];
    forall i | 0 < i < |outcomes| ensures all[i - 1] || all[i] {
      assert outcomes[i - 1] || outcomes[i];
    }
    if EndsInTwoFailures(all) {
      assert !all[|outcomes| - 1] && !all[|outcomes|];
    }
  }

  /** One primary call later. */
  lemma ModeAfterCall(outcomes: seq<bool>, failures: nat, ok: bool)
    requires ModeOk(outcomes, failures, false)
    ensures ok ==> ModeOk(outcomes + [ok], 0, false)
    ensures !ok ==> ModeOk(outcomes + [ok], failures + 1, failures + 1 >= FAILURE_THRESHOLD)
  {
    TrailingSnoc(outcomes, ok);
    AdjacentSnoc(outcomes, ok);
  }

  /** Only an answer of the primary provider touches the mode. */
  lemma ModeFields(s: Client, step: Step)
    ensures var s' := Next(s, step);
      if step.Finish? && s.inFlight.Some? && !s.degraded then
        && s'.outcomes == s.outcomes + [step.ok]
        && s'.failures == (if step.ok then 0 else s.failures + 1)
        && s'.degraded == (!step.ok && s.failures + 1 >= FAILURE_THRESHOLD)
      else s'.outcomes == s.outcomes && s'.failures == s.failures && s'.degraded == s.degraded
  {
  }

  lemma ModeStep(s: Client, step: Step)
    requires ModeInv(s)
    ensures ModeInv(Next(s, step))
  {
    ModeFields(s, step);
    if step.Finish? && s.inFlight.Some? && !s.degraded {
      ModeAfterCall(s.outcomes, s.failures, step.ok);
    }
  }

  /** Moving a request from the queue into service, or from service to served, keeps the order. */
  lemma MoveOne(a: seq<nat>, x: nat, b: seq<nat>)
    ensures a + [] + ([x] + b) == a + [x] + b == (a + [x]) + [] + b
  {
  }

  lemma OrderStep(s: Client, step: Step)
    requires OrderInv(s)
    ensures OrderInv(Next(s, step))
  {
    if step.Take? && s.inFlight.None? && s.queue != [] {
      assert s.queue == [s.queue[0]] + s.queue[1..];
      MoveOne(s.served, s.queue[0], s.queue[1..]);
    } else if step.Finish? && s.inFlight.Some? {
      MoveOne(s.served, s.inFlight.value, s.queue);
      assert Next(s, step).served == s.served + [s.inFlight.value];
    } else if step.Arrive? && step.id !in s.arrived {
      assert s.served + Pending(s) + (s.queue + [step.id]) == s.arrived + [step.id];
    }
  }

  lemma ServedBeforeSnoc(served: seq<nat>, x: nat, y: nat, z: nat)
    ensures ServedBefore(served, x, y) ==> ServedBefore(served + [z], x, y)
    ensures x in served ==> ServedBefore(served + [z], x, z)
  {
    var all := served + [z];
    if ServedBefore(served, x, y) {
      var m, n :| 0 <= m < n < |served| && served[m] == x && served[n] == y;
      assert all[m] == x && all[n] == y;
    }
    if x in served {
      var m :| 0 <= m < |served| && served[m] == x;
      assert all[m] == x && all[|served|] == z;
    }
  }

  lemma SettleKeepsAnswers(s: Client, reply: Reply)
    requires AnswerInv(s)
    ensures AnswerInv(Settle(s, reply))
  {
    var s' := Settle(s, reply);
    forall i, j | 0 <= i < j < |s'.answered|
      ensures ServedBefore(s'.served, s'.answered[i].id, s'.answered[j].id)
    {
      ServedBeforeSnoc(s.served, s'.answered[i].id, s'.answered[j].id, reply.id);
    }
  }

  lemma AnswerStep(s: Client, step: Step)
    requires AnswerInv(s)
    ensures AnswerInv(Next(s, step))
  {
    if step.Finish? && s.inFlight.Some? {
      var id := s.inFlight.value;
      if s.degraded {
        SettleKeepsAnswers(s, Reply(id, Degraded));
      } else if step.ok {
        SettleKeepsAnswers(s.(failures := 0, outcomes := s.outcomes + [step.ok]), Reply(id, Primary));
      } else {
        var n := s.failures + 1;
        SettleKeepsAnswers(s.(failures := n, degraded := n >= FAILURE_THRESHOLD, outcomes := s.outcomes + [step.ok]),
                           Reply(id, Degraded));
      }
    }
  }

  /**
   Who answered: the request served as number `k` went to the primary provider exactly when
   there is an outcome number `k`, and was answered by it exactly when that outcome is a success.
   */
  ghost predicate SourceInv(s: Client) {
    && |s.outcomes| <= |s.served| && (!s.degraded ==> |s.outcomes| == |s.served|)
    && (forall i, k :: 0 <= i < |s.answered| && 0 <= k < |s.served| && s.answered[i].id == s.served[k] ==>
          (s.answered[i].source.Primary? <==> k < |s.outcomes| && s.outcomes[k]))
  }

  /** A request served just now has not been served before. */
  lemma InFlightIsNew(s: Client)
    requires OrderInv(s) && s.inFlight.Some?
    ensures s.inFlight.value !in s.served
  {
    assert s.arrived[|s.served|] == s.inFlight.value;
    assert forall k :: 0 <= k < |s.served| ==> s.arrived[k] == s.served[k];
  }

  lemma SourceSettled(s: Client, t: Client, reply: Reply)
    requires AnswerInv(s) && SourceInv(s) && reply.id !in s.served
    requires t.served == s.served && t.answered == s.answered && t.settled == s.settled
    requires s.outcomes <= t.outcomes
    requires if s.degraded then t.outcomes == s.outcomes && t.degraded else |t.outcomes| == |s.served| + 1
    requires reply.source.Primary? <==> |s.served| < |t.outcomes| && t.outcomes[|s.served|]
    ensures SourceInv(Settle(t, reply))
  {
    var s' := Settle(t, reply);
    assert forall m :: 0 <= m < |s.served| ==> s'.served[m] in s.served;
    forall i, k | 0 <= i < |s'.answered| && 0 <= k < |s'.served| && s'.answered[i].id == s'.served[k]
      ensures s'.answered[i].source.Primary? <==> k < |s'.outcomes| && s'.outcomes[k]
    {
      if i < |s.answered| {
        assert s.answered[i].id in s.served;
        assert k < |s.served| && s.served[k] == s.answered[i].id;
      }
    }
  }

  lemma SourceStep(s: Client, step: Step)
    requires OrderInv(s) && AnswerInv(s) && SourceInv(s)
    ensures SourceInv(Next(s, step))
  {
    if step.Finish? && s.inFlight.Some? {
      var id, ok := s.inFlight.value, step.ok;
      InFlightIsNew(s);
      if s.degraded {
        SourceSettled(s, s, Reply(id, Degraded));
      } else if ok {
        SourceSettled(s, s.(failures := 0, outcomes := s.outcomes + [ok]), Reply(id, Primary));
      } else {
        var n := s.failures + 1;
        SourceSettled(s, s.(failures := n, degraded := n >= FAILURE_THRESHOLD, outcomes := s.outcomes + [ok]),
                      Reply(id, Degraded));
      }
    }
  }

  predicate Answered(s: Client, id: nat) {
    id in Ids(s.answered)
  }

  ghost predicate Abandoned(steps: seq<Step>, id: nat) {
    Abandon(id) in steps
  }

  /** A future is done only because the worker set it or its caller gave it up. */
  ghost predicate SettledBy(s: Client, steps: seq<Step>) {
    forall id :: id in s.settled ==> Answered(s, id) || Abandoned(steps, id)
  }

  lemma SettledAfter(s: Client, reply: Reply, id: nat)
    ensures id in Settle(s, reply).settled <==> id in s.settled || id == reply.id
    ensures Answered(Settle(s, reply), id) <==> Answered(s, id) || (id == reply.id && id !in s.settled)
    ensures reply.id !in s.settled ==> Ids(Settle(s, reply).answered) == Ids(s.answered) + [reply.id]
  {
    if reply.id !in s.settled {
      assert Ids(s.answered + [reply]) == Ids(s.answered) + [reply.id];
    }
  }

  /** What finishing does to the futures, whoever answers. */
  lemma FinishSettles(s: Client, ok: bool) returns (t: Client, reply: Reply)
    requires s.inFlight.Some?
    ensures Next(s, Finish(ok)) == Settle(t, reply)
    ensures reply.id == s.inFlight.value && t.settled == s.settled && t.answered == s.answered && t.served == s.served
  {
    var id, n := s.inFlight.value, s.failures + 1;
    reply := Reply(id, if !s.degraded && ok then Primary else Degraded);
    t := if s.degraded then s
         else if ok then s.(failures := 0, outcomes := s.outcomes + [ok])
         else s.(failures := n, degraded := n >= FAILURE_THRESHOLD, outcomes := s.outcomes + [ok]);
  }

  lemma SettledStep(s: Client, steps: seq<Step>, step: Step)
    requires SettledBy(s, steps)
    ensures SettledBy(Next(s, step), steps + [step])
  {
    var s', all := Next(s, step), steps + [step];
    forall id | id in s'.settled ensures Answered(s', id) || Abandoned(all, id) {
      assert Abandoned(steps, id) ==> Abandoned(all, id);
      if step.Finish? && s.inFlight.Some? {
        var t, reply := FinishSettles(s, step.ok);
        SettledAfter(t, reply, id);
      } else if id !in s.settled {
        assert step == Abandon(id) && all[|steps|] == step;
      }
    }
  }

  /**
   In every run: requests are served in arrival order, none lost; a future is done only because
   the worker set it or its caller gave it up; the primary provider answers exactly the requests
   whose call to it succeeded; and the degraded mode holds exactly when two adjacent primary
   calls have failed, of which there are none later.
   */
  lemma {:induction false} EveryRun(steps: seq<Step>)
    ensures OrderInv(Run(steps)) && AnswerInv(Run(steps)) && ModeInv(Run(steps))
    ensures SourceInv(Run(steps)) && SettledBy(Run(steps), steps)
  {
    if steps != [] {
      var init, step := steps[..|steps| - 1], steps[|steps| - 1];
      var s := Run(init);
      EveryRun(init);
      OrderStep(s, step);
      AnswerStep(s, step);
      ModeStep(s, step);
      SourceStep(s, step);
      SettledStep(s, init, step);
      assert init + [step] == steps;
    }
  }

  lemma AnsweredAtMostOnce(steps: seq<Step>)
    ensures Distinct(Ids(Run(steps).answered))
  {
    EveryRun(steps);
    var s := Run(steps);
    forall i, j | 0 <= i < j < |s.answered| ensures s.answered[i].id != s.answered[j].id {
      assert ServedBefore(s.served, s.answered[i].id, s.answered[j].id);
      var m, n :| 0 <= m < n < |s.served| && s.served[m] == s.answered[i].id && s.served[n] == s.answered[j].id;
      assert s.arrived[m] == s.served[m] && s.arrived[n] == s.served[n];
    }
  }

  /**
   Every future is set exactly once: no request is answered twice, and each request that was
   served and never given up is answered.
   */
  lemma AnsweredOnce(steps: seq<Step>)
    ensures Distinct(Ids(Run(steps).answered))
    ensures forall id :: id in Run(steps).served && !Abandoned(steps, id) ==>
      multiset(Ids(Run(steps).answered))[id] == 1
    ensures forall id :: id in Ids(Run(steps).answered) ==> id in Run(steps).served
  {
    EveryRun(steps);
    AnsweredAtMostOnce(steps);
    var s := Run(steps);
    forall id | id in s.served && !Abandoned(steps, id) ensures multiset(Ids(s.answered))[id] == 1 {
      assert Answered(s, id);
      OccursOnce(Ids(s.answered), id);
    }
  }

  /** A request given up before it is answered is served in its turn and never answered. */
  lemma {:induction false} AbandonedUnanswered(s: Client, id: nat, later: seq<Step>)
    requires id in s.arrived && !Answered(s, id)
    ensures var s' := Continued(Next(s, Abandon(id)), later);
      id in s'.settled && !Answered(s', id)
  {
    if later != [] {
      var init := later[..|later| - 1];
      AbandonedUnanswered(s, id, init);
      SettledStays(Continued(Next(s, Abandon(id)), init), id, later[|later| - 1]);
    }
  }

  lemma SettledStays(s: Client, id: nat, step: Step)
    requires id in s.settled && !Answered(s, id)
    ensures id in Next(s, step).settled && !Answered(Next(s, step), id)
  {
    if step.Finish? && s.inFlight.Some? {
      var t, reply := FinishSettles(s, step.ok);
      SettledAfter(t, reply, id);
    }
  }

  lemma {:induction false} OccursOnce(ids: seq<nat>, id: nat)
    requires Distinct(ids)
    ensures multiset(ids)[id] == if id in ids then 1 else 0
  {
    if ids != [] {
      var init := ids[..|ids| - 1];
      OccursOnce(init, id);
      assert ids == init + [ids[|ids| - 1]];
    }
  }

  /** A step that gives nothing up serves and answers together. */
  lemma ServedStep(s: Client, steps: seq<Step>, step: Step)
    requires OrderInv(s) && SettledBy(s, steps) && Ids(s.answered) == s.served
    requires forall id :: !Abandoned(steps, id)
    ensures Ids(Next(s, step).answered) == Next(s, step).served
  {
    if step.Finish? && s.inFlight.Some? {
      var id := s.inFlight.value;
      InFlightIsNew(s);
      assert id !in s.settled by {
        assert !Abandoned(steps, id);
      }
      var t, reply := FinishSettles(s, step.ok);
      SettledAfter(t, reply, id);
    }
  }

  /** When no caller gives up, the answers are the served requests, in order. */
  lemma {:induction false} AnswersAreTheServed(steps: seq<Step>)
    requires forall id :: !Abandoned(steps, id)
    ensures Ids(Run(steps).answered) == Run(steps).served
  {
    if steps == [] {
      assert Ids(Fresh().answered) == [];
    } else {
      var init := steps[..|steps| - 1];
      forall id ensures !Abandoned(init, id) {
        assert Abandoned(init, id) ==> Abandoned(steps, id);
      }
      EveryRun(init);
      AnswersAreTheServed(init);
      ServedStep(Run(init), init, steps[|steps| - 1]);
    }
  }

  function Ids(replies: seq<Reply>): seq<nat> {
    seq(|replies|, i requires 0 <= i < |replies| => replies[i].id)
  }

  function Continued(s: Client, steps: seq<Step>): Client {
    if steps == [] then s else Next(Continued(s, steps[..|steps| - 1]), steps[|steps| - 1])
  }

  /** The degraded mode never clears, and no primary call is made in it. */
  lemma {:induction false} DegradedForGood(s: Client, steps: seq<Step>)
    requires s.degraded
    ensures Continued(s, steps).degraded && Continued(s, steps).outcomes == s.outcomes
  {
    if steps != [] {
      DegradedForGood(s, steps[..|steps| - 1]);
    }
  }
}
