/**
 Waiting for a transaction to be confirmed: a timer, a websocket callback and REST polls race to settle one promise.

 A shared flag `done` stops the polls and disarms the timer. The websocket callback does not look at it. If setting up
 the websocket throws, the flag is set although nothing was settled.
 */
module Confirmation {
  import opened Prelude

  datatype Verdict = TimedOut | WsConfirmed | WsFailed | RestConfirmed | RestFailed

  /** What a REST poll learns. */
  datatype Status = Unknown | Failed | Unconfirmed | Confirmed | PollThrew

  datatype Setup = Pending | Listening | Threw

  /** `calls` counts the calls of resolve and reject, of which only the first has an effect. `inFlight` polls are
      waiting for their answer. */
  datatype State = State(setup: Setup, done: bool, settled: Option<Verdict>, calls: nat, timerFired: bool,
                         inFlight: nat)

  const START := State(Pending, false, None, 0, false, 0)

  datatype Step =
    | SetUp(throws: bool)
    | Timer
    | WsCallback(failed: bool)
    | StartPoll
    | PollAnswer(status: Status)

  function Settle(s: State, v: Verdict): State {
    s.(done := true, settled := if s.settled.None? then Some(v) else s.settled, calls := s.calls + 1)
  }

  function AfterPoll(s: State, status: Status): State {
    if s.done then s
    else
      match status
      case Failed => Settle(s, RestFailed)
      case Confirmed => Settle(s, RestConfirmed)
      case _ => s
  }

  /** The setup runs before anything else can; a throwing setup registers no callback; a poll is started only while not
      done, and its answer may come at any later time. */
  ghost predicate Next(s: State, step: Step, s': State) {
    match step
    case SetUp(throws) =>
      s.setup.Pending? && s' == if throws then s.(setup := Threw, done := true) else s.(setup := Listening)
    case Timer =>
      && !s.setup.Pending? && !s.timerFired
      && s' == (if s.done then s else Settle(s, TimedOut)).(timerFired := true)
    case WsCallback(failed) =>
      s.setup.Listening? && s' == Settle(s, if failed then WsFailed else WsConfirmed)
    case StartPoll =>
      !s.setup.Pending? && !s.done && s' == s.(inFlight := s.inFlight + 1)
    case PollAnswer(status) =>
      s.inFlight > 0 && s' == AfterPoll(s.(inFlight := s.inFlight - 1), status)
  }

  ghost predicate Run(states: seq<State>, steps: seq<Step>) {
    && |states| == |steps| + 1 && states[0] == START
    && forall i :: 0 <= i < |steps| ==> Next(states[i], steps[i], states[i + 1])
  }

  /** The runs: none but the start, and each with any step that may come next. */
  lemma RunsGrow(states: seq<State>, steps: seq<Step>, step: Step, s: State)
    requires |states| == |steps| + 1
    ensures Run([START], [])
    ensures Run(states + [s], steps + [step]) <==> Run(states, steps) && Next(states[|steps|], step, s)
  {
    var states', steps' := states + [s], steps + [step];
    if Run(states', steps') {
      forall i | 0 <= i < |steps|
        ensures Next(states[i], steps[i], states[i + 1])
      {
        assert Next(states'[i], steps'[i], states'[i + 1]);
      }
      assert Next(states'[|steps|], steps'[|steps|], states'[|steps| + 1]);
    }
  }

  /** While listening, the flag is set exactly when the promise is settled; after a throwing setup it is set and the
      promise is not, and no poll was ever started. */
  ghost predicate Inv(s: State) {
    match s.setup
    case Pending => s == START
    case Listening => (s.done <==> s.settled.Some?) && (s.timerFired ==> s.done) && (s.settled.Some? <==> s.calls > 0)
    case Threw => s.done && s.settled.None? && s.calls == 0 && s.inFlight == 0
  }

  lemma {:induction false} RunKeepsInvariant(states: seq<State>, steps: seq<Step>, i: nat)
    requires Run(states, steps) && i <= |steps|
    ensures Inv(states[i])
    ensures var s := states[i];
            && (s.setup == Listening ==> (s.done <==> s.settled.Some?) && (s.settled.None? <==> s.calls == 0))
            && (s.setup == Threw ==> s.done && s.settled.None? && s.calls == 0 && s.inFlight == 0)
  {
    if i > 0 {
      RunKeepsInvariant(states, steps, i - 1);
      assert Next(states[i - 1], steps[i - 1], states[i]);
    }
  }

  /** What each step does: a failed or confirmed answer to a poll, a callback and the timer each settle the promise if
      it is still open, and nothing else about it ever changes. */
  lemma StepsSettle(states: seq<State>, steps: seq<Step>, i: nat)
    requires Run(states, steps) && i < |steps|
    ensures var s, s' := states[i], states[i + 1];
            match steps[i]
            case PollAnswer(Confirmed) =>
              s'.inFlight == s.inFlight - 1
              && if s.done then s'.settled == s.settled else s'.done && s'.settled == Some(RestConfirmed)
            case PollAnswer(Failed) =>
              s'.inFlight == s.inFlight - 1
              && if s.done then s'.settled == s.settled else s'.done && s'.settled == Some(RestFailed)
            case PollAnswer(_) => s' == s.(inFlight := s.inFlight - 1)
            case WsCallback(failed) =>
              && s'.done
              && (s.settled.None? ==> s'.settled == Some(if failed then WsFailed else WsConfirmed))
            case Timer =>
              s'.timerFired && if s.done then s'.settled == s.settled else s'.done && s'.settled == Some(TimedOut)
            case SetUp(throws) => s'.settled.None? && s'.done == throws
            case StartPoll => !s.done && s' == s.(inFlight := s.inFlight + 1)
  {
    RunKeepsInvariant(states, steps, i);
    assert Next(states[i], steps[i], states[i + 1]);
  }

  /** The timer fires once. */
  lemma {:induction false} TimerFiresOnce(states: seq<State>, steps: seq<Step>, i: nat, j: nat)
    requires Run(states, steps) && i < j <= |steps| && steps[i].Timer?
    ensures states[j].timerFired && (j < |steps| ==> !steps[j].Timer?)
  {
    assert Next(states[j - 1], steps[j - 1], states[j]);
    if j < |steps| {
      assert Next(states[j], steps[j], states[j + 1]);
    }
    if i + 1 < j {
      TimerFiresOnce(states, steps, i, j - 1);
    }
  }

  /** The verdict never changes once there is one. */
  lemma {:induction false} SettledOnce(states: seq<State>, steps: seq<Step>, i: nat, j: nat)
    requires Run(states, steps) && i <= j <= |steps| && states[i].settled.Some?
    ensures states[j].settled == states[i].settled
  {
    if i < j {
      SettledOnce(states, steps, i, j - 1);
      assert Next(states[j - 1], steps[j - 1], states[j]);
    }
  }

  /** Neither a poll nor the timer calls resolve or reject after done, so every call beyond the first is the
      websocket's. */
  lemma {:induction false} OnlyTheWebsocketCallsTwice(states: seq<State>, steps: seq<Step>, i: nat)
    requires Run(states, steps) && i < |steps|
    ensures states[i].done && !steps[i].WsCallback? ==>
              states[i + 1].calls == states[i].calls && states[i + 1].settled == states[i].settled
    ensures states[i + 1].calls > states[i].calls && states[i].calls > 0 ==> steps[i].WsCallback?
  {
    RunKeepsInvariant(states, steps, i);
    assert Next(states[i], steps[i], states[i + 1]);
  }

  /** The setup happens once, and first. */
  lemma {:induction false} SetupStays(states: seq<State>, steps: seq<Step>, i: nat)
    requires Run(states, steps) && 0 < i <= |steps|
    ensures steps[0].SetUp? && states[i].setup == if steps[0].throws then Threw else Listening
  {
    assert Next(states[0], steps[0], states[1]);
    if i > 1 {
      SetupStays(states, steps, i - 1);
      assert Next(states[i - 1], steps[i - 1], states[i]);
    }
  }

  /** Once the timer has fired, the promise is settled exactly when the websocket setup did not throw; and if it threw,
      it is not settled at any time. */
  lemma SettledExactlyWhenSetupDidNotThrow(states: seq<State>, steps: seq<Step>, i: nat)
    requires Run(states, steps) && 0 < i <= |steps|
    ensures steps[0].SetUp?
    ensures states[i].timerFired ==> (states[i].settled.Some? <==> !steps[0].throws)
    ensures steps[0].throws ==> states[i].settled.None?
  {
    RunKeepsInvariant(states, steps, i);
    SetupStays(states, steps, i);
  }

  /** A confirmation is reported only if a callback or a poll saw one: the verdict names the step that gave it. */
  lemma {:induction false} VerdictComesFromAStep(states: seq<State>, steps: seq<Step>, i: nat)
    requires Run(states, steps) && i <= |steps| && states[i].settled.Some?
    ensures exists j :: 0 <= j < i && !states[j].done
              && match states[i].settled.value
                 case TimedOut => steps[j].Timer?
                 case WsConfirmed => steps[j] == WsCallback(false)
                 case WsFailed => steps[j] == WsCallback(true)
                 case RestConfirmed => steps[j] == PollAnswer(Confirmed)
                 case RestFailed => steps[j] == PollAnswer(Failed)
  {
    RunKeepsInvariant(states, steps, i - 1);
    assert Next(states[i - 1], steps[i - 1], states[i]);
    if states[i - 1].settled.Some? {
      VerdictComesFromAStep(states, steps, i - 1);
    } else {
      assert !states[i - 1].done;
    }
  }

  // ---------------------------------------------------------------------------------------------
  // The callbacks
  // ---------------------------------------------------------------------------------------------

  class Promise {
    var setup: Setup
    var done: bool
    var settled: Option<Verdict>
    var calls: nat
    var timerFired: bool
    var inFlight: nat

    constructor ()
      ensures Now() == START
    {
      setup, done, settled, calls, timerFired, inFlight := Pending, false, None, 0, false, 0;
    }

    ghost function Now(): State
      reads this
    {
      State(setup, done, settled, calls, timerFired, inFlight)
    }

    /** resolve or reject. */
    method SettleWith(v: Verdict)
      modifies this`settled, this`calls
      ensures calls == old(calls) + 1 && settled == if old(settled).None? then Some(v) else old(settled)
    {
      if settled.None? {
        settled := Some(v);
      }
      calls := calls + 1;
    }

    method OnSetup(throws: bool)
      requires setup.Pending?
      modifies this
      ensures Next(old(Now()), SetUp(throws), Now())
    {
      setup := if throws then Threw else Listening;
      if throws {
        done := true;
      }
    }

    method OnTimer()
      requires !setup.Pending? && !timerFired
      modifies this
      ensures Next(old(Now()), Timer, Now())
    {
      timerFired := true;
      if done {
        return;
      }
      done := true;
      SettleWith(TimedOut);
    }

    method OnSignature(failed: bool)
      requires setup.Listening?
      modifies this
      ensures Next(old(Now()), WsCallback(failed), Now())
    {
      done := true;
      SettleWith(if failed then WsFailed else WsConfirmed);
    }

    method OnPollStart()
      requires !setup.Pending? && !done
      modifies this
      ensures Next(old(Now()), StartPoll, Now())
    {
      inFlight := inFlight + 1;
    }

    method OnPollAnswer(status: Status)
      requires inFlight > 0
      modifies this
      ensures Next(old(Now()), PollAnswer(status), Now())
    {
      inFlight := inFlight - 1;
      if !done {
        if status.Failed? {
          done := true;
          SettleWith(RestFailed);
        } else if status.Confirmed? {
          done := true;
          SettleWith(RestConfirmed);
        }
      }
    }
  }

  // ---------------------------------------------------------------------------------------------
  // sendAndSignTransaction
  // ---------------------------------------------------------------------------------------------

  const RESEND_DELAY_MS := 300

  /**
   The resend loop, which runs beside the wait. It compares seconds with the timeout that the timer takes in
   milliseconds. `settledAt` is when the wait ended, in milliseconds; None if it never does.
   */
  method ResendUntilDone(timeout: nat, settledAt: Option<nat>) returns (sends: nat, elapsedMs: nat)
    ensures elapsedMs == 300 * sends
    ensures elapsedMs >= 1000 * timeout || (settledAt.Some? && elapsedMs >= settledAt.value)
    ensures sends > 0 ==> elapsedMs - 300 < 1000 * timeout
                          && (settledAt.Some? ==> elapsedMs - 300 < settledAt.value)
  {
    sends, elapsedMs := 0, 0;
    while !(settledAt.Some? && elapsedMs >= settledAt.value) && elapsedMs < 1000 * timeout
      invariant elapsedMs == RESEND_DELAY_MS * sends
      invariant sends > 0 ==> elapsedMs - RESEND_DELAY_MS < 1000 * timeout
                              && (settledAt.Some? ==> elapsedMs - RESEND_DELAY_MS < settledAt.value)
      decreases 1000 * timeout - elapsedMs
    {
      sends := sends + 1;
      elapsedMs := elapsedMs + RESEND_DELAY_MS;
    }
  }

  /** When the wait ends: the time, in milliseconds, of the first state from the i-th on that is settled. */
  function SettledAt(states: seq<State>, at: seq<nat>, i: nat): (time: Option<nat>)
    requires |at| == |states| && i <= |states|
    ensures time.None? <==> forall j :: i <= j < |states| ==> states[j].settled.None?
    decreases |states| - i
  {
    if i == |states| then None
    else if states[i].settled.Some? then Some(at[i])
    else SettledAt(states, at, i + 1)
  }

  /** After a throwing setup, in every run however long, the transaction is resent for a thousand times as long as the
      timer runs. */
  method ResendsOutliveTheTimer(states: seq<State>, ghost steps: seq<Step>, at: seq<nat>, timeout: nat)
    returns (elapsedMs: nat)
    requires Run(states, steps) && |at| == |states| && steps != [] && steps[0] == SetUp(true)
    ensures elapsedMs >= 1000 * timeout
    ensures timeout > 0 ==> elapsedMs > timeout
  {
    forall i | 0 <= i < |states|
      ensures states[i].settled.None?
    {
      if i > 0 {
        SettledExactlyWhenSetupDidNotThrow(states, steps, i);
      }
    }
    var _, ms := ResendUntilDone(timeout, SettledAt(states, at, 0));
    elapsedMs := ms;
  }
}
