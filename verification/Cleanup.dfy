/** The end of a HAL instance: wifi_event_loop on one thread, one call of wifi_cleanup on another. The two
    places where each looks at the other's flag are separate steps, so that every interleaving is a run. */
module Cleanup {

  datatype Loop =
    | NotStarted
    | Polling        // in poll
    | AtCondition    // about to test clean_up
    | Exiting        // out of the do-while, in_event_loop still set
    | Leaving        // in_event_loop cleared, clean_up still to be looked at
    | Left

  datatype Cleaner =
    | NotCalled
    | Flagged        // clean_up set, in_event_loop still to be looked at
    | Returned

  datatype Poll = Interrupted | Failed | StopByte | OtherByte | ReadFailed | EventReady | NothingKnown

  /** cleanups counts the runs of wifi_internal_cleanup, each of which frees hal_info. */
  datatype State = State(loop: Loop, cleaner: Cleaner, inEventLoop: bool, cleanUp: bool, socketsOpen: bool,
                         handlerSet: bool, signals: nat, cleanups: nat, handlerCalls: nat)

  datatype Step = StartLoop(paired: bool) | PollReturns(outcome: Poll) | TestCondition | ClearFlag | FinishLoop
                | SetFlag | Decide

  function InternalCleanup(s: State): State {
    s.(cleanups := s.cleanups + 1, handlerCalls := s.handlerCalls + (if s.handlerSet then 1 else 0),
       socketsOpen := false)
  }

  /** wifi_cleanup is called at some time after the loop was started. */
  predicate Enabled(s: State, step: Step) {
    match step
    case StartLoop(_) => s.loop.NotStarted?
    case PollReturns(outcome) => s.loop.Polling? && (outcome.StopByte? ==> s.signals > 0)
    case TestCondition => s.loop.AtCondition?
    case ClearFlag => s.loop.Exiting?
    case FinishLoop => s.loop.Leaving?
    case SetFlag => s.cleaner.NotCalled? && !s.loop.NotStarted?
    case Decide => s.cleaner.Flagged?
  }

  function Next(s: State, step: Step): State
    requires Enabled(s, step)
  {
    match step
    case StartLoop(paired) =>
      if s.inEventLoop || !paired then s.(loop := Left)
      else s.(loop := Polling, inEventLoop := true, socketsOpen := true)
    case PollReturns(outcome) =>
      (match outcome
       case Interrupted => s.(loop := AtCondition)
       case Failed => s.(loop := Exiting)
       case StopByte => s.(loop := Exiting, signals := s.signals - 1)
       case OtherByte => s.(loop := AtCondition)
       case ReadFailed => s.(loop := Exiting)
       case EventReady => s.(loop := AtCondition)
       case NothingKnown => s.(loop := AtCondition))
    case TestCondition => s.(loop := if s.cleanUp then Exiting else Polling)
    case ClearFlag => s.(loop := Leaving, inEventLoop := false)
    case FinishLoop => (if s.cleanUp then InternalCleanup(s) else s).(loop := Left)
    case SetFlag => s.(cleaner := Flagged, handlerSet := true, cleanUp := true)
    case Decide =>
      (if s.inEventLoop && s.socketsOpen then s.(signals := s.signals + 1)
       else InternalCleanup(s)).(cleaner := Returned)
  }

  const INITIAL := State(NotStarted, NotCalled, false, false, false, false, 0, 0, 0)

  ghost predicate Run(states: seq<State>, steps: seq<Step>) {
    && |states| == |steps| + 1
    && states[0] == INITIAL
    && forall i :: 0 <= i < |steps| ==> Enabled(states[i], steps[i]) && states[i + 1] == Next(states[i], steps[i])
  }

  /** Both threads are done. */
  ghost predicate Terminated(states: seq<State>) {
    states != [] && states[|states| - 1].loop.Left? && states[|states| - 1].cleaner.Returned?
  }

  /** The loop has cleared its flag and not yet looked at clean_up, while the cleanup has set clean_up and
      not yet looked at the loop's flag. */
  predicate Overlap(s: State) {
    s.loop.Leaving? && s.cleaner.Flagged?
  }

  ghost predicate Overlapped(states: seq<State>, n: nat) {
    exists i :: 0 <= i <= n && i < |states| && Overlap(states[i])
  }

  /** How often the cleanup has run, given whether the two windows have overlapped so far. */
  function Cleanups(loop: Loop, cleaner: Cleaner, overlapped: bool): nat {
    match cleaner
    case NotCalled => 0
    case Flagged => if loop.Left? && overlapped then 1 else 0
    case Returned =>
      if loop.Left? then (if overlapped then 2 else 1)
      else if overlapped then 1 else 0
  }

  ghost predicate Inv(s: State, overlapped: bool) {
    && s.cleanups == s.handlerCalls == Cleanups(s.loop, s.cleaner, overlapped)
    && s.inEventLoop == (s.loop.Polling? || s.loop.AtCondition? || s.loop.Exiting?)
    && (s.inEventLoop ==> s.socketsOpen && !overlapped)
    && s.cleanUp == s.handlerSet == !s.cleaner.NotCalled?
    && (s.loop.NotStarted? || s.cleaner.NotCalled? ==> !overlapped)
    && (s.loop.NotStarted? ==> s.cleaner.NotCalled?)
    && (Overlap(s) ==> overlapped)
  }

  lemma StepKeepsInv(s: State, step: Step, overlapped: bool)
    requires Inv(s, overlapped) && Enabled(s, step)
    ensures Inv(Next(s, step), overlapped || Overlap(Next(s, step)))
  {
  }

  lemma {:induction false} RunInv(states: seq<State>, steps: seq<Step>, n: nat)
    requires Run(states, steps) && n < |states|
    ensures Inv(states[n], Overlapped(states, n))
  {
    if n == 0 {
      assert !Overlapped(states, 0);
    } else {
      RunInv(states, steps, n - 1);
      StepKeepsInv(states[n - 1], steps[n - 1], Overlapped(states, n - 1));
      assert Overlapped(states, n) == (Overlapped(states, n - 1) || Overlap(states[n]));
    }
  }

  /** In a terminating run the cleanup and the cleaned-up handler run exactly once if and only if the
      loop's exit and the cleanup call do not overlap; if they do, both run twice. */
  lemma CleanedUpOnce(states: seq<State>, steps: seq<Step>)
    requires Run(states, steps) && Terminated(states)
    ensures var last := states[|steps|];
            last.handlerCalls == last.cleanups == if Overlapped(states, |steps|) then 2 else 1
  {
    RunInv(states, steps, |steps|);
  }

  /** The cleanup count grows one at a time. */
  lemma {:induction false} PassesOne(states: seq<State>, steps: seq<Step>, n: nat)
    requires Run(states, steps) && n < |states| && states[n].cleanups == 2
    ensures exists i :: 0 <= i < n && states[i].cleanups == 1
  {
    if states[n - 1].cleanups == 2 {
      PassesOne(states, steps, n - 1);
    } else {
      assert states[n - 1 + 1] == Next(states[n - 1], steps[n - 1]);
    }
  }

  /** In a terminating run no step of either thread finds hal_info already freed, if and only if the
      loop's exit and the cleanup call do not overlap. */
  lemma NoUseAfterFree(states: seq<State>, steps: seq<Step>)
    requires Run(states, steps) && Terminated(states)
    ensures (forall i :: 0 <= i < |steps| ==> states[i].cleanups == 0) <==> !Overlapped(states, |steps|)
  {
    CleanedUpOnce(states, steps);
    if Overlapped(states, |steps|) {
      PassesOne(states, steps, |steps|);
    } else {
      forall i | 0 <= i < |steps| ensures states[i].cleanups == 0 {
        RunInv(states, steps, i);
        assert !Overlapped(states, i);
        assert Enabled(states[i], steps[i]);
      }
    }
  }

  /** Before both threads are done, the cleanup has not run at all unless the windows overlapped. */
  lemma NotCleanedUpEarly(states: seq<State>, steps: seq<Step>, i: nat)
    requires Run(states, steps) && i < |states| && !Overlapped(states, i)
    ensures states[i].cleanups == if states[i].loop.Left? && states[i].cleaner.Returned? then 1 else 0
  {
    RunInv(states, steps, i);
  }

  /** The call has set clean_up before step n. */
  ghost predicate CalledBefore(steps: seq<Step>, n: nat) {
    exists i :: 0 <= i < n && i < |steps| && steps[i] == SetFlag
  }

  lemma {:induction false} FlagIsCall(states: seq<State>, steps: seq<Step>, n: nat)
    requires Run(states, steps) && n < |states|
    ensures states[n].cleanUp <==> CalledBefore(steps, n)
  {
    if n > 0 {
      FlagIsCall(states, steps, n - 1);
      assert states[n - 1 + 1] == Next(states[n - 1], steps[n - 1]);
      assert CalledBefore(steps, n) <==> CalledBefore(steps, n - 1) || steps[n - 1] == SetFlag;
    }
  }

  /** The loop goes on polling until poll fails, the stop byte or no byte can be read, or the condition is tested
      after the call; and after any of these it does not poll again. */
  lemma LoopEndsWhen(states: seq<State>, steps: seq<Step>, i: nat)
    requires Run(states, steps) && i < |steps|
    requires states[i].loop == Polling || states[i].loop == AtCondition
    ensures states[i + 1].loop == Exiting
            <==> || steps[i] == PollReturns(Failed) || steps[i] == PollReturns(StopByte)
                 || steps[i] == PollReturns(ReadFailed)
                 || (steps[i] == TestCondition && CalledBefore(steps, i))
    ensures states[i + 1].loop != Exiting ==> states[i + 1].loop == Polling || states[i + 1].loop == AtCondition
    ensures steps[i] == TestCondition && !CalledBefore(steps, i) ==> states[i + 1].loop == Polling
  {
    FlagIsCall(states, steps, i);
    assert states[i + 1] == Next(states[i], steps[i]);
  }

  /** A stop byte is read only if the call found the loop running and sent one. */
  lemma {:induction false} StopByteWasSent(states: seq<State>, steps: seq<Step>, n: nat)
    requires Run(states, steps) && n < |states|
    ensures states[n].signals > 0 ==>
              exists i :: 0 <= i < n && steps[i] == Decide && states[i].loop in {Polling, AtCondition, Exiting}
  {
    if n > 0 {
      StopByteWasSent(states, steps, n - 1);
      RunInv(states, steps, n - 1);
      assert states[n - 1 + 1] == Next(states[n - 1], steps[n - 1]);
    }
  }

  /** The schedule keeps each window whole: nothing comes between the two steps of the call, and nothing
      between the two steps of the loop's exit. */
  ghost predicate Atomic(steps: seq<Step>) {
    && (forall i :: 0 <= i < |steps| - 1 && steps[i].SetFlag? ==> steps[i + 1].Decide?)
    && (forall i :: 0 <= i < |steps| - 1 && steps[i].ClearFlag? ==> steps[i + 1].FinishLoop?)
  }

  /** A window is open only right after the step that opens it. */
  lemma {:induction false} OpenJustNow(states: seq<State>, steps: seq<Step>, n: nat)
    requires Run(states, steps) && Atomic(steps) && n < |states|
    ensures states[n].cleaner.Flagged? ==> n > 0 && steps[n - 1].SetFlag?
    ensures states[n].loop.Leaving? ==> n > 0 && steps[n - 1].ClearFlag?
  {
    if n > 0 {
      OpenJustNow(states, steps, n - 1);
      assert states[n - 1 + 1] == Next(states[n - 1], steps[n - 1]);
      assert n > 1 && steps[n - 2].SetFlag? ==> steps[n - 2 + 1].Decide?;
      assert n > 1 && steps[n - 2].ClearFlag? ==> steps[n - 2 + 1].FinishLoop?;
    }
  }

  /** With the call and the loop's exit each made in one go, the windows never overlap, so the cleanup and the
      handler run exactly once in every terminating run and nothing finds hal_info freed. */
  lemma AtomicCleansUpOnce(states: seq<State>, steps: seq<Step>)
    requires Run(states, steps) && Terminated(states) && Atomic(steps)
    ensures states[|steps|].cleanups == states[|steps|].handlerCalls == 1
    ensures forall i :: 0 <= i < |steps| ==> states[i].cleanups == 0
  {
    forall i | 0 <= i < |states| ensures !Overlap(states[i]) {
      OpenJustNow(states, steps, i);
    }
    CleanedUpOnce(states, steps);
    NoUseAfterFree(states, steps);
  }

  /** The windows can overlap: the loop leaves after a poll failure just as it is told to clean up. */
  lemma OverlapHappens()
    ensures exists states: seq<State>, steps: seq<Step> ::
              Run(states, steps) && Terminated(states) && states[|steps|].cleanups == 2
  {
    var s1 := Next(INITIAL, StartLoop(true));
    var s2 := Next(s1, PollReturns(Failed));
    var s3 := Next(s2, ClearFlag);
    var s4 := Next(s3, SetFlag);
    var s5 := Next(s4, Decide);
    var s6 := Next(s5, FinishLoop);
    var states := [INITIAL, s1, s2, s3, s4, s5, s6];
    var steps := [StartLoop(true), PollReturns(Failed), ClearFlag, SetFlag, Decide, FinishLoop];
    assert Run(states, steps);
  }
}
