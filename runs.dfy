/** Properties of sequences of handler invocations: how a bounded run counts
    down tick by tick and ends, and how the button protocol records the
    number of ticks between the start press and the stop press. */
module Runs {
  import opened Phases
  import opened Motion

  /** `n` successive timer ticks with the input pins at the given levels. */
  function Ticks(s: MotionState, n: nat, pd4High: bool, pd5High: bool): (r: MotionState)
    ensures Consistent(s) ==> Consistent(r)
    ensures r.lastStepsBetweenPresses == s.lastStepsBetweenPresses && r.lastButtonPressed == s.lastButtonPressed
    decreases n
  {
    if n == 0 then s else Ticks(Tick(s, pd4High, pd5High), n - 1, pd4High, pd5High)
  }

  /** While a bounded run in mode 1 or 2 has at least `n` steps left, `n`
      ticks take `n` steps in the run's direction, count them into
      `stepsTaken`, count `stepsRemaining` down by `n`, and keep the mode. */
  lemma {:induction false} TicksCountDown(s: MotionState, n: nat, pd4High: bool, pd5High: bool)
    requires 0 <= s.phaseCounter < 8
    requires s.motorState == Clockwise || s.motorState == CounterClockwise
    requires n <= s.stepsRemaining
    ensures var r := Ticks(s, n, pd4High, pd5High);
      && r.motorState == s.motorState && r.motorRunning == s.motorRunning
      && r.stepsRemaining == s.stepsRemaining - n
      && r.stepsTaken == s.stepsTaken + n
      && r.phaseCounter == Advance(s.phaseCounter, s.motorState == Clockwise, n)
      && 0 <= r.phaseCounter < 8
      && (n > 0 ==> r.output == Phase(r.phaseCounter))
      && r.(phaseCounter := s.phaseCounter, stepsRemaining := s.stepsRemaining,
            stepsTaken := s.stepsTaken, output := s.output) == s
    decreases n
  {
    if n > 0 {
      var t := Tick(s, pd4High, pd5High);
      TickSteps(s, pd4High, pd5High);
      TicksCountDown(t, n - 1, pd4High, pd5High);
    }
  }

  /** In an unbounded run (negative `stepsRemaining`) every tick steps:
      after `n` ticks the run is still unbounded and has taken `n` more
      steps, in mode and direction unchanged. */
  lemma {:induction false} TicksUnbounded(s: MotionState, n: nat, pd4High: bool, pd5High: bool)
    requires 0 <= s.phaseCounter < 8
    requires s.motorState == Clockwise || s.motorState == CounterClockwise
    requires s.stepsRemaining < 0
    ensures var r := Ticks(s, n, pd4High, pd5High);
      && r.motorState == s.motorState && r.motorRunning == s.motorRunning
      && r.stepsRemaining < 0
      && r.stepsTaken == s.stepsTaken + n
      && r.phaseCounter == Advance(s.phaseCounter, s.motorState == Clockwise, n)
      && r.(phaseCounter := s.phaseCounter, stepsRemaining := s.stepsRemaining,
            stepsTaken := s.stepsTaken, output := s.output) == s
    decreases n
  {
    if n > 0 {
      var t := Tick(s, pd4High, pd5High);
      TickSteps(s, pd4High, pd5High);
      TicksUnbounded(t, n - 1, pd4High, pd5High);
    }
  }

  /** Once stopped, further ticks change nothing. */
  lemma {:induction false} TicksWhileStopped(s: MotionState, n: nat, pd4High: bool, pd5High: bool)
    requires IsStopped(s)
    ensures Ticks(s, n, pd4High, pd5High) == s
    decreases n
  {
    if n > 0 {
      TicksWhileStopped(Tick(s, pd4High, pd5High), n - 1, pd4High, pd5High);
    }
  }

  /** Ticks compose: `m` ticks followed by `n` ticks are `m + n` ticks. */
  lemma {:induction false} TicksAdd(s: MotionState, m: nat, n: nat, pd4High: bool, pd5High: bool)
    ensures Ticks(Ticks(s, m, pd4High, pd5High), n, pd4High, pd5High) == Ticks(s, m + n, pd4High, pd5High)
    decreases m
  {
    if m > 0 {
      TicksAdd(Tick(s, pd4High, pd5High), m - 1, n, pd4High, pd5High);
    }
  }

  /** A run started with `N` steps remaining takes exactly `N` stepping
      ticks, each with steps still pending; tick `N + 1` stops the motor
      with the drive lines off, and nothing moves after that. */
  lemma BoundedRunLength(s: MotionState, pd4High: bool, pd5High: bool)
    requires 0 <= s.phaseCounter < 8
    requires s.motorState == Clockwise || s.motorState == CounterClockwise
    requires s.stepsRemaining >= 0
    ensures forall k: nat :: k < s.stepsRemaining ==> Ticks(s, k, pd4High, pd5High).stepsRemaining > 0
    ensures var r := Ticks(s, s.stepsRemaining + 1, pd4High, pd5High);
      && IsStopped(r)
      && r.stepsTaken == s.stepsTaken + s.stepsRemaining
      && r.phaseCounter == Advance(s.phaseCounter, s.motorState == Clockwise, s.stepsRemaining)
    ensures forall j: nat :: j > s.stepsRemaining ==> Ticks(s, j, pd4High, pd5High) == Ticks(s, s.stepsRemaining + 1, pd4High, pd5High)
  {
    var n: nat := s.stepsRemaining;
    forall k: nat | k < n
      ensures Ticks(s, k, pd4High, pd5High).stepsRemaining > 0
    {
      TicksCountDown(s, k, pd4High, pd5High);
    }
    TicksCountDown(s, n, pd4High, pd5High);
    var last := Ticks(s, n, pd4High, pd5High);
    TickEndsRun(last, pd4High, pd5High);
    TicksAdd(s, n, 1, pd4High, pd5High);
    var r := Ticks(s, n + 1, pd4High, pd5High);
    assert r == Tick(last, pd4High, pd5High);
    forall j: nat | j > n
      ensures Ticks(s, j, pd4High, pd5High) == r
    {
      TicksAdd(s, n + 1, j - (n + 1), pd4High, pd5High);
      TicksWhileStopped(r, j - (n + 1), pd4High, pd5High);
    }
  }

  /** A clockwise run of 1000 steps from phase 0 is still running after
      1000 ticks, with nothing left to do, and stops on tick 1001 having
      taken 1000 steps and come back to phase 0. */
  lemma ThousandStepRun(s: MotionState)
    requires s.phaseCounter == 0 && s.motorState == Clockwise && s.stepsRemaining == 1000 && s.stepsTaken == 0
    ensures var r := Ticks(s, 1000, true, true);
      r.motorState == Clockwise && r.stepsRemaining == 0 && r.stepsTaken == 1000
    ensures var r := Ticks(s, 1001, true, true);
      IsStopped(r) && r.stepsTaken == 1000 && r.phaseCounter == 0
  {
    TicksCountDown(s, 1000, true, true);
    BoundedRunLength(s, true, true);
    AdvanceIsModular(0, true, 1000);
  }

  /** The button protocol: from idle, a press starts a run; any number of
      further presses of the same button are ignored; after `k` ticks a
      press of the other button stops the motor and records exactly `k`
      as the distance between the presses, which is then pending for replay
      exactly when it is positive. */
  lemma RecordsTicksBetweenPresses(s: MotionState, a4: bool, a5: bool, k: nat, t4: bool, t5: bool, b4: bool, b5: bool)
    requires Consistent(s) && s.motorRunning == 0
    requires ButtonDown(a4, a5) != NoButton
    requires ButtonDown(b4, b5) != NoButton && ButtonDown(b4, b5) != ButtonDown(a4, a5)
    ensures var ran := Ticks(Press(s, a4, a5), k, t4, t5);
      && ran.stepsTaken == k
      && Press(ran, a4, a5) == ran
    ensures var r := Press(Ticks(Press(s, a4, a5), k, t4, t5), b4, b5);
      && IsStopped(r)
      && r.lastStepsBetweenPresses == k
      && r.lastButtonPressed == NoButton
      && (ReplayPending(r) <==> k > 0)
  {
    var started := Press(s, a4, a5);
    PressStartsRun(s, a4, a5);
    TicksUnbounded(started, k, t4, t5);
    var ran := Ticks(started, k, t4, t5);
    PressSameButtonIgnored(ran, a4, a5);
    PressOtherButtonStops(ran, b4, b5);
  }

  /** Recording and replaying together: after a recorded run of `k > 0`
      ticks, a replay request for `percent` percent in direction 1 or 2
      starts a bounded run of the floor of that share (at least one step,
      at most `k`), and the record is consumed. */
  lemma RecordThenReplay(s: MotionState, a4: bool, a5: bool, k: nat, t4: bool, t5: bool, b4: bool, b5: bool,
                         percent: nat, command: nat)
    requires Consistent(s) && s.motorRunning == 0
    requires ButtonDown(a4, a5) != NoButton
    requires ButtonDown(b4, b5) != NoButton && ButtonDown(b4, b5) != ButtonDown(a4, a5)
    requires k > 0 && percent <= 100 && (command == Clockwise || command == CounterClockwise)
    ensures var r := Dispatch(Press(Ticks(Press(s, a4, a5), k, t4, t5), b4, b5), percent, command);
      && r.motorState == command && r.motorRunning == 1
      && r.stepsRemaining == Scale(k, percent)
      && 1 <= r.stepsRemaining <= k
      && r.lastStepsBetweenPresses == 0
  {
    RecordsTicksBetweenPresses(s, a4, a5, k, t4, t5, b4, b5);
    var stopped := Press(Ticks(Press(s, a4, a5), k, t4, t5), b4, b5);
    ReplayStartsScaledRun(stopped, percent, command);
  }
}
