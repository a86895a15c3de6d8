/** The shared motion state of the controller as a value, and the three
    handlers that update it (timer tick, button press, one command of the
    foreground loop), each as one atomic transition. */
module Motion {
  import opened Phases

  /** Modes of `motorState`. */
  const Stopped := 0
  const Clockwise := 1
  const CounterClockwise := 2
  const Oscillate := 3

  /** Button numbers, named after their pins; 0 means no button. */
  const NoButton := 0
  const ButtonPD4 := 4
  const ButtonPD5 := 5

  /** `stepsRemaining` value that stands for an unbounded run. */
  const Unbounded := -1

  /** The globals of the firmware. `stepsTaken` and `lastStepsBetweenPresses`
      are unsigned counters. `stepCountConstant` is a natural here; in the
      firmware it is a 16-bit `int` whose `++` on every mode-3 tick
      (main.c:213) can wrap it negative, which the model does not follow. */
  datatype MotionState = MotionState(
    phaseCounter: int,
    motorState: int,
    stepsRemaining: int,
    stepCountConstant: nat,
    motorDir: int,
    motorRunning: int,
    stepsTaken: nat,
    lastStepsBetweenPresses: nat,
    lastButtonPressed: int,
    output: int)

  /** The power-on values of the globals, with the drive lines off. */
  const Initial := MotionState(0, Stopped, 0, 1000, 0, 0, 0, 0, NoButton, 0)

  /** The invariant every handler keeps: the phase index is in range, the
      running flag agrees with the mode, a stopped motor has no pending steps
      and its drive lines off, and the outputs are drive patterns. */
  ghost predicate Consistent(s: MotionState) {
    && 0 <= s.phaseCounter < 8
    && Stopped <= s.motorState <= Oscillate
    && (s.motorDir == 0 || s.motorDir == 1)
    && s.motorRunning == (if s.motorState == Stopped then 0 else 1)
    && (s.motorState == Stopped ==> s.stepsRemaining == 0 && s.output == 0)
    && s.stepsRemaining >= Unbounded
    && (s.lastButtonPressed == NoButton || s.lastButtonPressed == ButtonPD4 || s.lastButtonPressed == ButtonPD5)
    && IsDrivePattern(s.output)
  }

  /** A motor that is stopped with its drive lines off. */
  ghost predicate IsStopped(s: MotionState) {
    s.motorState == Stopped && s.motorRunning == 0 && s.stepsRemaining == 0 && s.output == 0
  }

  /** Logical negation of an `int` flag, as C's `!` computes it. */
  function Flip(dir: int): (r: int)
    ensures (r == 0) == (dir != 0)
    ensures r == 0 || r == 1
  {
    if dir == 0 then 1 else 0
  }

  /** A share of `base`: `percent` percent of it, rounded down, but never a
      zero-length move. */
  function Scale(base: nat, percent: nat): (r: nat)
    ensures 1 <= r
    ensures r == 1 || r * 100 <= base * percent < (r + 1) * 100
    ensures base * percent >= 100 ==> r * 100 <= base * percent < (r + 1) * 100
  {
    var steps := (base * percent) / 100;
    if steps == 0 then 1 else steps
  }

  /** The timer-overflow handler. The two arguments are the levels of the
      PD4 and PD5 input pins, read only in mode 3. It keeps the invariant
      and never touches the button record. */
  function Tick(s: MotionState, pd4High: bool, pd5High: bool): (r: MotionState)
    ensures Consistent(s) ==> Consistent(r)
    ensures r.lastStepsBetweenPresses == s.lastStepsBetweenPresses && r.lastButtonPressed == s.lastButtonPressed
  {
    if s.motorState == Clockwise || s.motorState == CounterClockwise then
      if s.stepsRemaining != 0 then
        var p := NextPhase(s.phaseCounter, s.motorState == Clockwise);
        s.(phaseCounter := p,
           stepsTaken := s.stepsTaken + 1,
           output := Phase(p),
           stepsRemaining := if s.stepsRemaining > 0 then s.stepsRemaining - 1 else Unbounded)
      else
        s.(motorState := Stopped, motorRunning := 0, output := 0)
    else if s.motorState == Oscillate then
      var dir := if pd4High || pd5High then Flip(s.motorDir) else s.motorDir;
      var p := NextPhase(s.phaseCounter, dir == 0);
      s.(motorDir := dir,
         phaseCounter := p,
         output := Phase(p),
         stepCountConstant := s.stepCountConstant + 1)
    else
      s.(output := 0)
  }

  /** The button that the pin-change handler decodes from the pin levels:
      a button is pressed when its pin reads low, and PD4 wins over PD5. */
  function ButtonDown(pd4High: bool, pd5High: bool): (b: int)
    ensures b == NoButton <==> pd4High && pd5High
    ensures b == ButtonPD4 <==> !pd4High
    ensures b == ButtonPD5 <==> pd4High && !pd5High
  {
    if !pd4High then ButtonPD4 else if !pd5High then ButtonPD5 else NoButton
  }

  /** The pin-change handler: from idle, flip `motorDir` and start an
      unbounded run that way (commands 1 and 2 do not set the direction,
      command 3 resets it to 0 and mode-3 ticks can flip it, so button runs
      alternate only when nothing else comes between them), or, while running, stop and record the
      steps taken if the other button was pressed. It keeps the invariant and
      never moves the phase or changes the step-count constant. */
  function Press(s: MotionState, pd4High: bool, pd5High: bool): (r: MotionState)
    ensures Consistent(s) ==> Consistent(r)
    ensures r.phaseCounter == s.phaseCounter && r.stepCountConstant == s.stepCountConstant
  {
    var b := ButtonDown(pd4High, pd5High);
    if b == NoButton then s
    else if s.motorRunning == 0 then
      var dir := Flip(s.motorDir);
      s.(motorDir := dir,
         motorRunning := 1,
         stepsTaken := 0,
         lastButtonPressed := b,
         motorState := if dir == 0 then Clockwise else CounterClockwise,
         stepsRemaining := Unbounded)
    else if b != s.lastButtonPressed then
      s.(motorRunning := 0,
         motorState := Stopped,
         stepsRemaining := 0,
         output := 0,
         lastStepsBetweenPresses := s.stepsTaken,
         lastButtonPressed := NoButton)
    else
      s
  }

  /** True when the foreground loop takes its replay branch: the motor is
      idle and a recorded distance is waiting to be used. */
  predicate ReplayPending(s: MotionState) {
    s.motorRunning == 0 && s.lastStepsBetweenPresses > 0
  }

  /** One pass of the foreground loop once `percent` and then `command` have
      been read from the channel. It keeps the invariant and never moves the
      phase or touches the remembered button. Both numbers are naturals
      because the model's reader has no 16-bit wrap-around; the firmware's
      reader can return a negative percentage, which the replay branch's
      `percent >= 0` test rejects and the normal branch passes on. */
  function Dispatch(s: MotionState, percent: nat, command: nat): (r: MotionState)
    ensures Consistent(s) ==> Consistent(r)
    ensures r.phaseCounter == s.phaseCounter && r.lastButtonPressed == s.lastButtonPressed
  {
    if ReplayPending(s) then
      if percent <= 100 && (command == Clockwise || command == CounterClockwise) then
        s.(motorState := command,
           stepsRemaining := Scale(s.lastStepsBetweenPresses, percent),
           motorRunning := 1,
           stepsTaken := 0,
           lastStepsBetweenPresses := 0)
      else
        s
    else if command == Clockwise || command == CounterClockwise then
      var p := if percent > 100 then 100 else percent;
      s.(stepsRemaining := Scale(s.stepCountConstant, p),
         motorState := command,
         motorRunning := 1,
         stepsTaken := 0)
    else if command == Oscillate then
      s.(motorDir := 0,
         motorState := Oscillate,
         stepCountConstant := 0,
         motorRunning := 1,
         stepsTaken := 0)
    else
      // command 0, and every unrecognised command as a fail-safe
      s.(motorState := Stopped, stepsRemaining := 0, motorRunning := 0, output := 0)
  }

  // ---------------------------------------------------------------------
  // The invariant

  lemma InitialIsConsistent()
    ensures Consistent(Initial) && IsStopped(Initial)
  {
  }


  // ---------------------------------------------------------------------
  // The tick handler

  /** A stepping tick in mode 1 or 2 moves the phase one place in the run's
      direction modulo 8, drives that phase, counts one step taken, counts a
      bounded run down and leaves an unbounded one unbounded. */
  lemma TickSteps(s: MotionState, pd4High: bool, pd5High: bool)
    requires 0 <= s.phaseCounter < 8
    requires s.motorState == Clockwise || s.motorState == CounterClockwise
    requires s.stepsRemaining != 0
    ensures var r := Tick(s, pd4High, pd5High);
      && r.phaseCounter == (if s.motorState == Clockwise then (s.phaseCounter + 1) % 8 else (s.phaseCounter - 1) % 8)
      && 0 <= r.phaseCounter < 8
      && r.output == Phase(r.phaseCounter)
      && r.stepsTaken == s.stepsTaken + 1
      && (s.stepsRemaining > 0 ==> r.stepsRemaining == s.stepsRemaining - 1)
      && (s.stepsRemaining < 0 ==> r.stepsRemaining == Unbounded)
      && r.(phaseCounter := s.phaseCounter, output := s.output,
            stepsTaken := s.stepsTaken, stepsRemaining := s.stepsRemaining) == s
  {
    NextPhaseIsModular(s.phaseCounter, s.motorState == Clockwise);
  }

  /** A tick in mode 1 or 2 with nothing left to do ends the run and turns
      the drive lines off; nothing else changes. */
  lemma TickEndsRun(s: MotionState, pd4High: bool, pd5High: bool)
    requires s.motorState == Clockwise || s.motorState == CounterClockwise
    requires s.stepsRemaining == 0
    ensures IsStopped(Tick(s, pd4High, pd5High))
    ensures Tick(s, pd4High, pd5High).(motorState := s.motorState, motorRunning := s.motorRunning, output := s.output) == s
  {
  }

  /** A tick while stopped only turns the drive lines off, so a second one
      changes nothing. */
  lemma TickWhileStopped(s: MotionState, pd4High: bool, pd5High: bool, pd4High': bool, pd5High': bool)
    requires s.motorState == Stopped
    ensures Tick(s, pd4High, pd5High) == s.(output := 0)
    ensures Tick(Tick(s, pd4High, pd5High), pd4High', pd5High') == Tick(s, pd4High, pd5High)
  {
  }

  /** A tick in mode 3 reverses the direction exactly when either pin reads
      high, steps the phase up in direction 0 and down otherwise, drives the
      new phase and grows the free-run step counter. */
  lemma TickOscillates(s: MotionState, pd4High: bool, pd5High: bool)
    requires 0 <= s.phaseCounter < 8
    requires s.motorState == Oscillate
    ensures var r := Tick(s, pd4High, pd5High);
      && ((r.motorDir == 0) <==> ((s.motorDir == 0) != (pd4High || pd5High)))
      && (!(pd4High || pd5High) ==> r.motorDir == s.motorDir)
      && (pd4High || pd5High ==> r.motorDir == 0 || r.motorDir == 1)
      && r.phaseCounter == (if r.motorDir == 0 then (s.phaseCounter + 1) % 8 else (s.phaseCounter - 1) % 8)
      && r.output == Phase(r.phaseCounter)
      && r.stepCountConstant == s.stepCountConstant + 1
      && r.(motorDir := s.motorDir, phaseCounter := s.phaseCounter, output := s.output,
            stepCountConstant := s.stepCountConstant) == s
  {
    var dir := if pd4High || pd5High then Flip(s.motorDir) else s.motorDir;
    NextPhaseIsModular(s.phaseCounter, dir == 0);
  }

  /** With both pins high (no button held, the inputs being pulled up) the
      direction reverses on every tick in mode 3, so two ticks return the
      motor to the phase it started from. */
  lemma {:induction false} OscillateJitter(s: MotionState)
    requires Consistent(s) && s.motorState == Oscillate
    ensures Tick(Tick(s, true, true), true, true).phaseCounter == s.phaseCounter
    ensures Tick(Tick(s, true, true), true, true).motorDir == s.motorDir
  {
    var dir := Flip(s.motorDir);
    NextPhaseInverse(s.phaseCounter, dir == 0);
  }

  // ---------------------------------------------------------------------
  // The button handler

  /** With no button down the handler changes nothing. */
  lemma PressWithoutButton(s: MotionState)
    ensures Press(s, true, true) == s
  {
  }

  /** A press while the motor is idle flips `motorDir` and starts an
      unbounded run in the new direction, whichever button it was. */
  lemma PressStartsRun(s: MotionState, pd4High: bool, pd5High: bool)
    requires !(pd4High && pd5High)
    requires s.motorRunning == 0
    ensures var r := Press(s, pd4High, pd5High);
      && (r.motorDir == 0 <==> s.motorDir != 0)
      && (r.motorDir == 0 || r.motorDir == 1)
      && r.motorRunning == 1
      && r.stepsTaken == 0
      && r.lastButtonPressed == ButtonDown(pd4High, pd5High) != NoButton
      && r.motorState == (if r.motorDir == 0 then Clockwise else CounterClockwise)
      && r.stepsRemaining == Unbounded
      && r.(motorDir := s.motorDir, motorRunning := s.motorRunning, stepsTaken := s.stepsTaken,
            lastButtonPressed := s.lastButtonPressed, motorState := s.motorState,
            stepsRemaining := s.stepsRemaining) == s
  {
  }

  /** While running, pressing the other button stops the motor at once,
      records the steps taken and forgets the button. */
  lemma PressOtherButtonStops(s: MotionState, pd4High: bool, pd5High: bool)
    requires !(pd4High && pd5High)
    requires s.motorRunning != 0
    requires ButtonDown(pd4High, pd5High) != s.lastButtonPressed
    ensures var r := Press(s, pd4High, pd5High);
      && IsStopped(r)
      && r.lastStepsBetweenPresses == s.stepsTaken
      && r.lastButtonPressed == NoButton
      && r.(motorRunning := s.motorRunning, motorState := s.motorState, stepsRemaining := s.stepsRemaining,
            output := s.output, lastStepsBetweenPresses := s.lastStepsBetweenPresses,
            lastButtonPressed := s.lastButtonPressed) == s
  {
  }

  /** While running, pressing the same button again is not a toggle: it
      changes nothing. */
  lemma PressSameButtonIgnored(s: MotionState, pd4High: bool, pd5High: bool)
    requires s.motorRunning != 0
    requires ButtonDown(pd4High, pd5High) == s.lastButtonPressed
    ensures Press(s, pd4High, pd5High) == s
  {
  }

  // ---------------------------------------------------------------------
  // The foreground loop

  /** The replay branch with a valid request starts a bounded run of the
      requested share of the recorded distance and consumes the record. */
  lemma ReplayStartsScaledRun(s: MotionState, percent: nat, command: nat)
    requires ReplayPending(s)
    requires percent <= 100 && (command == Clockwise || command == CounterClockwise)
    ensures var r := Dispatch(s, percent, command);
      && r.motorState == command && r.motorRunning == 1 && r.stepsTaken == 0
      && r.stepsRemaining == Scale(s.lastStepsBetweenPresses, percent)
      && 1 <= r.stepsRemaining <= s.lastStepsBetweenPresses
      && (r.stepsRemaining == 1 || r.stepsRemaining * 100 <= s.lastStepsBetweenPresses * percent < (r.stepsRemaining + 1) * 100)
      && r.lastStepsBetweenPresses == 0
      && r.(motorState := s.motorState, motorRunning := s.motorRunning, stepsTaken := s.stepsTaken,
            stepsRemaining := s.stepsRemaining, lastStepsBetweenPresses := s.lastStepsBetweenPresses) == s
  {
    ScaleBounded(s.lastStepsBetweenPresses, percent);
  }

  /** The replay branch ignores every other request: a percentage above
      100, or a command other than 1 and 2 (0 and 3 included). */
  lemma ReplayIgnoresOtherInput(s: MotionState, percent: nat, command: nat)
    requires ReplayPending(s)
    requires percent > 100 || (command != Clockwise && command != CounterClockwise)
    ensures Dispatch(s, percent, command) == s
  {
  }

  /** Outside the replay branch, commands 1 and 2 start a bounded run of a
      share of the step-count constant, the percentage clamped to 100. */
  lemma CommandStartsRun(s: MotionState, percent: nat, command: nat)
    requires !ReplayPending(s)
    requires command == Clockwise || command == CounterClockwise
    ensures var r := Dispatch(s, percent, command);
      && var p := if percent > 100 then 100 else percent;
      && r.motorState == command && r.motorRunning == 1 && r.stepsTaken == 0
      && r.stepsRemaining == Scale(s.stepCountConstant, p)
      && r.stepsRemaining >= 1
      && (s.stepCountConstant >= 1 ==> r.stepsRemaining <= s.stepCountConstant)
      && (r.stepsRemaining == 1 || r.stepsRemaining * 100 <= s.stepCountConstant * p < (r.stepsRemaining + 1) * 100)
      && r.(motorState := s.motorState, motorRunning := s.motorRunning, stepsTaken := s.stepsTaken,
            stepsRemaining := s.stepsRemaining) == s
  {
    var p := if percent > 100 then 100 else percent;
    ScaleBounded(s.stepCountConstant, p);
  }

  /** Outside the replay branch, command 3 enters the oscillating mode in
      direction 0 with the step counter reset, keeping `stepsRemaining`. */
  lemma CommandOscillates(s: MotionState, percent: nat)
    requires !ReplayPending(s)
    ensures var r := Dispatch(s, percent, Oscillate);
      && r.motorDir == 0 && r.motorState == Oscillate && r.stepCountConstant == 0
      && r.motorRunning == 1 && r.stepsTaken == 0
      && r.(motorDir := s.motorDir, motorState := s.motorState, stepCountConstant := s.stepCountConstant,
            motorRunning := s.motorRunning, stepsTaken := s.stepsTaken) == s
  {
  }

  /** Command 0 and every unrecognised command leave the motor stopped with
      its drive lines off, in both branches, and change nothing else. */
  lemma CommandStops(s: MotionState, percent: nat, command: nat)
    requires Consistent(s)
    requires command != Clockwise && command != CounterClockwise && command != Oscillate
    ensures var r := Dispatch(s, percent, command);
      && IsStopped(r)
      && r.(motorState := s.motorState, motorRunning := s.motorRunning, stepsRemaining := s.stepsRemaining,
            output := s.output) == s
  {
  }

  /** Sending a stop command twice leaves the same state as sending it once. */
  lemma CommandStopIdempotent(s: MotionState, p1: nat, c1: nat, p2: nat, c2: nat)
    requires Consistent(s)
    requires c1 != Clockwise && c1 != CounterClockwise && c1 != Oscillate
    requires c2 != Clockwise && c2 != CounterClockwise && c2 != Oscillate
    ensures Dispatch(Dispatch(s, p1, c1), p2, c2) == Dispatch(s, p1, c1)
  {
  }

  // ---------------------------------------------------------------------
  // Scaling

  /** For percentages up to 100 the share of a positive distance is at
      least one step and at most the whole distance. */
  lemma ScaleBounded(base: nat, percent: nat)
    requires percent <= 100
    ensures 1 <= Scale(base, percent)
    ensures base >= 1 ==> Scale(base, percent) <= base
  {
    MulMonotone(base, percent, 100);
    DivMonotone(base * percent, base * 100);
  }

  /** A larger percentage never gives a shorter move. */
  lemma ScaleMonotone(base: nat, p: nat, q: nat)
    requires p <= q
    ensures Scale(base, p) <= Scale(base, q)
  {
    MulMonotone(base, p, q);
    DivMonotone(base * p, base * q);
  }

  lemma MulMonotone(a: nat, b: nat, c: nat)
    requires b <= c
    ensures a * b <= a * c
  {
    assert a * c - a * b == a * (c - b);
  }

  lemma DivMonotone(x: nat, y: nat)
    requires x <= y
    ensures x / 100 <= y / 100
  {
  }

  /** Replaying half of a recorded run of 200 steps moves 100 steps. */
  lemma ReplayHalfOf200()
    ensures var s := Initial.(lastStepsBetweenPresses := 200);
      var r := Dispatch(s, 50, Clockwise);
      r.stepsRemaining == 100 && r.motorState == Clockwise && r.lastStepsBetweenPresses == 0
  {
  }

  /** Ten percent of three steps floors to zero and is raised to one step. */
  lemma ScaleFloorThenClamp()
    ensures Scale(3, 10) == 1 && Scale(3, 0) == 1
  {
  }
}
