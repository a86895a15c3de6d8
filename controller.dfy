/** The controller as the firmware holds it: one object whose fields are the
    shared globals and the drive-line port, updated in place by the
    timer-overflow handler, the pin-change handler and the foreground
    command loop. Each handler runs as one atomic step and is proved to
    perform exactly the transition of its counterpart in `Motion`. */
module Controller {
  import opened Wrappers
  import opened Phases
  import opened Motion
  import Uart

  /** A command-loop request: the percentage and the command, in the order
      they are read, and how much input they took. */
  datatype Request = Request(percent: nat, command: nat, used: nat)

  /** What one pass of the command loop reads: a number for the percentage,
      then a number for the command. `None` while the loop would still be
      waiting for input. */
  function ParseRequest(input: seq<char>): (r: Option<Request>)
    ensures r.Some? ==> 4 <= r.value.used <= |input|
  {
    match Uart.ParseNumber(input)
    case None => None
    case Some(p) =>
      match Uart.ParseNumber(input[p.used..])
      case None => None
      case Some(c) => Some(Request(p.value, c.value, p.used + c.used))
  }

  /** A percentage and a command written in decimal, each after any
      non-digits and followed by a separator, are read back as that request. */
  lemma ParseRequestOfDecimals(input: seq<char>, junk1: seq<char>, percent: nat, sep1: char,
                               junk2: seq<char>, command: nat, sep2: char, rest: seq<char>)
    requires Uart.NoDigits(junk1) && Uart.NoDigits(junk2)
    requires !Uart.IsDigit(sep1) && !Uart.IsDigit(sep2)
    requires input == junk1 + Uart.Decimal(percent) + [sep1] + (junk2 + Uart.Decimal(command) + [sep2] + rest)
    ensures ParseRequest(input) == Some(Request(percent, command,
                                                (|junk1| + |Uart.Decimal(percent)| + 1) + (|junk2| + |Uart.Decimal(command)| + 1)))
  {
    ParseRequestOfDigits(input, junk1, Uart.Decimal(percent), sep1, junk2, Uart.Decimal(command), sep2, rest);
    Uart.DecimalRoundTrip(percent);
    Uart.DecimalRoundTrip(command);
  }

  /** Two digit runs, each after any non-digits and followed by a separator,
      are read as the percentage and the command of one request; what comes
      before each number, such as the line feed of a CR LF line end, is
      skipped. */
  lemma ParseRequestOfDigits(input: seq<char>, junk1: seq<char>, dp: seq<char>, sep1: char,
                             junk2: seq<char>, dc: seq<char>, sep2: char, rest: seq<char>)
    requires Uart.NoDigits(junk1) && Uart.NoDigits(junk2)
    requires 1 <= |dp| && Uart.AllDigits(dp) && 1 <= |dc| && Uart.AllDigits(dc)
    requires !Uart.IsDigit(sep1) && !Uart.IsDigit(sep2)
    requires input == junk1 + dp + [sep1] + (junk2 + dc + [sep2] + rest)
    ensures ParseRequest(input) == Some(Request(Uart.DecimalValue(dp), Uart.DecimalValue(dc),
                                                (|junk1| + |dp| + 1) + (|junk2| + |dc| + 1)))
  {
    var tail := junk2 + dc + [sep2] + rest;
    Uart.NumberLayout(input, junk1, dp, sep1, tail);
    Uart.NumberLayout(tail, junk2, dc, sep2, rest);
    ParseRequestOfPieces(input, junk1, dp, sep1, tail, junk2, dc, sep2);
  }

  /** The request read from an input that begins with the non-digits
      `junk1`, the digit run `dp` and the non-digit `sep1`, and continues
      with `tail`, which begins with `junk2`, `dc` and `sep2`. */
  lemma ParseRequestOfPieces(input: seq<char>, junk1: seq<char>, dp: seq<char>, sep1: char,
                             tail: seq<char>, junk2: seq<char>, dc: seq<char>, sep2: char)
    requires Uart.NoDigits(junk1) && Uart.NoDigits(junk2)
    requires 1 <= |dp| && Uart.AllDigits(dp) && 1 <= |dc| && Uart.AllDigits(dc)
    requires !Uart.IsDigit(sep1) && !Uart.IsDigit(sep2)
    requires |junk1| + |dp| < |input| && input[..|junk1|] == junk1 && input[|junk1|..|junk1| + |dp|] == dp
    requires input[|junk1| + |dp|] == sep1 && input[|junk1| + |dp| + 1..] == tail
    requires |junk2| + |dc| < |tail| && tail[..|junk2|] == junk2 && tail[|junk2|..|junk2| + |dc|] == dc
    requires tail[|junk2| + |dc|] == sep2
    ensures ParseRequest(input) == Some(Request(Uart.DecimalValue(dp), Uart.DecimalValue(dc),
                                                (|junk1| + |dp| + 1) + (|junk2| + |dc| + 1)))
  {
    Uart.ParseNumberOfPieces(input, junk1, dp, sep1);
    Uart.ParseNumberOfPieces(tail, junk2, dc, sep2);
    ParseRequestOfReadings(input, junk1, dp, Uart.DecimalValue(dp), tail, junk2, dc, Uart.DecimalValue(dc));
  }

  /** The request read from a number reading of the input and a number
      reading of what the first one left over. */
  lemma ParseRequestOfReadings(input: seq<char>, junk1: seq<char>, dp: seq<char>, percent: nat,
                               tail: seq<char>, junk2: seq<char>, dc: seq<char>, command: nat)
    requires Uart.ParseNumber(input) == Some(Uart.Reading(percent, |junk1| + |dp| + 1))
    requires |junk1| + |dp| + 1 <= |input| && input[|junk1| + |dp| + 1..] == tail
    requires Uart.ParseNumber(tail) == Some(Uart.Reading(command, |junk2| + |dc| + 1))
    ensures ParseRequest(input) == Some(Request(percent, command, (|junk1| + |dp| + 1) + (|junk2| + |dc| + 1)))
  {
  }

  class Motor {
    var phaseCounter: int
    var motorState: int
    var stepsRemaining: int
    var stepCountConstant: nat
    var motorDir: int
    var motorRunning: int
    var stepsTaken: nat
    var lastStepsBetweenPresses: nat
    var lastButtonPressed: int
    /** The drive lines, PORTB. */
    var output: int

    /** The fields as one motion-state value. */
    function Snapshot(): MotionState
      reads this
    {
      MotionState(phaseCounter, motorState, stepsRemaining, stepCountConstant, motorDir,
                  motorRunning, stepsTaken, lastStepsBetweenPresses, lastButtonPressed, output)
    }

    ghost predicate Valid()
      reads this
    {
      Consistent(Snapshot())
    }

    /** Power-on state: the initialisers of the globals and PORTB cleared. */
    constructor ()
      ensures Valid() && Snapshot() == Initial
    {
      phaseCounter := 0;
      motorState := Stopped;
      stepsRemaining := 0;
      stepCountConstant := 1000;
      motorDir := 0;
      motorRunning := 0;
      stepsTaken := 0;
      lastStepsBetweenPresses := 0;
      lastButtonPressed := NoButton;
      output := 0;
    }

    /** The timer-overflow handler; `pd4High` and `pd5High` are the levels
        of the two button pins at the moment it runs. */
    method TimerOverflow(pd4High: bool, pd5High: bool)
      requires Valid()
      modifies this
      ensures Valid()
      ensures Snapshot() == Tick(old(Snapshot()), pd4High, pd5High)
    {
      ghost var before := Snapshot();
      if motorState == Clockwise || motorState == CounterClockwise {
        if stepsRemaining != 0 {
          StepPhase(motorState == Clockwise);
          stepsTaken := stepsTaken + 1;
          if stepsRemaining > 0 {
            stepsRemaining := stepsRemaining - 1;
          } else if stepsRemaining < 0 {
            stepsRemaining := Unbounded;
          }
          assert Snapshot() == Tick(before, pd4High, pd5High);
        } else {
          motorState := Stopped;
          motorRunning := 0;
          output := 0;
          assert Snapshot() == Tick(before, pd4High, pd5High);
        }
      } else if motorState == Oscillate {
        if pd4High || pd5High {
          motorDir := Flip(motorDir);
        }
        StepPhase(motorDir == 0);
        stepCountConstant := stepCountConstant + 1;
        assert Snapshot() == Tick(before, pd4High, pd5High);
      } else {
        output := 0;
      }
    }

    /** The phase step both stepping modes of the tick share: move the
        counter one place up or down, wrap 8 to 0 and -1 to 7, and drive the
        new phase. */
    method StepPhase(up: bool)
      modifies this
      ensures Snapshot() == old(Snapshot()).(phaseCounter := NextPhase(old(phaseCounter), up),
                                             output := Phase(NextPhase(old(phaseCounter), up)))
    {
      if up {
        phaseCounter := phaseCounter + 1;
      } else {
        phaseCounter := phaseCounter - 1;
      }
      if phaseCounter > 7 {
        phaseCounter := 0;
      } else if phaseCounter < 0 {
        phaseCounter := 7;
      }
      output := PhaseTable[phaseCounter];
    }

    /** The pin-change handler for the two buttons; a button is down when
        its pin reads low. The debounce delay is not modelled. */
    method PinChange(pd4High: bool, pd5High: bool)
      requires Valid()
      modifies this
      ensures Valid()
      ensures Snapshot() == Press(old(Snapshot()), pd4High, pd5High)
    {
      var buttonPressed := NoButton;
      if !pd4High {
        buttonPressed := ButtonPD4;
      } else if !pd5High {
        buttonPressed := ButtonPD5;
      }
      if buttonPressed == NoButton {
        return;
      }
      if motorRunning == 0 {
        motorDir := Flip(motorDir);
        motorRunning := 1;
        stepsTaken := 0;
        lastButtonPressed := buttonPressed;
        motorState := if motorDir == 0 then Clockwise else CounterClockwise;
        stepsRemaining := Unbounded;
      } else if buttonPressed != lastButtonPressed {
        motorRunning := 0;
        motorState := Stopped;
        stepsRemaining := 0;
        output := 0;
        lastStepsBetweenPresses := stepsTaken;
        lastButtonPressed := NoButton;
      }
    }

    /** One pass of the command loop after `percent` and then `command`
        have been read. */
    method CommandStep(percent: nat, command: nat)
      requires Valid()
      modifies this
      ensures Valid()
      ensures Snapshot() == Dispatch(old(Snapshot()), percent, command)
    {
      ghost var before := Snapshot();
      if motorRunning == 0 && lastStepsBetweenPresses > 0 {
        // `percent >= 0` holds by its type: the model's reader has no 16-bit
        // wrap-around, so it never yields a negative number
        if percent <= 100 && (command == Clockwise || command == CounterClockwise) {
          var stepsToMove := (lastStepsBetweenPresses * percent) / 100;
          if stepsToMove == 0 {
            stepsToMove := 1;
          }
          motorState := command;
          stepsRemaining := stepsToMove;
          motorRunning := 1;
          stepsTaken := 0;
          lastStepsBetweenPresses := 0;
          assert Snapshot() == Dispatch(before, percent, command);
        }
      } else {
        var p := percent;
        if command == Clockwise || command == CounterClockwise {
          if p > 100 {
            p := 100;
          }
          stepsRemaining := (stepCountConstant * p) / 100;
          if stepsRemaining == 0 {
            stepsRemaining := 1;
          }
          motorState := command;
          motorRunning := 1;
          stepsTaken := 0;
          assert Snapshot() == Dispatch(before, percent, command);
        } else if command == Stopped {
          motorState := Stopped;
          stepsRemaining := 0;
          motorRunning := 0;
          output := 0;
        } else if command == Oscillate {
          motorDir := 0;
          motorState := Oscillate;
          stepCountConstant := 0;
          motorRunning := 1;
          stepsTaken := 0;
        } else {
          motorState := Stopped;
          stepsRemaining := 0;
          motorRunning := 0;
          output := 0;
        }
      }
    }

    /** One pass of the command loop over the characters available on the
        channel: read the percentage, then the command, then act on them.
        If the input ends first, the loop is still waiting and nothing has
        changed. */
    method ServeCommand(input: seq<char>) returns (r: Option<Request>)
      requires Valid()
      modifies this
      ensures Valid()
      ensures r == ParseRequest(input)
      ensures r.None? ==> Snapshot() == old(Snapshot())
      ensures r.Some? ==> Snapshot() == Dispatch(old(Snapshot()), r.value.percent, r.value.command)
    {
      var percent := Uart.ReadNumber(input);
      if percent.None? {
        return None;
      }
      var command := Uart.ReadNumber(input[percent.value.used..]);
      if command.None? {
        return None;
      }
      CommandStep(percent.value.value, command.value.value);
      r := Some(Request(percent.value.value, command.value.value, percent.value.used + command.value.used));
    }
  }
}
