# curtainOpener stepper controller in Dafny

The curtainOpener firmware drives a stepper motor through four drive lines
(PORTB bits 0-3) from an AVR microcontroller. It has three entry points that share one set of global
variables:

- the **timer-overflow interrupt** steps the motor one phase per tick
  through an eight-entry commutation table. It counts a bounded run down
  and stops it, and in mode 3 it runs a free oscillation;
- the **pin-change interrupt** handles two push buttons on PD4 and PD5.
  From idle, a press flips `motor_dir` and starts an unbounded run that
  way. Commands 1 and 2 do not set `motor_dir`, command 3 resets it to 0
  and mode-3 ticks can flip it, so button-started runs alternate only when
  no command run or oscillation comes between them. While running, pressing the *other* button stops the
  motor and records how many steps were taken between the two presses;
- the **foreground loop** reads two decimal numbers from the serial port,
  a percentage and then a command. If a recorded distance is pending and
  the motor is idle, it replays that share of the recorded distance in
  direction 1 or 2. Otherwise it runs command 1 or 2 as a share of the
  step-count constant, command 3 as oscillation, and command 0 or any
  unknown command as a stop.

The model has these modules:

- `Phases` (phases.dfy): the commutation table and the wrap-around phase step.
- `Uart` (uart.dfy): the decimal reader. It is a specification function
  `ParseNumber` over the received characters, with the firmware's
  two-loop reader `ReadNumber` proved equal to it.
- `Motion` (motion.dfy): the shared globals as a value `MotionState`. Each
  handler is an atomic transition on it (`Tick`, `Press`, `Dispatch`), and
  `Consistent` is an invariant that all three keep.
- `Runs` (runs.dfy): properties of sequences of handler calls. They cover
  how a bounded run ends and how the two-button protocol records a
  distance that the loop then replays.
- `Controller` (controller.dfy): the firmware's form. The class `Motor`
  holds the globals and the drive-line port `output` (PORTB) as fields.
  Its methods `TimerOverflow`, `PinChange`, `CommandStep` and
  `ServeCommand` update them in place, branch by branch, and each is proved
  to perform exactly the corresponding `Motion` transition.
- `Overflow` (overflow.dfy): the 16-bit arithmetic of the normal-branch
  move length, kept apart from the mathematical scaling the rest of the
  model uses (see Findings).

The pin levels of PD4 and PD5 are parameters (`pd4High`, `pd5High`, true when
the pin reads high). The serial input is a character sequence. Each handler
runs as one indivisible step.

Three behaviours of the code that are easy to misread:

- **Mode 3 direction flips.** In mode 3 the tick reverses direction when
  PD4 or PD5 reads **high**. The inputs are pulled up, so high means the
  button is *not* held. With no button held, the direction therefore
  flips on every tick, and the motor jitters between two phases
  (`Motion.OscillateJitter`).
- **When a bounded run stops.** A run of N steps takes N stepping ticks
  and stops on tick N + 1, which takes no step: it sets the mode and the
  running flag to 0 and turns the drive lines off
  (`Runs.BoundedRunLength`). It does not stop on tick N.
- **No error replies.** Invalid input in the replay branch is ignored
  silently. No error text is sent, because the serial transmitter is never
  enabled: only the receiver is (main.c:29).

## Model

| member | source | states |
|---|---|---|
| Phases.Phase | main.c:23 | every table entry is a non-zero pattern on the low four drive lines |
| Phases.NextPhase | main.c:181-184 | the wrapped phase index always lies in 0..7 |
| Phases.NextPhaseIsModular | main.c:174-184 | the increment or decrement followed by the 8→0 / −1→7 wrap is +1 or −1 modulo 8 |
| Phases.NextPhaseInverse | main.c:174-184 | a step down undoes a step up and vice versa |
| Phases.AdvanceIsModular | main.c:174-184 | n successive steps move the index by +n or −n modulo 8 |
| Phases.Advance | main.c:174-184 | after at least one step the phase index lies in 0..7 |
| Phases.AdvanceCycle | main.c:23 | eight steps in either direction return to the same phase and drive pattern |
| Phases.PhaseTableIsGray | main.c:23 | each entry is below 16 and differs in exactly one bit from its successor and its predecessor, cyclically (0b1001 back to 0b0001 included) |
| Phases.SuccessorsOneBitApart | main.c:23 | every entry and the next one, cyclically, differ in exactly one of the four bits |
| Phases.BitsDifferingSymmetric | main.c:23 | the number of differing bits does not depend on the order of the two patterns |
| Uart.DigitValue | main.c:49 | a digit character's value is below 10 |
| Uart.DigitChar | main.c:46 | the digit character of a value below 10 is a digit whose value is that value |
| Uart.DecimalValue | main.c:48-53 | the value accumulated as `val * 10 + digit` over k digits is below 10^k |
| Uart.Decimal | main.c:48-53 | the decimal rendering of a number is a non-empty digit string |
| Uart.DecimalRoundTrip | main.c:48-53 | accumulating `value * 10 + digit` over a rendered number gives the number back |
| Uart.FirstDigit | main.c:44-46 | the skip loop stops at the first digit, having passed only non-digits |
| Uart.RunEnd | main.c:48-53 | the accumulate loop stops at the first non-digit after the run, having passed only digits |
| Uart.ParseNumber | main.c:41-55 | a reading consumes at least one digit and the non-digit ending the run, and never more input than there is |
| Uart.ReadNumber | main.c:41-55 | the firmware's two loops (skip non-digits, then accumulate digits) compute exactly `ParseNumber` of the input |
| Uart.ParseNumberOfDigits | main.c:41-55 | any non-digits, then a digit run, then a non-digit read as the run's decimal value, consuming the skipped characters, the digits and the terminator; leading zeros allowed |
| Uart.ParseNumberOfPieces | main.c:41-55 | the same reading for an input that merely begins with those pieces, whatever follows the terminator |
| Uart.ParseNumberAt | main.c:44-53 | an input whose first digit is at i and whose digit run ends at a non-digit at j reads as the run's value, consuming j + 1 characters |
| Uart.ParseNumberOfDecimal | main.c:41-55 | a rendered number after any non-digits and followed by a non-digit reads back as that number: the reader inverts the rendering |
| Motion.Flip | main.c:80 | C's `!` on the direction flag: the result is 0 or 1, and 0 exactly when the flag was non-zero |
| Motion.Scale | main.c:126-128 | the move length is the floor of base·percent/100, raised to 1 when that is 0 |
| Motion.ButtonDown | main.c:68-72 | PD4 low gives button 4, else PD5 low gives button 5, else no button; both directions of each case |
| Motion.InitialIsConsistent | main.c:10-20 | the power-on globals satisfy the invariant and the motor is stopped |
| Motion.Tick | main.c:170-216 | the timer tick keeps the invariant (phase in range, running flag agrees with mode, stopped means no steps and drive lines off, output a table entry or 0) and never touches the recorded distance or the remembered button |
| Motion.Press | main.c:64-100 | the button handler keeps the invariant and never moves the phase or changes the step-count constant |
| Motion.Dispatch | main.c:121-166 | one pass of the command loop keeps the invariant and never moves the phase or touches the remembered button |
| Motion.TickSteps | main.c:171-191 | a tick in mode 1/2 with steps pending moves the phase ±1 mod 8, drives that phase, counts one step, decrements a positive count and leaves a negative one at −1; nothing else changes |
| Motion.TickEndsRun | main.c:192-196 | a tick in mode 1/2 with no steps left stops the motor with the drive lines off and changes nothing else |
| Motion.TickWhileStopped | main.c:214-215 | a tick in mode 0 only clears the drive lines, so it is idempotent |
| Motion.TickOscillates | main.c:197-213 | a tick in mode 3 flips the direction to 0 or 1 iff PD4 or PD5 reads high and otherwise keeps it, steps up in direction 0 and down otherwise, drives the phase and increments the step-count constant; nothing else changes |
| Motion.OscillateJitter | main.c:198-200 | with both pins high, two mode-3 ticks return to the same phase and direction |
| Motion.PressWithoutButton | main.c:75-76 | with neither pin low the handler changes nothing |
| Motion.PressStartsRun | main.c:78-86 | a press while idle flips the direction to 0 or 1, starts an unbounded run in mode 1 (direction 0) or 2, resets the step count and remembers the button; nothing else changes |
| Motion.PressOtherButtonStops | main.c:87-97 | while running, the other button stops the motor, records the steps taken and forgets the button; nothing else changes |
| Motion.PressSameButtonIgnored | main.c:87-98 | while running, the same button changes nothing |
| Motion.ReplayStartsScaledRun | main.c:121-135 | in the replay branch, percent ≤ 100 with command 1 or 2 starts a run in that direction of exactly Scale(last, percent) steps, i.e. floor(last·percent/100) raised to 1, at most the recorded distance, and consumes the record; nothing else changes |
| Motion.ReplayIgnoresOtherInput | main.c:121-125 | in the replay branch, any other percentage or command leaves the state unchanged |
| Motion.CommandStartsRun | main.c:140-148 | in the normal branch, commands 1/2 clamp the percentage to 100 and start a run of exactly Scale(constant, p) steps, i.e. floor(constant·p/100) raised to 1, at most the constant when the constant is positive (command 3 sets it to 0, and then a run is 1 step); nothing else changes |
| Motion.CommandOscillates | main.c:154-159 | command 3 enters mode 3 in direction 0 with the constant reset to 0, keeping `steps_remaining` |
| Motion.CommandStops | main.c:149-165 | command 0 and every unknown command stop the motor with the drive lines off in either branch; nothing else changes |
| Motion.CommandStopIdempotent | main.c:149-165 | a second stop command after the first changes nothing |
| Motion.ScaleBounded | main.c:125-128 | for percentages up to 100 the move is at least one step, and at most the base when the base is positive |
| Motion.ScaleMonotone | main.c:126 | a larger percentage never gives a shorter move |
| Motion.ReplayHalfOf200 | main.c:121-135 | replaying 50 % of a recorded 200 steps runs 100 steps clockwise and consumes the record |
| Motion.ScaleFloorThenClamp | main.c:126-128 | 10 % and 0 % of 3 steps both give one step |
| Runs.Ticks | main.c:170-216 | any number of timer ticks keep the invariant and never touch the recorded distance or the remembered button |
| Runs.TicksCountDown | main.c:171-191 | n ticks of a bounded run with at least n steps left take n steps in the run's direction and count the remaining steps down by n |
| Runs.TicksUnbounded | main.c:171-191 | an unbounded run stays unbounded and counts every tick as a step |
| Runs.TicksWhileStopped | main.c:214-215 | once stopped, any number of ticks changes nothing |
| Runs.TicksAdd | main.c:170-216 | m ticks then n ticks are m + n ticks |
| Runs.BoundedRunLength | main.c:171-196 | a run of N steps has steps pending on each of its first N ticks, stops on tick N + 1 after exactly N steps, and stays stopped |
| Runs.ThousandStepRun | main.c:171-196 | a 1000-step clockwise run from phase 0 stops on tick 1001, back at phase 0 |
| Runs.RecordsTicksBetweenPresses | main.c:64-100 | from idle: press, k ticks, repeated presses of the same button ignored, then the other button stops the motor and records exactly k, pending for replay iff k > 0 |
| Runs.RecordThenReplay | main.c:121-135 | after recording k > 0 ticks, a valid replay request runs between 1 and k steps and consumes the record |
| Overflow.WrapInt16 | main.c:143 | reduction into the 16-bit signed range congruent modulo 2^16 |
| Overflow.DivTrunc | main.c:143 | C division: the quotient truncates toward zero, the remainder takes the dividend's sign |
| Overflow.ScaleAsWritten | main.c:143-145 | the as-written length, 16-bit product then truncating division by 100, is never 0 and never more than 327 steps either way |
| Overflow.ScaleAsWrittenOverflows | main.c:143-145 | with the power-on constant 1000 the 16-bit product gives −310 steps for 100 %, −155 for 50 %, 44 for 70 % (intended 1000, 500, 700) |
| Overflow.ScaleAsWrittenAgreesWithoutOverflow | main.c:143-145 | when the product fits in 16 bits the as-written length is the intended one |
| Overflow.NegativeLengthNeverStops | main.c:188-191 | a negative length, as the overflow produces, is an unbounded run that never counts down |
| Overflow.ScaleIsBoundedCountdown | main.c:140-145 | the intended length for percent ≤ 100 is at least 1, at most the constant when that is positive, and is the floor of constant·percent/100 (both bounds) unless it was raised to 1 |
| Controller.ParseRequest | main.c:137-138 | a request consumes at least two digits and two separators, within the input |
| Controller.ParseRequestOfDigits | main.c:137-138 | two digit runs, each after any non-digits (such as the LF of a CR LF line end) and ended by a non-digit, are read as the percentage and then the command, consuming both numbers with what precedes and ends them |
| Controller.ParseRequestOfPieces | main.c:137-138 | the same request for an input that merely begins with those pieces |
| Controller.ParseRequestOfReadings | main.c:122-123 | the command is read from what the percentage's reading left over, and the request consumes both readings |
| Controller.ParseRequestOfDecimals | main.c:137-138 | a rendered percentage and command, each after any non-digits and ended by a non-digit, are read back exactly, percentage first |
| Controller.Motor.constructor | main.c:10-20 | the fields start at the globals' initialisers with the drive lines off, and satisfy the invariant |
| Controller.Motor.TimerOverflow | main.c:170-216 | the in-place handler leaves the fields equal to `Tick` of the old fields and keeps the invariant |
| Controller.Motor.StepPhase | main.c:173-186 | the shared phase step moves the counter one place up or down with the 8→0 / −1→7 wrap, drives the new phase, and changes no other field |
| Controller.Motor.PinChange | main.c:64-100 | the in-place handler leaves the fields equal to `Press` of the old fields and keeps the invariant |
| Controller.Motor.CommandStep | main.c:121-166 | the in-place loop body leaves the fields equal to `Dispatch` of the old fields and keeps the invariant |
| Controller.Motor.ServeCommand | main.c:120-166 | reads the percentage, then the command, with the firmware's reader and dispatches them; if the input ends first, nothing changes |

## Left out

- Register setup and timing are not modelled: `uart_init`, `buttons_interrupt_init` and the timer, DDR and pull-up setup in `main` (main.c:26-32, 58-61, 106-118). They are hardware configuration.
- The 50 ms debounce delay in the pin-change handler (main.c:102) is timing only and is not modelled.
- The busy-waiting `uart_read_char` (main.c:35-38) becomes a character sequence. The firmware would block when the input ends before a number is terminated; the model returns `None` and changes nothing.
- Interrupts preempting the foreground loop, and each other, are not modelled. Each handler is one atomic transition. Races, such as the loop's read of `motor_running` at main.c:121 being stale by the time the numbers arrive, are not analysed.
- Uart.ReadNumber: does not model the 16-bit `int` overflow of `val * 10 + digit` (main.c:49). The value is the mathematical decimal value, so a reading is never negative. In the firmware it wraps: "40000" reads as −25536 and "65537" as 1.
- Motion.Dispatch: takes the percentage and the command as naturals, a consequence of the reader line above. In the firmware a wrapped, negative percentage is possible. The replay branch's `percent >= 0` test (main.c:125) then rejects it. The normal branch clamps only from above (main.c:141), so a negative percentage reaches the move-length product there.
- Motion.Tick: does not model the 32-bit wrap of `steps_taken` or the 16-bit wrap of `step_count_constant++` in mode 3 (main.c:213). Both counters are unbounded naturals. In the firmware the constant turns negative after 32767 mode-3 ticks, and a negative constant then reaches the move-length product at main.c:143.
- Motion.Dispatch: uses the mathematical product for both move lengths. It does not model the narrowing of the 32-bit replay length into the 16-bit `steps_remaining` (main.c:130). The 16-bit overflow of the normal-branch product (main.c:143) is modelled separately in `Overflow`; see Findings.
- The pin reads of PIND become the booleans `pd4High` and `pd5High`, and PORTB becomes the integer field `output`. Only the four drive lines are modelled.

## Findings

| source | as written | input that shows it | evidently intended | confidence | as-written member | corrected member |
|---|---|---|---|---|---|---|
| main.c:143 | `step_count_constant * percent` is computed in 16-bit `int` before the division by 100 | constant 1000 (its power-on value) with percent 100: the product 100000 wraps to −31072, giving −310 steps, which the tick treats as an unbounded run; 50 % gives −155, 70 % gives 44 | the floor of 1000·percent/100 (1000, 500, 700 steps), a bounded run | not executed; assumes the usual two's-complement wrap of the signed overflow | Overflow.ScaleAsWrittenOverflows | Overflow.ScaleIsBoundedCountdown |
