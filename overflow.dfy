/** The normal-branch move length as the firmware computes it on the
    target, where `int` is 16 bits wide, beside the mathematical scaling the
    rest of the model uses. The product `stepCountConstant * percent`
    exceeds the 16-bit range for the power-on constant 1000 and any
    percentage from 33 up, so the firmware's step count is wrong there and,
    for many of those percentages, negative, which the tick handler treats
    as an unbounded run. */
module Overflow {
  import opened Motion

  /** Two's-complement reduction into the range of a 16-bit `int`. */
  function WrapInt16(x: int): (r: int)
    ensures -0x8000 <= r < 0x8000
    ensures (x - r) % 0x1_0000 == 0
  {
    (x + 0x8000) % 0x1_0000 - 0x8000
  }

  /** C's integer division: the quotient is truncated toward zero, so the
      remainder takes the sign of the dividend and is smaller than the divisor. */
  function DivTrunc(a: int, b: int): (q: int)
    requires b > 0
    ensures a >= 0 ==> 0 <= a - q * b < b
    ensures a < 0 ==> -b < a - q * b <= 0
  {
    if a >= 0 then a / b else -((-a) / b)
  }

  /** The move length of commands 1 and 2 outside the replay branch, with
      the 16-bit product and the truncating division of the firmware. Never
      zero, and never more than 327 steps either way, whatever the constant. */
  function ScaleAsWritten(constant: int, percent: int): (r: int)
    ensures r != 0 && -327 <= r <= 327
  {
    var steps := DivTrunc(WrapInt16(constant * percent), 100);
    if steps == 0 then 1 else steps
  }

  /** Counterexamples at the power-on constant 1000: a full move (100 %)
      and a half move (50 %) come out negative, 70 % comes out as 44 steps;
      the intended lengths are 1000, 500 and 700. */
  lemma ScaleAsWrittenOverflows()
    ensures ScaleAsWritten(1000, 100) == -310 && Scale(1000, 100) == 1000
    ensures ScaleAsWritten(1000, 50) == -155 && Scale(1000, 50) == 500
    ensures ScaleAsWritten(1000, 70) == 44 && Scale(1000, 70) == 700
  {
  }

  /** The as-written length agrees with the intended one whenever the
      product fits in 16 bits, as it does for every percentage up to 32 at
      the power-on constant. */
  lemma ScaleAsWrittenAgreesWithoutOverflow(constant: nat, percent: nat)
    requires constant * percent < 0x8000
    ensures ScaleAsWritten(constant, percent) == Scale(constant, percent)
  {
    var product := constant * percent;
    assert WrapInt16(product) == product;
    assert DivTrunc(product, 100) == product / 100;
  }

  /** A negative move length, as the overflow produces, never runs out:
      the tick handler keeps stepping and pins `stepsRemaining` at -1. */
  lemma NegativeLengthNeverStops(s: MotionState, pd4High: bool, pd5High: bool)
    requires s.motorState == Clockwise || s.motorState == CounterClockwise
    requires s.stepsRemaining < 0
    ensures var r := Tick(s, pd4High, pd5High);
      r.stepsRemaining == Unbounded && r.motorState == s.motorState && r.stepsTaken == s.stepsTaken + 1
  {
  }

  /** The intended length, which the model uses, is a positive bounded
      countdown: for every constant and percentage up to 100 it lies
      between 1 and the constant (for a positive constant), so a run that
      it starts ends after that many ticks. */
  lemma ScaleIsBoundedCountdown(constant: nat, percent: nat)
    requires percent <= 100
    ensures 1 <= Scale(constant, percent)
    ensures constant >= 1 ==> Scale(constant, percent) <= constant
    ensures Scale(constant, percent) * 100 <= constant * percent || Scale(constant, percent) == 1
    ensures constant * percent >= 100 ==> constant * percent < (Scale(constant, percent) + 1) * 100
  {
    ScaleBounded(constant, percent);
  }
}
