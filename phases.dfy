/** The phase sequencer: the eight-entry commutation table that drives the
    four coil lines, and the +1/-1 step of the phase index with wrap-around. */
module Phases {

  /** The commutation table, low nibble of PORTB for each phase index:
      0b0001, 0b0011, 0b0010, 0b0110, 0b0100, 0b1100, 0b1000, 0b1001. */
  const PhaseTable: seq<int> := [0x1, 0x3, 0x2, 0x6, 0x4, 0xC, 0x8, 0x9]

  /** The drive pattern for phase index `i`: never all-off and only the low four bits. */
  function Phase(i: int): (p: int)
    requires 0 <= i < 8
    ensures 0 < p < 16
    ensures p in PhaseTable
  {
    PhaseTable[i]
  }

  /** A value that may be written to the drive lines: all-off or a table entry. */
  predicate IsDrivePattern(p: int) {
    p == 0 || p in PhaseTable
  }

  /** One step of the phase counter as the tick handler performs it: add or
      subtract one, then wrap 8 to 0 and -1 to 7. */
  function NextPhase(i: int, up: bool): (j: int)
    ensures 0 <= j < 8
  {
    var j := if up then i + 1 else i - 1;
    if j > 7 then 0 else if j < 0 then 7 else j
  }

  /** `n` successive steps in the same direction. */
  function Advance(i: int, up: bool, n: nat): (r: int)
    ensures n > 0 ==> 0 <= r < 8
    decreases n
  {
    if n == 0 then i else Advance(NextPhase(i, up), up, n - 1)
  }

  /** The number of differing bits among the low `width` bits of `a` and `b`. */
  function BitsDiffering(a: nat, b: nat, width: nat): (n: nat)
    ensures n <= width
    decreases width
  {
    if width == 0 then 0
    else (if a % 2 != b % 2 then 1 else 0) + BitsDiffering(a / 2, b / 2, width - 1)
  }

  /** The wrap by comparison is arithmetic modulo 8 on every valid index. */
  lemma NextPhaseIsModular(i: int, up: bool)
    requires 0 <= i < 8
    ensures NextPhase(i, up) == if up then (i + 1) % 8 else (i - 1) % 8
    ensures 0 <= NextPhase(i, up) < 8
  {
  }

  /** Stepping back undoes stepping forward, and vice versa. */
  lemma NextPhaseInverse(i: int, up: bool)
    requires 0 <= i < 8
    ensures NextPhase(NextPhase(i, up), !up) == i
  {
  }

  /** `n` steps up move the index by `n` modulo 8, `n` steps down by `-n`. */
  lemma {:induction false} AdvanceIsModular(i: int, up: bool, n: nat)
    requires 0 <= i < 8
    ensures Advance(i, up, n) == if up then (i + n) % 8 else (i - n) % 8
    decreases n
  {
    if n > 0 {
      NextPhaseIsModular(i, up);
      var j := NextPhase(i, up);
      AdvanceIsModular(j, up, n - 1);
      if up {
        assert (j + (n - 1)) % 8 == (i + n) % 8 by {
          assert j == (i + 1) % 8;
          ModShift(i + 1, n - 1);
        }
      } else {
        assert (j - (n - 1)) % 8 == (i - n) % 8 by {
          assert j == (i - 1) % 8;
          ModShift(i - 1, -(n - 1));
        }
      }
    }
  }

  /** Reducing modulo 8 before adding an offset does not change the result. */
  lemma ModShift(x: int, d: int)
    ensures (x % 8 + d) % 8 == (x + d) % 8
  {
    var q := x / 8;
    assert x == 8 * q + x % 8;
    assert x + d == (x % 8 + d) + 8 * q;
  }

  /** Cyclic closure: eight steps in either direction return to the starting
      index, and hence to the same drive pattern. */
  lemma AdvanceCycle(i: int, up: bool)
    requires 0 <= i < 8
    ensures Advance(i, up, 8) == i
    ensures Phase(Advance(i, up, 8)) == Phase(i)
  {
    AdvanceIsModular(i, up, 8);
  }

  /** The table is a cyclic one-bit (Gray-code) sequence of four-bit patterns:
      every entry is below 16, and each entry differs from its successor,
      including the last entry from the first, in exactly one bit. */
  lemma PhaseTableIsGray(i: int)
    requires 0 <= i < 8
    ensures PhaseTable[i] < 16
    ensures BitsDiffering(PhaseTable[i], PhaseTable[NextPhase(i, true)], 4) == 1
    ensures BitsDiffering(PhaseTable[i], PhaseTable[NextPhase(i, false)], 4) == 1
  {
    SuccessorsOneBitApart();
    var j := NextPhase(i, false);
    assert NextPhase(j, true) == i;
    BitsDifferingSymmetric(PhaseTable[j], PhaseTable[i], 4);
  }

  /** Each entry and the next, cyclically, differ in one bit. */
  lemma SuccessorsOneBitApart()
    ensures forall i :: 0 <= i < 8 ==> BitsDiffering(PhaseTable[i], PhaseTable[NextPhase(i, true)], 4) == 1
  {
    assert BitsDiffering(1, 3, 4) == 1;
    assert BitsDiffering(3, 2, 4) == 1;
    assert BitsDiffering(2, 6, 4) == 1;
    assert BitsDiffering(6, 4, 4) == 1;
    assert BitsDiffering(4, 12, 4) == 1;
    assert BitsDiffering(12, 8, 4) == 1;
    assert BitsDiffering(8, 9, 4) == 1;
    assert BitsDiffering(9, 1, 4) == 1;
  }

  /** Counting differing bits does not depend on the order of the operands. */
  lemma {:induction false} BitsDifferingSymmetric(a: nat, b: nat, width: nat)
    ensures BitsDiffering(a, b, width) == BitsDiffering(b, a, width)
    decreases width
  {
    if width > 0 {
      BitsDifferingSymmetric(a / 2, b / 2, width - 1);
    }
  }
}
