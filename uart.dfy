/** The decimal reader of the command channel. The blocking receive of one
    character is replaced by an input sequence: a reader that runs out of
    input is one that would still be waiting for the next character. */
module Uart {
  import opened Wrappers

  predicate IsDigit(c: char) {
    '0' <= c <= '9'
  }

  function DigitValue(c: char): (d: nat)
    requires IsDigit(c)
    ensures d < 10
  {
    (c as int) - ('0' as int)
  }

  function DigitChar(d: nat): (c: char)
    requires d < 10
    ensures IsDigit(c) && DigitValue(c) == d
  {
    (('0' as int) + d) as char
  }

  predicate AllDigits(s: seq<char>) {
    forall k :: 0 <= k < |s| ==> IsDigit(s[k])
  }

  /** Characters the reader skips before a number: none of them a digit. */
  predicate NoDigits(s: seq<char>) {
    forall k :: 0 <= k < |s| ==> !IsDigit(s[k])
  }

  /** The value of a digit string read most significant digit first, the
      order in which the reader accumulates it. */
  function DecimalValue(s: seq<char>): (v: nat)
    requires AllDigits(s)
    ensures v < Pow10(|s|)
    decreases |s|
  {
    if s == [] then 0 else DecimalValue(s[..|s| - 1]) * 10 + DigitValue(s[|s| - 1])
  }

  /** Ten to the power `n`: an `n`-digit string reads as a value below it. */
  function Pow10(n: nat): (p: nat)
    ensures p >= 1
  {
    if n == 0 then 1 else 10 * Pow10(n - 1)
  }

  /** The decimal rendering of `n`, without leading zeros. */
  function Decimal(n: nat): (s: seq<char>)
    ensures 1 <= |s| && AllDigits(s)
    decreases n
  {
    if n < 10 then [DigitChar(n)] else Decimal(n / 10) + [DigitChar(n % 10)]
  }

  /** Reading back a rendered number gives the number. */
  lemma {:induction false} DecimalRoundTrip(n: nat)
    ensures DecimalValue(Decimal(n)) == n
    decreases n
  {
    if n >= 10 {
      DecimalRoundTrip(n / 10);
      var s := Decimal(n);
      assert s[..|s| - 1] == Decimal(n / 10);
    }
  }

  /** The index of the first digit at or after `from`, or `|s|` if there is none. */
  function FirstDigit(s: seq<char>, from: nat): (i: nat)
    requires from <= |s|
    ensures from <= i <= |s|
    ensures forall k :: from <= k < i ==> !IsDigit(s[k])
    ensures i < |s| ==> IsDigit(s[i])
    decreases |s| - from
  {
    if from == |s| || IsDigit(s[from]) then from else FirstDigit(s, from + 1)
  }

  /** The index of the first non-digit at or after `from`, or `|s|` if there is none. */
  function RunEnd(s: seq<char>, from: nat): (j: nat)
    requires from <= |s|
    ensures from <= j <= |s|
    ensures forall k :: from <= k < j ==> IsDigit(s[k])
    ensures j < |s| ==> !IsDigit(s[j])
    decreases |s| - from
  {
    if from == |s| || !IsDigit(s[from]) then from else RunEnd(s, from + 1)
  }

  /** A number read from the channel and the count of characters consumed. */
  datatype Reading = Reading(value: nat, used: nat)

  /** What one read of a number yields on input `s`: non-digits are skipped,
      the first maximal run of digits is accumulated, and the non-digit that
      ends the run is consumed too. `None` when the input ends before such a
      terminating non-digit arrives. */
  function ParseNumber(s: seq<char>): (r: Option<Reading>)
    ensures r.Some? ==> 2 <= r.value.used <= |s| && !IsDigit(s[r.value.used - 1])
    ensures r.Some? ==> IsDigit(s[r.value.used - 2])
  {
    var i := FirstDigit(s, 0);
    if i == |s| then None
    else
      var j := RunEnd(s, i);
      if j == |s| then None else Some(Reading(DecimalValue(s[i..j]), j + 1))
  }

  /** The reader as the firmware runs it: skip until a digit, then accumulate
      `value * 10 + digit` until the next non-digit. */
  method ReadNumber(input: seq<char>) returns (r: Option<Reading>)
    ensures r == ParseNumber(input)
  {
    var pos := 0;
    while pos < |input| && !IsDigit(input[pos])
      invariant 0 <= pos <= |input|
      invariant forall k :: 0 <= k < pos ==> !IsDigit(input[k])
    {
      pos := pos + 1;
    }
    if pos == |input| {
      return None;
    }
    var start := pos;
    var value := 0;
    while pos < |input| && IsDigit(input[pos])
      invariant start <= pos <= |input|
      invariant forall k :: start <= k < pos ==> IsDigit(input[k])
      invariant value == DecimalValue(input[start..pos])
    {
      assert input[start..pos + 1][..pos - start] == input[start..pos];
      value := value * 10 + DigitValue(input[pos]);
      pos := pos + 1;
    }
    if pos == |input| {
      return None;
    }
    r := Some(Reading(value, pos + 1));
  }

  /** A run of digits after any run of non-digits and followed by a
      non-digit is read as its decimal value, consuming through the
      terminator; leading zeros included. */
  lemma ParseNumberOfDigits(s: seq<char>, junk: seq<char>, d: seq<char>, t: char, rest: seq<char>)
    requires NoDigits(junk)
    requires 1 <= |d| && AllDigits(d)
    requires !IsDigit(t)
    requires s == junk + d + [t] + rest
    ensures ParseNumber(s) == Some(Reading(DecimalValue(d), |junk| + |d| + 1))
  {
    NumberLayout(s, junk, d, t, rest);
    ParseNumberOfPieces(s, junk, d, t);
  }

  /** Where the parts of a terminated number sit in the input. */
  lemma NumberLayout(s: seq<char>, junk: seq<char>, d: seq<char>, t: char, rest: seq<char>)
    requires s == junk + d + [t] + rest
    ensures |junk| + |d| < |s| && s[..|junk|] == junk && s[|junk|..|junk| + |d|] == d
    ensures s[|junk| + |d|] == t && s[|junk| + |d| + 1..] == rest
  {
  }

  /** The reading of an input that begins with the non-digits `junk`, then
      the digit run `d`, then the non-digit `t`. */
  lemma ParseNumberOfPieces(s: seq<char>, junk: seq<char>, d: seq<char>, t: char)
    requires NoDigits(junk)
    requires 1 <= |d| && AllDigits(d)
    requires !IsDigit(t)
    requires |junk| + |d| < |s| && s[..|junk|] == junk && s[|junk|..|junk| + |d|] == d
    requires s[|junk| + |d|] == t
    ensures ParseNumber(s) == Some(Reading(DecimalValue(d), |junk| + |d| + 1))
  {
    PiecesAt(s, junk, d, t);
    ParseNumberAt(s, |junk|, |junk| + |d|, d);
  }

  /** The pieces of a terminated number, stated index by index. */
  lemma PiecesAt(s: seq<char>, junk: seq<char>, d: seq<char>, t: char)
    requires NoDigits(junk) && AllDigits(d) && !IsDigit(t)
    requires |junk| + |d| < |s| && s[..|junk|] == junk && s[|junk|..|junk| + |d|] == d
    requires s[|junk| + |d|] == t
    ensures forall k :: 0 <= k < |junk| ==> !IsDigit(s[k])
    ensures forall k :: |junk| <= k < |junk| + |d| ==> IsDigit(s[k])
    ensures !IsDigit(s[|junk| + |d|])
  {
    forall k | 0 <= k < |junk|
      ensures !IsDigit(s[k])
    {
      assert s[k] == s[..|junk|][k];
    }
    forall k | |junk| <= k < |junk| + |d|
      ensures IsDigit(s[k])
    {
      assert s[k] == s[|junk|..|junk| + |d|][k - |junk|];
    }
  }

  /** The reading of an input whose first digit is at `i` and whose digit
      run `d` ends, at a non-digit, at `j`. */
  lemma ParseNumberAt(s: seq<char>, i: nat, j: nat, d: seq<char>)
    requires i < j < |s|
    requires forall k :: 0 <= k < i ==> !IsDigit(s[k])
    requires forall k :: i <= k < j ==> IsDigit(s[k])
    requires !IsDigit(s[j]) && s[i..j] == d
    ensures AllDigits(d)
    ensures ParseNumber(s) == Some(Reading(DecimalValue(d), j + 1))
  {
    assert IsDigit(s[i]);
    assert FirstDigit(s, 0) == i;
    assert RunEnd(s, i) == j;
  }

  /** A rendered number after any non-digits and followed by a non-digit is
      read back exactly. */
  lemma ParseNumberOfDecimal(s: seq<char>, junk: seq<char>, n: nat, t: char, rest: seq<char>)
    requires NoDigits(junk) && !IsDigit(t)
    requires s == junk + Decimal(n) + [t] + rest
    ensures ParseNumber(s) == Some(Reading(n, |junk| + |Decimal(n)| + 1))
  {
    ParseNumberOfDigits(s, junk, Decimal(n), t, rest);
    DecimalRoundTrip(n);
  }
}
