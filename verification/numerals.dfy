/**
 * Fixed-width, zero-padded decimal numerals, as `strftime` prints the fields
 * `%d`, `%m`, `%Y`, `%I` and `%M`, and their reading back.
 */
module Numerals {

  function Pow10(width: nat): (r: nat)
    ensures r >= 1
  {
    if width == 0 then 1 else 10 * Pow10(width - 1)
  }

  predicate IsDigit(c: char) {
    '0' <= c <= '9'
  }

  predicate AllDigits(s: string) {
    forall k :: 0 <= k < |s| ==> IsDigit(s[k])
  }

  function DigitChar(d: int): (c: char)
    requires 0 <= d < 10
    ensures IsDigit(c)
  {
    ('0' as int + d) as char
  }

  function DigitValue(c: char): int
  {
    c as int - '0' as int
  }

  /** The lowest `width` decimal digits of `n`, most significant first, padded with '0'. */
  function PadDigits(n: nat, width: nat): (r: string)
    ensures |r| == width
    ensures AllDigits(r)
  {
    if width == 0 then ""
    else PadDigits(n / 10, width - 1) + [DigitChar(n % 10)]
  }

  /** A two-digit numeral is the tens digit followed by the units digit. */
  lemma PadTwoDigits(n: nat)
    requires n < 100
    ensures PadDigits(n, 2) == [DigitChar(n / 10), DigitChar(n % 10)]
  {
    var tens := n / 10;
    assert tens < 10 && tens / 10 == 0 && tens % 10 == tens;
    assert PadDigits(tens, 1) == PadDigits(0, 0) + [DigitChar(tens)];
    assert PadDigits(n, 2) == PadDigits(tens, 1) + [DigitChar(n % 10)];
  }

  /** The number a string of decimal digits denotes. */
  function DecimalValue(s: string): int
  {
    if |s| == 0 then 0
    else DecimalValue(s[..|s| - 1]) * 10 + DigitValue(s[|s| - 1])
  }

  /** Reading a padded numeral back gives the number, whenever it fits the width. */
  lemma {:induction false} DecimalValueOfPadDigits(n: nat, width: nat)
    requires n < Pow10(width)
    ensures DecimalValue(PadDigits(n, width)) == n
  {
    if width > 0 {
      var init := PadDigits(n / 10, width - 1);
      var s := init + [DigitChar(n % 10)];
      assert s[..|s| - 1] == init;
      DecimalValueOfPadDigits(n / 10, width - 1);
    }
  }
}
