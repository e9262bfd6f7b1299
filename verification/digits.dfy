/** Decimal digit strings and zero-padded decimal rendering: what `strptime`'s `%Y`,
    `%m`, `%d` read from a run of digits and what `strftime` writes back. */
module Digits {

  predicate IsDigit(c: char) {
    '0' <= c <= '9'
  }

  predicate AllDigits(s: string) {
    forall i :: 0 <= i < |s| ==> IsDigit(s[i])
  }

  function Pow10(n: nat): (r: nat)
    ensures r >= 1
  {
    if n == 0 then 1 else 10 * Pow10(n - 1)
  }

  function DigitValue(c: char): nat
    requires IsDigit(c)
  {
    c as int - '0' as int
  }

  function DigitChar(d: nat): (c: char)
    requires d < 10
    ensures IsDigit(c) && DigitValue(c) == d
  {
    ('0' as int + d) as char
  }

  /** The number a run of digits spells, most significant first. */
  function Value(s: string): (r: nat)
    requires AllDigits(s)
    ensures r < Pow10(|s|)
  {
    if |s| == 0 then 0 else 10 * Value(s[..|s| - 1]) + DigitValue(s[|s| - 1])
  }

  /** `n` written in exactly `width` digits, zero-padded on the left (the low `width`
      digits when `n` is wider). */
  function Pad(n: nat, width: nat): (r: string)
    ensures |r| == width && AllDigits(r)
  {
    if width == 0 then [] else Pad(n / 10, width - 1) + [DigitChar(n % 10)]
  }

  /** Reading back a padded number gives the number, when it fits. */
  lemma {:induction false} ValueOfPad(n: nat, width: nat)
    requires n < Pow10(width)
    ensures Value(Pad(n, width)) == n
  {
    if width > 0 {
      var p := Pad(n, width);
      ValueOfPad(n / 10, width - 1);
      assert p[..|p| - 1] == Pad(n / 10, width - 1);
    }
  }

  /** Padding the value of a run of digits to its own length gives the run back. */
  lemma {:induction false} PadOfValue(s: string)
    requires AllDigits(s)
    ensures Pad(Value(s), |s|) == s
  {
    if |s| > 0 {
      var init := s[..|s| - 1];
      PadOfValue(init);
      var v := Value(s);
      assert v / 10 == Value(init) && v % 10 == DigitValue(s[|s| - 1]);
      assert s == init + [s[|s| - 1]];
    }
  }
}
