/** Decimal digit strings: reading them as numbers and writing numbers zero-padded, as Rust's `{:0N}` does. */
module Decimal {

  predicate IsDigit(c: char) {
    '0' <= c <= '9'
  }

  predicate AllDigits(s: string) {
    forall i :: 0 <= i < |s| ==> IsDigit(s[i])
  }

  function DigitValue(c: char): nat
    requires IsDigit(c)
  {
    c as int - '0' as int
  }

  function DigitChar(d: nat): (c: char)
    requires d < 10
    ensures IsDigit(c) && DigitValue(c) == d
  {
    ('0' as int + d) as char
  }

  function Pow10(n: nat): (p: nat)
    ensures p >= 1
  {
    if n == 0 then 1 else 10 * Pow10(n - 1)
  }

  function Max(a: nat, b: nat): nat {
    if a < b then b else a
  }

  /** The value of a string of decimal digits, most significant first. */
  function NatOf(s: string): nat
    requires AllDigits(s)
  {
    if s == [] then 0 else 10 * NatOf(s[..|s| - 1]) + DigitValue(s[|s| - 1])
  }

  /** The last `width` decimal digits of `n`, with leading zeros. */
  function FixedDigits(n: nat, width: nat): (s: string)
    ensures |s| == width && AllDigits(s)
  {
    if width == 0 then [] else FixedDigits(n / 10, width - 1) + [DigitChar(n % 10)]
  }

  /** The number of digits in the shortest decimal form of `n`. */
  function NumDigits(n: nat): nat {
    if n < 10 then 1 else 1 + NumDigits(n / 10)
  }

  /** `n` written with at least `width` digits, zero-padded on the left and never truncated. */
  function Pad(n: nat, width: nat): string {
    FixedDigits(n, Max(width, NumDigits(n)))
  }

  /** `n` formatted as Rust's `{:0width}` does: the sign counts towards the width, zeros go after the sign. */
  function PadSigned(n: int, width: nat): string {
    if n >= 0 then Pad(n, width) else "-" + Pad(-n, if width > 0 then width - 1 else 0)
  }

  lemma {:induction false} NatOfBound(s: string)
    requires AllDigits(s)
    ensures NatOf(s) < Pow10(|s|)
  {
    if s != [] {
      NatOfBound(s[..|s| - 1]);
    }
  }

  /** Reading back `width` zero-padded digits gives the number, when it fits. */
  lemma {:induction false} NatOfFixedDigits(n: nat, width: nat)
    requires n < Pow10(width)
    ensures NatOf(FixedDigits(n, width)) == n
  {
    if width > 0 {
      var q, d := n / 10, n % 10;
      assert n == 10 * q + d;
      assert q < Pow10(width - 1);
      NatOfFixedDigits(q, width - 1);
      var init := FixedDigits(q, width - 1);
      var s := FixedDigits(n, width);
      assert s == init + [DigitChar(d)];
      assert s[..|s| - 1] == init;
      assert DigitValue(s[|s| - 1]) == d;
    }
  }

  /** Writing back a digit string's value at its own width gives the string. */
  lemma {:induction false} FixedDigitsOfNatOf(s: string)
    requires AllDigits(s)
    ensures FixedDigits(NatOf(s), |s|) == s
  {
    if s != [] {
      var init, c := s[..|s| - 1], s[|s| - 1];
      FixedDigitsOfNatOf(init);
      var a, v := NatOf(init), DigitValue(c);
      assert (10 * a + v) / 10 == a && (10 * a + v) % 10 == v;
      assert DigitChar(v) == c;
      assert s == init + [c];
    }
  }

  lemma {:induction false} NumDigitsFits(n: nat, width: nat)
    requires 1 <= width && n < Pow10(width)
    ensures NumDigits(n) <= width
  {
    if n >= 10 {
      NumDigitsFits(n / 10, width - 1);
    }
  }

  /** Padding a number that fits the width is writing exactly `width` digits. */
  lemma PadFits(n: nat, width: nat)
    requires 1 <= width && n < Pow10(width)
    ensures Pad(n, width) == FixedDigits(n, width)
  {
    NumDigitsFits(n, width);
  }

  /** Two numbers below 10^width with the same `width`-digit form are equal. */
  lemma FixedDigitsInjective(m: nat, n: nat, width: nat)
    requires m < Pow10(width) && n < Pow10(width)
    requires FixedDigits(m, width) == FixedDigits(n, width)
    ensures m == n
  {
    NatOfFixedDigits(m, width);
    NatOfFixedDigits(n, width);
  }
}
