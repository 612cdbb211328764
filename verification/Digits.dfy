/** Decimal and hexadecimal text of natural numbers, shared by prices, sizes and file names. */
module Digits {

  function Pow10(n: nat): nat
    ensures Pow10(n) > 0
  {
    if n == 0 then 1 else 10 * Pow10(n - 1)
  }

  predicate IsDigit(c: char) {
    '0' <= c <= '9'
  }

  predicate AllDigits(s: string) {
    forall i | 0 <= i < |s| :: IsDigit(s[i])
  }

  function DigitChar(d: nat): (c: char)
    requires d < 10
    ensures IsDigit(c) && c as int - '0' as int == d
  {
    '0' + d as char
  }

  /** The number a digit string denotes; the empty string denotes zero. */
  function Value(s: string): nat
    requires AllDigits(s)
  {
    if |s| == 0 then 0
    else 10 * Value(s[..|s| - 1]) + (s[|s| - 1] as int - '0' as int)
  }

  /** The decimal text of `n` without leading zeros. */
  function Dec(n: nat): string {
    if n < 10 then [DigitChar(n)] else Dec(n / 10) + [DigitChar(n % 10)]
  }

  /** The last `width` decimal digits of `n`, padded with zeros. */
  function Padded(n: nat, width: nat): string {
    if width == 0 then "" else Padded(n / 10, width - 1) + [DigitChar(n % 10)]
  }

  lemma {:induction false} ValueOfDec(n: nat)
    ensures AllDigits(Dec(n)) && |Dec(n)| >= 1 && Value(Dec(n)) == n
  {
    if n >= 10 {
      ValueOfDec(n / 10);
      assert Dec(n)[..|Dec(n)| - 1] == Dec(n / 10);
    }
  }

  lemma {:induction false} ValueOfPadded(n: nat, width: nat)
    requires n < Pow10(width)
    ensures |Padded(n, width)| == width && AllDigits(Padded(n, width)) && Value(Padded(n, width)) == n
  {
    if width > 0 {
      ValueOfPadded(n / 10, width - 1);
      assert Padded(n, width)[..width - 1] == Padded(n / 10, width - 1);
    }
  }

  lemma {:induction false} ValueBound(s: string)
    requires AllDigits(s)
    ensures Value(s) < Pow10(|s|)
  {
    if |s| > 0 {
      ValueBound(s[..|s| - 1]);
    }
  }

  predicate IsHexDigit(c: char) {
    '0' <= c <= '9' || 'a' <= c <= 'f' || 'A' <= c <= 'F'
  }

  function HexLower(d: nat): (c: char)
    requires d < 16
    ensures IsHexDigit(c) && c != '_'
  {
    if d < 10 then '0' + d as char else 'a' + (d - 10) as char
  }

  function HexUpper(d: nat): (c: char)
    requires d < 16
    ensures IsHexDigit(c)
  {
    if d < 10 then '0' + d as char else 'A' + (d - 10) as char
  }

  function Pow16(n: nat): nat
    ensures Pow16(n) > 0
  {
    if n == 0 then 1 else 16 * Pow16(n - 1)
  }

  /** The last `width` lower-case hexadecimal digits of `n`, padded with zeros. */
  function HexPadded(n: nat, width: nat): string {
    if width == 0 then "" else HexPadded(n / 16, width - 1) + [HexLower(n % 16)]
  }

  lemma {:induction false} HexPaddedShape(n: nat, width: nat)
    ensures |HexPadded(n, width)| == width
    ensures forall i | 0 <= i < width :: IsHexDigit(HexPadded(n, width)[i])
  {
    if width > 0 {
      HexPaddedShape(n / 16, width - 1);
    }
  }

  lemma {:induction false} HexPaddedInjective(m: nat, n: nat, width: nat)
    requires m < Pow16(width) && n < Pow16(width)
    requires HexPadded(m, width) == HexPadded(n, width)
    ensures m == n
  {
    if width > 0 {
      HexPaddedShape(m / 16, width - 1);
      HexPaddedShape(n / 16, width - 1);
      assert HexPadded(m, width)[..width - 1] == HexPadded(m / 16, width - 1);
      assert HexPadded(n, width)[..width - 1] == HexPadded(n / 16, width - 1);
      assert HexPadded(m, width)[width - 1] == HexPadded(n, width)[width - 1];
      HexPaddedInjective(m / 16, n / 16, width - 1);
    }
  }
}
