/** Exact decimal text for fixed-point prices (four fraction digits) and sizes (six). */
module FixedPoint {
  import opened Types
  import opened Digits

  const U128_LIMIT: nat := 0x1_0000_0000_0000_0000_0000_0000_0000_0000

  /** Splits at the first point; without a point the whole text is the integer part. */
  function SplitPoint(s: string): (string, string) {
    if |s| == 0 then ("", "")
    else if s[0] == '.' then ("", s[1..])
    else var (i, f) := SplitPoint(s[1..]); ([s[0]] + i, f)
  }

  /** A digit string as a 128-bit number, if it fits. */
  function ParseU128(s: string): Option<nat>
    requires AllDigits(s)
  {
    if Value(s) < U128_LIMIT then Some(Value(s)) else None
  }

  function CheckedMul(a: nat, b: nat): Option<nat> {
    if a * b < U128_LIMIT then Some(a * b) else None
  }

  function CheckedAdd(a: nat, b: nat): Option<nat> {
    if a + b < U128_LIMIT then Some(a + b) else None
  }

  /** Parses a non-negative decimal into an integer scaled by `10^decimals`, or rejects it. */
  function ParseScaledDecimal(s: string, decimals: nat): Option<nat>
  {
    if |s| == 0 then None
    else
      var (intStr, fracStr) := SplitPoint(s);
      if |intStr| == 0 && |fracStr| == 0 then None
      else if !AllDigits(intStr) || !AllDigits(fracStr) then None
      else if |fracStr| > decimals then None
      else
        var scale := Pow10(decimals);
        var intVal := if |intStr| == 0 then Some(0) else ParseU128(intStr);
        if intVal.None? then None
        else
          var fracDigits := if |fracStr| == 0 then Some(0) else ParseU128(fracStr);
          if fracDigits.None? then None
          else
            var fracVal := CheckedMul(fracDigits.value, Pow10(decimals - |fracStr|));
            if fracVal.None? then None
            else
              var scaled := CheckedMul(intVal.value, scale);
              if scaled.None? then None else CheckedAdd(scaled.value, fracVal.value)
  }

  datatype TextError = Malformed | OutOfRange

  function ParsePrice(s: string): Result<Price, TextError> {
    var raw := ParseScaledDecimal(s, 4);
    if raw.None? then Err(Malformed)
    else if raw.value > PRICE_SCALE then Err(OutOfRange)
    else Ok(raw.value)
  }

  function ParseSize(s: string): Result<U64, TextError> {
    var raw := ParseScaledDecimal(s, 6);
    if raw.None? || raw.value >= U64_LIMIT then Err(Malformed) else Ok(raw.value)
  }

  function ShowPrice(p: Price): string {
    Dec(p / 10_000) + "." + Padded(p % 10_000, 4)
  }

  function ShowSize(z: U64): string {
    Dec(z / 1_000_000) + "." + Padded(z % 1_000_000, 6)
  }

  // ---------------------------------------------------------------------------------------------
  // The grammar, stated without reference to the parser
  // ---------------------------------------------------------------------------------------------

  /**
   `s` is the text of `i` followed, optionally, by a point and the text of `f`: digits only, not both
   empty, and at most `decimals` fraction digits.
   */
  ghost predicate Spells(s: string, i: string, f: string, decimals: nat) {
    && (s == i + "." + f || (s == i && f == ""))
    && AllDigits(i)
    && AllDigits(f)
    && |i| + |f| > 0
    && |f| <= decimals
  }

  /** The number `i.f` denotes, times `10^decimals`. */
  ghost function ScaledValue(i: string, f: string, decimals: nat): nat
    requires AllDigits(i) && AllDigits(f) && |f| <= decimals
  {
    Value(i) * Pow10(decimals) + Value(f) * Pow10(decimals - |f|)
  }

  lemma {:induction false} SplitPointOf(i: string, f: string)
    requires AllDigits(i)
    ensures SplitPoint(i + "." + f) == (i, f)
    ensures SplitPoint(i) == (i, "")
  {
    if |i| == 0 {
      assert i + "." + f == "." + f;
    } else {
      SplitPointOf(i[1..], f);
      assert (i + "." + f)[1..] == i[1..] + "." + f;
      assert [i[0]] + i[1..] == i;
    }
  }

  lemma {:induction false} SplitPointJoins(s: string)
    ensures var (i, f) := SplitPoint(s); s == i + "." + f || (s == i && f == "")
  {
    if |s| > 0 && s[0] != '.' {
      SplitPointJoins(s[1..]);
    }
  }

  lemma {:induction false} PowAdd(a: nat, b: nat)
    ensures Pow10(a + b) == Pow10(a) * Pow10(b)
  {
    if a > 0 {
      PowAdd(a - 1, b);
    }
  }

  lemma {:induction false} PowMonotone(a: nat, b: nat)
    requires a <= b
    ensures Pow10(a) <= Pow10(b)
  {
    if a < b {
      PowMonotone(a, b - 1);
    }
  }

  lemma MulAtLeast(a: nat, b: nat)
    requires b > 0
    ensures a <= a * b
  {
  }

  lemma MulStrictlyMonotone(a: nat, b: nat, c: nat)
    requires a < b && c > 0
    ensures a * c < b * c
  {
  }

  /** The padded fraction is below one unit, so it never overflows when the scale itself fits. */
  lemma FractionBelowScale(f: string, decimals: nat)
    requires AllDigits(f) && |f| <= decimals
    ensures Value(f) * Pow10(decimals - |f|) < Pow10(decimals)
  {
    ValueBound(f);
    PowAdd(|f|, decimals - |f|);
    MulStrictlyMonotone(Value(f), Pow10(|f|), Pow10(decimals - |f|));
  }

  /** Whatever the parser accepts is spelled by the text. */
  lemma ParsedIsSpelled(s: string, decimals: nat) returns (i: string, f: string)
    requires ParseScaledDecimal(s, decimals).Some?
    ensures Spells(s, i, f, decimals)
            && ScaledValue(i, f, decimals) == ParseScaledDecimal(s, decimals).value < U128_LIMIT
  {
    hide Value, Pow10, SplitPoint;
    i, f := SplitPoint(s).0, SplitPoint(s).1;
    SplitPointJoins(s);
    NoDigits();
    if |f| == 0 {
      assert f == "";
    }
    if |i| == 0 {
      assert i == "";
    }
  }

  lemma NoDigits()
    ensures Value("") == 0
  {
  }

  /** Any spelling is accepted, with its exact value, if that value fits. */
  lemma SpelledIsParsed(s: string, i: string, f: string, decimals: nat)
    requires decimals <= 38 && Spells(s, i, f, decimals) && ScaledValue(i, f, decimals) < U128_LIMIT
    ensures ParseScaledDecimal(s, decimals) == Some(ScaledValue(i, f, decimals))
  {
    SplitPointOf(i, f);
    assert SplitPoint(s) == (i, f);
    hide Value, Pow10, SplitPoint;
    ScaleFits(decimals);
    FractionBelowScale(f, decimals);
    MulAtLeast(Value(i), Pow10(decimals));
    MulAtLeast(Value(f), Pow10(decimals - |f|));
    NoDigits();
    if |f| == 0 {
      assert f == "";
    }
    if |i| == 0 {
      assert i == "";
    }
  }

  /**
   The parser accepts exactly the grammar, exactly when the scaled value fits 128 bits, and then it
   returns that value with no rounding. Stated for every fraction width whose scale fits 128 bits.
   */
  lemma ParseIsExact(s: string, decimals: nat, v: nat)
    requires decimals <= 38
    ensures ParseScaledDecimal(s, decimals) == Some(v) <==>
            exists i, f :: Spells(s, i, f, decimals) && ScaledValue(i, f, decimals) == v && v < U128_LIMIT
  {
    hide ParseScaledDecimal, ScaledValue;
    if ParseScaledDecimal(s, decimals) == Some(v) {
      var i, f := ParsedIsSpelled(s, decimals);
    }
    if i, f :| Spells(s, i, f, decimals) && ScaledValue(i, f, decimals) == v && v < U128_LIMIT {
      SpelledIsParsed(s, i, f, decimals);
    }
  }

  /** The text spells this scaled value. */
  ghost predicate Denotes(s: string, decimals: nat, v: nat) {
    exists i, f :: Spells(s, i, f, decimals) && ScaledValue(i, f, decimals) == v
  }

  /** A text is a price if and only if it spells one on the grid; a larger number is out of range. */
  lemma ParsePriceIff(s: string, v: nat)
    ensures v <= PRICE_SCALE ==> (ParsePrice(s) == Ok(v) <==> Denotes(s, 4, v))
    ensures PRICE_SCALE < v < U128_LIMIT && Denotes(s, 4, v) ==> ParsePrice(s) == Err(OutOfRange)
    ensures ParsePrice(s).Err? ==> !Denotes(s, 4, v) || v > PRICE_SCALE
  {
    hide ParseScaledDecimal, Spells, ScaledValue;
    ParseIsExact(s, 4, v);
  }

  /** A text is a size if and only if it spells a number that fits 64 bits. */
  lemma ParseSizeIff(s: string, v: nat)
    ensures v < U64_LIMIT ==> (ParseSize(s) == Ok(v) <==> Denotes(s, 6, v))
    ensures ParseSize(s).Err? ==> !Denotes(s, 6, v) || v >= U64_LIMIT
  {
    hide ParseScaledDecimal, Spells, ScaledValue;
    ParseIsExact(s, 6, v);
  }

  lemma ScaleFits(decimals: nat)
    requires decimals <= 38
    ensures Pow10(decimals) < U128_LIMIT
  {
    PowMonotone(decimals, 38);
    assert Pow10(10) == 10_000_000_000;
    PowAdd(10, 10);
    PowAdd(20, 10);
    assert Pow10(8) == 100_000_000;
    PowAdd(30, 8);
  }

  // ---------------------------------------------------------------------------------------------
  // Round trips
  // ---------------------------------------------------------------------------------------------

  lemma ParseShown(whole: nat, fraction: nat, decimals: nat)
    requires decimals <= 38
    requires fraction < Pow10(decimals) && whole * Pow10(decimals) + fraction < U128_LIMIT
    ensures ParseScaledDecimal(Dec(whole) + "." + Padded(fraction, decimals), decimals)
            == Some(whole * Pow10(decimals) + fraction)
  {
    var i, f := Dec(whole), Padded(fraction, decimals);
    ValueOfDec(whole);
    ValueOfPadded(fraction, decimals);
    assert Spells(i + "." + f, i, f, decimals);
    assert ScaledValue(i, f, decimals) == whole * Pow10(decimals) + fraction;
    ParseIsExact(i + "." + f, decimals, whole * Pow10(decimals) + fraction);
  }

  /** Printing then parsing returns the same price, for every price on the grid. */
  lemma PriceRoundTrip(p: Price)
    ensures ParsePrice(ShowPrice(p)) == Ok(p)
  {
    assert Pow10(4) == 10_000;
    ParseShown(p / 10_000, p % 10_000, 4);
  }

  /** Printing then parsing returns the same size, for every 64-bit size. */
  lemma SizeRoundTrip(z: U64)
    ensures ParseSize(ShowSize(z)) == Ok(z)
  {
    assert Pow10(6) == 1_000_000;
    ParseShown(z / 1_000_000, z % 1_000_000, 6);
  }
}
