/** A concrete formatter: the hypotheses on the shortest-digits formatter can be met, all at once. */
module Formatters {
  import opened Proto
  import opened TextGrammar
  import opened TextItems

  function Pow(b: nat, n: nat): (p: nat)
    requires b > 0
    ensures p > 0
  {
    if n == 0 then 1 else b * Pow(b, n - 1)
  }

  lemma Associate(a: int, b: int, c: int)
    ensures a * (b * c) == (a * b) * c
  {
  }

  lemma {:induction false} PowSplits(b: nat, k: nat, n: nat)
    requires b > 0 && k <= n
    ensures Pow(b, n) == Pow(b, k) * Pow(b, n - k)
  {
    if k > 0 {
      PowSplits(b, k - 1, n - 1);
      Associate(b, Pow(b, k - 1), Pow(b, n - k));
    }
  }

  lemma Pairwise(two: int, five: int)
    ensures 10 * (two * five) == (2 * two) * (5 * five)
  {
  }

  lemma {:induction false} TenIsTwoTimesFive(n: nat)
    ensures Pow(10, n) == Pow(2, n) * Pow(5, n)
  {
    if n > 0 {
      TenIsTwoTimesFive(n - 1);
      Pairwise(Pow(2, n - 1), Pow(5, n - 1));
    }
  }

  lemma {:induction false} PowIsPow2(n: nat)
    ensures Pow2(n) == Pow(2, n) as real
  {
    if n > 0 {
      PowIsPow2(n - 1);
    }
  }

  lemma {:induction false} ProductOfReals(a: int, b: nat)
    ensures a as real * b as real == (a * b) as real
  {
    if b > 0 {
      ProductOfReals(a, b - 1);
      assert a * b == a * (b - 1) + a;
      assert a as real * b as real == a as real * (b - 1) as real + a as real;
    }
  }

  lemma Regroup(x: real, a: real, b: real)
    ensures x * (a * b) == (x * a) * b
  {
  }

  lemma Cancel(x: real, y: real, p: real, product: real)
    requires x * p == product && y * p == product && p > 0.0
    ensures x == y
  {
    assert (x - y) * p == 0.0;
  }

  lemma LargeIsWhole(x: real, m: int, k: nat, places: nat) returns (whole: int)
    requires x == m as real * Pow2(k)
    ensures x * Pow(10, places) as real == whole as real
  {
    PowIsPow2(k);
    hide Pow, Pow2;
    ProductOfReals(m, Pow(2, k));
    ProductOfReals(m * Pow(2, k), Pow(10, places));
    whole := m * Pow(2, k) * Pow(10, places);
  }

  lemma PlacesSplit(k: nat, places: nat) returns (rest: nat)
    requires k <= places
    ensures Pow(10, places) == Pow(2, k) * rest
  {
    TenIsTwoTimesFive(places);
    PowSplits(2, k, places);
    hide Pow;
    rest := Pow(2, places - k) * Pow(5, places);
    Associate(Pow(2, k), Pow(2, places - k), Pow(5, places));
  }

  lemma SmallIsWhole(x: real, m: int, k: nat, places: nat) returns (whole: int)
    requires k <= places && x * Pow2(k) == m as real
    ensures x * Pow(10, places) as real == whole as real
  {
    PowIsPow2(k);
    hide Pow, Pow2;
    var rest := PlacesSplit(k, places);
    ProductOfReals(Pow(2, k), rest);
    Regroup(x, Pow(2, k) as real, rest as real);
    ProductOfReals(m, rest);
    whole := m * rest;
  }

  /** A number with at most `places` binary places has at most as many decimal ones. */
  lemma ScaledIsWhole(x: real, m: int, k: nat, places: nat) returns (whole: int)
    requires x == m as real * Pow2(k) || (k <= places && x * Pow2(k) == m as real)
    ensures x * Pow(10, places) as real == whole as real
  {
    hide Pow, Pow2;
    if x == m as real * Pow2(k) {
      whole := LargeIsWhole(x, m, k, places);
    } else {
      whole := SmallIsWhole(x, m, k, places);
    }
  }

  /** The decimal places that are enough for every `f64`. */
  const PLACES: nat := 1074

  const EXPONENT: string := "e-1074"

  function Magnitude(x: real): real { if x < 0.0 then -x else x }

  function Units(x: real, places: nat): (n: nat) {
    var scaled := Magnitude(x) * Pow(10, places) as real;
    assert scaled >= 0.0;
    scaled.Floor
  }

  /** All decimal places as an integer, then the exponent. */
  function ExactDecimal(x: real): string {
    (if x < 0.0 then "-" else "") + Decimal(Units(x, PLACES)) + EXPONENT
  }

  lemma UnitsAre(x: real, places: nat, whole: int)
    requires Magnitude(x) * Pow(10, places) as real == whole as real
    ensures Units(x, places) == whole
  {
  }

  lemma UnitsTellApart(x: real, y: real, places: nat, wx: int, wy: int)
    requires Magnitude(x) * Pow(10, places) as real == wx as real
    requires Magnitude(y) * Pow(10, places) as real == wy as real
    requires Units(x, places) == Units(y, places)
    ensures Magnitude(x) == Magnitude(y)
  {
    UnitsAre(x, places, wx);
    UnitsAre(y, places, wy);
    assert wx == wy;
    hide Pow, Magnitude, Units;
    Cancel(Magnitude(x), Magnitude(y), Pow(10, places) as real, wx as real);
  }

  lemma TokenShape(x: real)
    ensures StripPointZero(ExactDecimal(x)) == ExactDecimal(x)
    ensures forall i :: 0 <= i < |ExactDecimal(x)| ==> IsFloatChar(ExactDecimal(x)[i])
    ensures x < 0.0 <==> ExactDecimal(x)[0] == '-'
  {
    hide Units;
    var t, digits := ExactDecimal(x), Decimal(Units(x, PLACES));
    assert t[|t| - 1] == '4' && t[|t| - 2..][1] == t[|t| - 1];
    assert IsDigit(digits[0]);
    assert forall i :: 0 <= i < |digits| ==> IsFloatChar(digits[i]);
    assert forall i :: 0 <= i < |EXPONENT| ==> IsFloatChar(EXPONENT[i]);
  }

  /** The formatter meets everything asked of it anywhere in this project. */
  lemma FormatterExists()
    ensures IsFormatter(ExactDecimal) && TellsApart(ExactDecimal)
  {
    hide ExactDecimal, StripPointZero;
    forall x ensures StripPointZero(ExactDecimal(x)) != ""
      ensures forall i :: 0 <= i < |ExactDecimal(x)| ==> IsFloatChar(ExactDecimal(x)[i])
    {
      TokenShape(x);
      TokenIsLong(x);
    }
    forall x, y | IsFiniteF64(x) && IsFiniteF64(y) && StripPointZero(ExactDecimal(x)) == StripPointZero(ExactDecimal(y))
      ensures x == y
    {
      TokenShape(x);
      TokenShape(y);
      SameToken(x, y);
    }
  }

  lemma TokenIsLong(x: real)
    ensures ExactDecimal(x) != ""
  {
  }

  lemma MagnitudeIsWhole(x: real) returns (whole: int)
    requires IsFiniteF64(x)
    ensures Magnitude(x) * Pow(10, PLACES) as real == whole as real
  {
    hide Pow, Pow2;
    var m: int, k: nat :| -0x20_0000_0000_0000 < m < 0x20_0000_0000_0000 && IsScaled(x, m, k);
    whole := ScaledIsWhole(x, m, k, PLACES);
    if x < 0.0 {
      whole := -whole;
    }
  }

  lemma SameToken(x: real, y: real)
    requires IsFiniteF64(x) && IsFiniteF64(y) && ExactDecimal(x) == ExactDecimal(y)
    ensures x == y
  {
    hide IsFiniteF64, Pow, Units, Decimal, IsFloatChar, StripPointZero;
    TokenShape(x);
    TokenShape(y);
    var wx := MagnitudeIsWhole(x);
    var wy := MagnitudeIsWhole(y);
    SameDigits(x, y);
    DecimalRoundTrip(Units(x, PLACES));
    DecimalRoundTrip(Units(y, PLACES));
    UnitsTellApart(x, y, PLACES, wx, wy);
  }

  lemma SameDigits(x: real, y: real)
    requires ExactDecimal(x) == ExactDecimal(y) && (x < 0.0 <==> y < 0.0)
    ensures Decimal(Units(x, PLACES)) == Decimal(Units(y, PLACES))
  {
    hide Pow, Units, Decimal;
    var sign := if x < 0.0 then "-" else "";
    var t := ExactDecimal(x);
    assert t[|sign|..|t| - |EXPONENT|] == Decimal(Units(x, PLACES));
    assert t[|sign|..|t| - |EXPONENT|] == Decimal(Units(y, PLACES));
  }
}
