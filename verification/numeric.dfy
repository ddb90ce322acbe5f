/**
 * JavaScript numbers as the core uses them, and the three number conversions it calls:
 * `parseFloat` and `parseInt` on the tokens the parser captures, and `toFixed` followed by
 * `parseFloat` (rounding to a number of decimal places). Values are exact decimals, not
 * binary floating point.
 */
module Numeric {
  import opened Text

  /** A number: finite, `Infinity` (what `7 / 0` gives) or `NaN` (what a failed parse gives). */
  datatype Num = Finite(value: real) | PosInfinity | NaN

  function Pow10(d: nat): (r: nat)
    ensures r >= 1
  {
    if d == 0 then 1 else 10 * Pow10(d - 1)
  }

  /** From 1e21 on, `toFixed` prints the number unchanged (in exponent notation). */
  const FixedLimit: real := 1000000000000000000000.0

  /** The place value of the d-th decimal: 10^d as a real. */
  function Unit(d: nat): (u: real)
    ensures u >= 1.0
  {
    Pow10(d) as real
  }

  /** The nearest multiple of 1/unit to a non-negative `x`, ties going up, as `toFixed` rounds. */
  function RoundHalfUp(x: real, unit: real): (r: real)
    requires x >= 0.0 && unit >= 1.0
    ensures r >= 0.0
  {
    (x * unit + 0.5).Floor as real / unit
  }

  /**
   * `parseFloat(x.toFixed(d))`: a negative number is rounded on its magnitude (ties away from
   * zero), NaN and Infinity go through unchanged, and so does any number of magnitude 1e21 or more.
   */
  function RoundTo(x: Num, d: nat): (r: Num)
    ensures r.NaN? <==> x.NaN?
    ensures r.PosInfinity? <==> x.PosInfinity?
  {
    match x
    case Finite(v) =>
      if v >= FixedLimit || v <= -FixedLimit then x
      else if v >= 0.0 then Finite(RoundHalfUp(v, Unit(d)))
      else Finite(-RoundHalfUp(-v, Unit(d)))
    case _ => x
  }

  /** Rounding moves a number by at most half a unit in the last kept place. */
  lemma RoundHalfUpError(x: real, p: real)
    requires x >= 0.0 && p >= 1.0
    ensures x - 1.0 / (2.0 * p) < RoundHalfUp(x, p) <= x + 1.0 / (2.0 * p)
  {
    var n := (x * p + 0.5).Floor as real;
    RoundHalfUpUnfold(x, p);
    var h := 1.0 / (2.0 * p);
    assert 0.5 / p == h;
    DivMonotone(n, x * p + 0.5, p);
    DivStrict(x * p - 0.5, n, p);
    ShiftDiv(x, p, 0.5);
    ShiftDiv(x, p, -0.5);
    assert -0.5 / p == -h;
  }

  lemma ShiftDiv(x: real, p: real, c: real)
    requires p >= 1.0
    ensures (x * p + c) / p == x + c / p
  {
  }

  lemma DivMonotone(a: real, b: real, p: real)
    requires a <= b && p > 0.0
    ensures a / p <= b / p
  {
  }

  lemma DivStrict(a: real, b: real, p: real)
    requires a < b && p > 0.0
    ensures a / p < b / p
  {
  }

  /** A finite number below 1e21 in magnitude ends up within half a unit of the d-th place. */
  lemma {:induction false} RoundToError(x: real, d: nat)
    requires -FixedLimit < x < FixedLimit
    ensures var h := 1.0 / (2.0 * Unit(d));
            RoundTo(Finite(x), d).Finite? && x - h <= RoundTo(Finite(x), d).value <= x + h
  {
    if x >= 0.0 {
      RoundHalfUpError(x, Unit(d));
    } else {
      RoundHalfUpError(-x, Unit(d));
    }
  }

  /** A number already rounded is left alone by rounding it again to the same place. */
  lemma RoundHalfUpFixedPoint(x: real, p: real)
    requires x >= 0.0 && p >= 1.0
    ensures RoundHalfUp(RoundHalfUp(x, p), p) == RoundHalfUp(x, p)
  {
    var n := (x * p + 0.5).Floor;
    RoundHalfUpUnfold(x, p);
    DivMonotone(0.0, n as real, p);
    RoundHalfUpOfMultiple(n, p);
  }

  lemma RoundHalfUpOfMultiple(n: int, p: real)
    requires n >= 0 && p >= 1.0
    ensures RoundHalfUp(n as real / p, p) == n as real / p
  {
    var r := n as real / p;
    DivMonotone(0.0, n as real, p);
    assert r * p == n as real;
    assert (r * p + 0.5).Floor == n;
    RoundHalfUpUnfold(r, p);
  }

  lemma RoundHalfUpUnfold(x: real, p: real)
    requires x >= 0.0 && p >= 1.0
    ensures RoundHalfUp(x, p) == (x * p + 0.5).Floor as real / p
  {
  }

  /** `toFixed` rounding is idempotent. */
  lemma {:induction false} RoundToIdempotent(x: Num, d: nat)
    ensures RoundTo(RoundTo(x, d), d) == RoundTo(x, d)
  {
    if x.Finite? && -FixedLimit < x.value < FixedLimit {
      var v := x.value;
      if v >= 0.0 {
        RoundHalfUpFixedPoint(v, Unit(d));
      } else {
        RoundHalfUpFixedPoint(-v, Unit(d));
      }
    }
  }

  /** n units of the d-th decimal place. */
  function Units(n: int, d: nat): real {
    n as real / Unit(d)
  }

  /** Below 1e21 in magnitude, the result has at most d decimals: it is a whole number of units. */
  lemma RoundToGrid(x: real, d: nat)
    requires -FixedLimit < x < FixedLimit
    ensures RoundTo(Finite(x), d).Finite?
    ensures exists n: int :: RoundTo(Finite(x), d).value == Units(n, d)
  {
    var u := Unit(d);
    if x >= 0.0 {
      RoundHalfUpUnfold(x, u);
      var n := (x * u + 0.5).Floor;
      assert RoundTo(Finite(x), d).value == Units(n, d);
    } else {
      var y := -x;
      RoundHalfUpUnfold(y, u);
      var n := (y * u + 0.5).Floor;
      assert RoundTo(Finite(x), d) == Finite(-RoundHalfUp(y, u));
      NegateQuotient(n, u);
      assert RoundTo(Finite(x), d).value == Units(-n, d);
    }
  }

  lemma NegateQuotient(n: int, u: real)
    requires u > 0.0
    ensures -(n as real / u) == (-n) as real / u
  {
  }

  /** Rounding is symmetric about zero, so ties go away from zero on both sides. */
  lemma RoundToSymmetric(x: real, d: nat)
    ensures RoundTo(Finite(-x), d) == Finite(-RoundTo(Finite(x), d).value)
  {
    if x == 0.0 {
      assert -x == x;
      RoundHalfUpOfMultiple(0, Unit(d));
    }
  }

  /** A non-negative number halfway between two grid points rounds to the upper one. */
  lemma RoundToTie(n: nat, d: nat)
    requires (n as real + 0.5) / Unit(d) < FixedLimit
    ensures RoundTo(Finite((n as real + 0.5) / Unit(d)), d) == Finite((n + 1) as real / Unit(d))
  {
    var u := Unit(d);
    var x := (n as real + 0.5) / u;
    assert x * u == n as real + 0.5;
    assert (x * u + 0.5).Floor == n + 1;
    RoundHalfUpUnfold(x, u);
  }

  /** A whole number below 1e21 is left alone by rounding. */
  lemma RoundWhole(n: nat, d: nat)
    requires (n as real) < FixedLimit
    ensures RoundTo(Finite(n as real), d) == Finite(n as real)
  {
    var p := Unit(d);
    var m := n * Pow10(d);
    assert m as real / p == n as real;
    RoundHalfUpOfMultiple(m, p);
  }

  predicate AllDigits(s: string) { forall k :: 0 <= k < |s| ==> IsDigit(s[k]) }

  /** The value of a string of decimal digits. */
  function DigitsValue(s: string): nat
    requires AllDigits(s)
  {
    if s == [] then 0 else DigitsValue(s[..|s| - 1]) * 10 + (s[|s| - 1] as int - '0' as int)
  }

  /**
   * `parseFloat` on a token of digits and dots (the class `[\d.]+` the parser captures): the
   * value of the longest prefix of the form digits, then optionally a dot and more digits;
   * NaN when that prefix holds no digit at all. The value is exact: a token of more than 308
   * integer digits, which JavaScript reads as Infinity, is read here as its finite value.
   */
  function ParseFloat(s: string): (r: Num)
    ensures !r.PosInfinity?
    ensures r.Finite? ==> r.value >= 0.0
    ensures r.NaN? <==> !(|s| > 0 && IsDigit(s[0])) && !(|s| > 1 && s[0] == '.' && IsDigit(s[1]))
  {
    var i := Span(s, 0, Digit);
    var whole := s[..i];
    var fraction := if i < |s| && s[i] == '.' then s[i + 1..Span(s, i + 1, Digit)] else [];
    if whole == [] && fraction == [] then NaN
    else Finite(DigitsValue(whole) as real + DigitsValue(fraction) as real / Pow10(|fraction|) as real)
  }

  /** `parseInt(s, 10)` on a non-empty run of digits (the class `\d+` the parser captures). */
  function ParseInt(s: string): (r: nat)
    requires |s| > 0 && AllDigits(s)
  {
    DigitsValue(s)
  }

  /** The decimal digits of `n`, as `String(n)` writes them. */
  function DecimalString(n: nat): (s: string)
    ensures |s| > 0 && AllDigits(s)
  {
    var last := ('0' as int + n % 10) as char;
    if n < 10 then [last] else DecimalString(n / 10) + [last]
  }

  /** `parseInt` reads back the integer that `String` wrote. */
  lemma {:induction false} ParseIntRoundTrip(n: nat)
    ensures ParseInt(DecimalString(n)) == n
  {
    var s := DecimalString(n);
    var last := ('0' as int + n % 10) as char;
    assert last as int - '0' as int == n % 10;
    if n >= 10 {
      ParseIntRoundTrip(n / 10);
      assert s == DecimalString(n / 10) + [last];
      assert s[..|s| - 1] == DecimalString(n / 10);
    } else {
      assert s == [last] && s[..0] == [];
      assert DigitsValue(s) == DigitsValue([]) * 10 + n % 10;
    }
  }

  /** `parseFloat` reads back an integer written in decimal. */
  lemma ParseFloatOfInteger(n: nat)
    ensures ParseFloat(DecimalString(n)) == Finite(n as real)
  {
    var s := DecimalString(n);
    assert Span(s, 0, Digit) == |s|;
    assert s[..|s|] == s;
    ParseIntRoundTrip(n);
  }
}
