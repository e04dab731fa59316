// Order, exactness, round-trip and error laws of the decimal normaliser.
module NormaliserLaws {
  import opened Types
  import opened Powers
  import opened Normaliser

  /** For positive x the canonical form is exactly: least exponent, rounded mantissa. */
  lemma CanonicalCharacterised(x: real, s: Scaled)
    requires x > 0.0
    ensures Canonical(x) == s <==>
              && IsLeastExponent(x, s.exponent)
              && Scale(x, -s.exponent) >= 0.0
              && s.mantissa == Round(Scale(x, -s.exponent))
  {
    CanonicalIsLeast(x);
    if IsLeastExponent(x, s.exponent) {
      LeastExponentUnique(x, s.exponent, Canonical(x).exponent);
    }
  }

  /** Above exponent -18 the mantissa uses at least a tenth of its range. */
  lemma MantissaIsLarge(x: real)
    requires x > 0.0 && Canonical(x).exponent > -18
    ensures Canonical(x).mantissa >= 429496730
  {
    CanonicalIsLeast(x);
  }

  lemma ScaledValueBounds(x: real)
    requires x > 0.0
    ensures 0.0 <= ScaledValue(Canonical(x)) <= Scale(MAX_MANTISSA, Canonical(x).exponent)
    ensures Canonical(x).exponent > -18 ==>
              ScaledValue(Canonical(x)) > Scale(MAX_MANTISSA, Canonical(x).exponent - 1)
  {
    var s := Canonical(x);
    ScaleOrder(0.0, s.mantissa as real, s.exponent);
    ScaleOrder(s.mantissa as real, MAX_MANTISSA, s.exponent);
    if s.exponent > -18 {
      MantissaIsLarge(x);
      ScaleTen(MAX_MANTISSA / 10.0, s.exponent - 1);
      ScaleSucc(MAX_MANTISSA / 10.0, s.exponent - 1);
      ScaleOrder(MAX_MANTISSA / 10.0, s.mantissa as real, s.exponent);
    }
  }

  lemma LeastExponentMonotone(x: real, y: real)
    requires 0.0 < x <= y
    ensures Canonical(x).exponent <= Canonical(y).exponent
  {
    CanonicalIsLeast(x);
    CanonicalIsLeast(y);
    var d, e := Canonical(x).exponent, Canonical(y).exponent;
    if d > e {
      ScaleMonoExponent(MAX_MANTISSA, e, d - 1);
    }
  }

  lemma RoundMonotone(a: real, b: real)
    requires 0.0 <= a <= b
    ensures Round(a) <= Round(b)
  {
  }

  lemma MantissaMonotone(x: real, y: real)
    requires 0.0 < x <= y && Canonical(x).exponent == Canonical(y).exponent
    ensures Canonical(x).mantissa <= Canonical(y).mantissa
  {
    var e := Canonical(x).exponent;
    CanonicalIsLeast(x);
    CanonicalIsLeast(y);
    ScaleOrder(x, y, -e);
    RoundMonotone(Scale(x, -e), Scale(y, -e));
  }

  lemma RoundInteger(n: nat)
    ensures Round(n as real) == n
  {
  }

  /** Normalising keeps the order of values, within and across exponents. */
  lemma NormaliseMonotone(x: real, y: real)
    requires 0.0 <= x <= y
    ensures ScaledValue(Canonical(x)) <= ScaledValue(Canonical(y))
  {
    if x == 0.0 {
      var s := Canonical(y);
      ScaleOrder(0.0, s.mantissa as real, s.exponent);
    } else {
      LeastExponentMonotone(x, y);
      ScaledValueBounds(x);
      ScaledValueBounds(y);
      var d, e := Canonical(x).exponent, Canonical(y).exponent;
      if d < e {
        ScaleMonoExponent(MAX_MANTISSA, d, e - 1);
      } else {
        MantissaMonotone(x, y);
        ScaleOrder(Canonical(x).mantissa as real, Canonical(y).mantissa as real, e);
      }
    }
  }

  lemma ExactExponent(m: Uint32, e: int)
    requires m > 0 && e >= -18
    ensures Scale(m as real, e) > 0.0
    ensures Canonical(Scale(m as real, e)).exponent <= e
  {
    var x := Scale(m as real, e);
    ScaleOrder(0.0, m as real, e);
    ScaleOrder(m as real, MAX_MANTISSA, e);
    CanonicalIsLeast(x);
    var d := Canonical(x).exponent;
    if d > e {
      ScaleMonoExponent(MAX_MANTISSA, e, d - 1);
    }
  }

  /** Every 32-bit mantissa with an exponent from -18 up keeps its exact value. */
  lemma NormaliseExact(m: Uint32, e: int)
    requires e >= -18
    ensures Scale(m as real, e) >= 0.0
    ensures ScaledValue(Canonical(Scale(m as real, e))) == Scale(m as real, e)
  {
    var x := Scale(m as real, e);
    ScaleOrder(0.0, m as real, e);
    if m > 0 {
      var d := Canonical(x).exponent;
      ExactExponent(m, e);
      CanonicalIsLeast(x);
      ScaleAdd(m as real, e, -d);
      ScaleOfInteger(m, e - d);
      RoundInteger(m * IntPow10(e - d));
      ScaleAdd(x, -d, d);
    }
  }

  /** Renormalising a result changes nothing, unless x itself rounded away to 0e-18. */
  lemma NormaliseIdempotent(x: real)
    requires x >= 0.0
    ensures ScaledValue(Canonical(x)) >= 0.0
    ensures Canonical(ScaledValue(Canonical(x))) == Canonical(x)
       <==> x == 0.0 || Scale(x, 18) >= 0.5
  {
    var s := Canonical(x);
    ScaleOrder(0.0, s.mantissa as real, s.exponent);
    if x > 0.0 {
      CanonicalIsLeast(x);
      if s.exponent > -18 {
        MantissaIsLarge(x);
        ScaleAdd(x, -s.exponent, s.exponent + 18);
        ScaleMonoExponent(Scale(x, -s.exponent), 0, s.exponent + 18);
      }
      assert s.mantissa == 0 <==> Scale(x, 18) < 0.5;
      if s.mantissa > 0 {
        LeastFromScaled(s.mantissa as real, s.exponent);
        CanonicalCharacterised(ScaledValue(s), s);
      }
    }
  }

  lemma ScaleGap(m: real, y: real, e: int)
    requires -0.5 <= m - y <= 0.5
    ensures -Scale(0.5, e) <= Scale(m, e) - Scale(y, e) <= Scale(0.5, e)
  {
    ScaleSum(y, 0.5, e);
    ScaleSum(m, 0.5, e);
    ScaleOrder(y + 0.5, m, e);
    ScaleOrder(m + 0.5, y, e);
  }

  lemma MantissaIsNear(x: real)
    requires x > 0.0
    ensures -0.5 <= Canonical(x).mantissa as real - Scale(x, -Canonical(x).exponent) <= 0.5
  {
    CanonicalIsLeast(x);
  }

  /** Rounding moves the value by at most half a unit of the final exponent. */
  lemma RoundingError(x: real)
    requires x >= 0.0
    ensures -Scale(0.5, Canonical(x).exponent) <= ScaledValue(Canonical(x)) - x <= Scale(0.5, Canonical(x).exponent)
  {
    var e := Canonical(x).exponent;
    ScaleOrder(0.0, 0.5, e);
    if x > 0.0 {
      MantissaIsNear(x);
      ScaleAdd(x, -e, e);
      ScaleGap(Canonical(x).mantissa as real, Scale(x, -e), e);
    }
  }

  lemma {:induction false} ScaleMultiple(y: real, k: nat, e: int)
    ensures Scale(k as real * y, e) == k as real * Scale(y, e)
  {
    ScaleIsProduct(y, e);
    ScaleIsProduct(k as real * y, e);
    var p, r := Pow10(e), k as real;
    assert (r * y) * p == r * (y * p);
  }

  lemma ScaleAboveTenth(y: real, e: int)
    requires y > MAX_MANTISSA / 10.0
    ensures Scale(y, e) > 858993459.0 * Scale(0.5, e)
  {
    ScaleOrder(858993459.0 * 0.5, y, e);
    ScaleMultiple(0.5, 858993459, e);
  }

  /** Above exponent -18 the relative error is below 1/858993459. */
  lemma RelativeError(x: real)
    requires x > 0.0 && Canonical(x).exponent > -18
    ensures -x < 858993459.0 * (ScaledValue(Canonical(x)) - x) < x
  {
    RoundingError(x);
    CanonicalIsLeast(x);
    var e := Canonical(x).exponent;
    var y := Scale(x, -e);
    ScaleAdd(x, -e, e);
    ScaleAboveTenth(y, e);
  }

  /** The int8 exponent is the true one exactly for the values up to (2^32-1)*10^127. */
  lemma ExponentFits(x: real)
    requires x >= 0.0
    ensures Canonical(x).exponent <= 127 <==> x <= Scale(MAX_MANTISSA, 127)
    ensures x <= Scale(MAX_MANTISSA, 127) ==> Value(Reported(x)) == ScaledValue(Canonical(x))
  {
    ScaleMonoExponent(MAX_MANTISSA, 0, 127);
    if x > 0.0 {
      CanonicalIsLeast(x);
      var e := Canonical(x).exponent;
      if e <= 127 {
        ScaleMonoExponent(MAX_MANTISSA, e, 127);
      } else {
        ScaleMonoExponent(MAX_MANTISSA, 127, e - 1);
      }
    }
  }

  /** Past that bound ++exp wraps, and the record read back is always too small. */
  lemma ReportedIsRightUpToBound(x: real)
    requires x >= 0.0
    ensures Value(Reported(x)) == ScaledValue(Canonical(x)) <==> x <= Scale(MAX_MANTISSA, 127)
    ensures x > Scale(MAX_MANTISSA, 127) ==> Value(Reported(x)) < ScaledValue(Canonical(x))
  {
    ExponentFits(x);
    if x > Scale(MAX_MANTISSA, 127) {
      ScaleMonoExponent(MAX_MANTISSA, 0, 127);
      var s := Canonical(x);
      MantissaIsLarge(x);
      var m, w := s.mantissa as real, WrapInt8(s.exponent);
      ScaleMonoExponent(m, w, s.exponent - 1);
      ScaleSucc(m, s.exponent - 1);
      ScaleOrder(0.0, m, s.exponent - 1);
    }
  }
}
