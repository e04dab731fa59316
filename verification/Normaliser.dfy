// The decimal normaliser: the scale-up and scale-down loops that end
// total_quantity_in_range and mean_price_in_range.
module Normaliser {
  import opened Types
  import opened Powers

  /** 2^32 - 1, the largest mantissa. */
  const MAX_MANTISSA: real := 4294967295.0

  /** std::round on a non-negative argument. */
  function Round(v: real): (n: int)
    requires v >= 0.0
    ensures n >= 0 && v - 0.5 < n as real <= v + 0.5
  {
    (v + 0.5).Floor
  }

  /** The conversion back to int8_t after ++exp. */
  function WrapInt8(e: int): (w: Int8)
    ensures -128 <= e <= 127 ==> w == e
    ensures (w - e) % 256 == 0
  {
    (e + 128) % 256 - 128
  }

  /** A mantissa and an exponent before the exponent is cut to eight bits. */
  datatype Scaled = Scaled(mantissa: Uint32, exponent: int)

  ghost function ScaledValue(s: Scaled): real {
    Scale(s.mantissa as real, s.exponent)
  }

  /** e is the least exponent from -18 up at which x fits the mantissa. */
  ghost predicate IsLeastExponent(x: real, e: int) {
    && e >= -18
    && x <= Scale(MAX_MANTISSA, e)
    && (e > -18 ==> x > Scale(MAX_MANTISSA, e - 1))
  }

  lemma ShrinkFloor(y: real)
    requires y > 2.0
    ensures 0 <= (y / 10.0).Floor < y.Floor
  {
  }

  /** Divides by ten until the mantissa fits. */
  ghost function ScaleDown(y: real, e: int): (r: (real, int))
    requires y >= 0.0
    ensures 0.0 <= r.0 <= MAX_MANTISSA && r.1 >= e
    ensures r.1 > e ==> r.0 > MAX_MANTISSA / 10.0
    decreases y.Floor
  {
    if y <= MAX_MANTISSA then (y, e)
    else ShrinkFloor(y); ScaleDown(y / 10.0, e + 1)
  }

  /** The one-loop reference: scale fully up to 10^-18 units, then down. */
  ghost function Canonical(x: real): (s: Scaled)
    requires x >= 0.0
  {
    if x == 0.0 then Scaled(0, 0)
    else
      ScaleOrder(0.0, x, 18);
      var (y, e) := ScaleDown(Scale(x, 18), -18);
      Scaled(Round(y), e)
  }

  /** The record the engine returns for x. */
  ghost function Reported(x: real): Decimal
    requires x >= 0.0
  {
    Decimal(Canonical(x).mantissa, WrapInt8(Canonical(x).exponent))
  }

  // ---------------------------------------------------------------------
  // What the canonical form is

  lemma {:induction false} ScaleDownKeepsValue(y: real, e: int)
    requires y >= 0.0
    ensures Scale(ScaleDown(y, e).0, ScaleDown(y, e).1) == Scale(y, e)
    decreases y.Floor
  {
    if y > MAX_MANTISSA {
      ShrinkFloor(y);
      ScaleTen(y / 10.0, e);
      ScaleSucc(y / 10.0, e);
      ScaleDownKeepsValue(y / 10.0, e + 1);
    }
  }

  /** A scaled mantissa above a tenth of the maximum forces the exponent to be least. */
  lemma LeastFromScaled(y: real, e: int)
    requires e >= -18
    requires 0.0 <= y <= MAX_MANTISSA
    requires e > -18 ==> y > MAX_MANTISSA / 10.0
    ensures IsLeastExponent(Scale(y, e), e)
    ensures Scale(Scale(y, e), -e) == y
  {
    ScaleOrder(y, MAX_MANTISSA, e);
    ScaleAdd(y, e, -e);
    if e > -18 {
      ScaleTen(MAX_MANTISSA / 10.0, e - 1);
      ScaleSucc(MAX_MANTISSA / 10.0, e - 1);
      ScaleOrder(MAX_MANTISSA / 10.0, y, e);
    }
  }

  lemma LeastExponentUnique(x: real, d: int, e: int)
    requires IsLeastExponent(x, d) && IsLeastExponent(x, e)
    ensures d == e
  {
    if d < e {
      ScaleMonoExponent(MAX_MANTISSA, d, e - 1);
    } else if e < d {
      ScaleMonoExponent(MAX_MANTISSA, e, d - 1);
    }
  }

  /** The exponent is the least one at which x fits, and the mantissa is x rounded there. */
  lemma CanonicalIsLeast(x: real)
    requires x > 0.0
    ensures IsLeastExponent(x, Canonical(x).exponent)
    ensures 0.0 <= Scale(x, -Canonical(x).exponent) <= MAX_MANTISSA
    ensures Canonical(x).exponent > -18 ==> Scale(x, -Canonical(x).exponent) > MAX_MANTISSA / 10.0
    ensures Canonical(x).mantissa == Round(Scale(x, -Canonical(x).exponent))
  {
    ScaleOrder(0.0, x, 18);
    ScaleAdd(x, 18, -18);
    ScaleDownKeepsValue(Scale(x, 18), -18);
    var (z, e) := ScaleDown(Scale(x, 18), -18);
    LeastFromScaled(z, e);
  }

  // ---------------------------------------------------------------------
  // The source's two loops

  /** The loops of lines 231-247 and 305-321: they refine the one-loop reference. */
  method Normalise(x: real) returns (d: Decimal)
    requires x >= 0.0
    ensures d == Reported(x)
  {
    var val := x;
    var exp: Int8 := 0;

    while val > 0.0 && val < 1000000000.0 && exp > -18
      invariant -18 <= exp <= 0
      invariant val >= 0.0 && Scale(val, exp) == x
      invariant exp < 0 ==> val > 0.0
      decreases exp + 18
    {
      ScaleTen(val, exp - 1);
      ScaleSucc(val, exp - 1);
      val := val * 10.0;
      exp := exp - 1;
    }

    // The exponent the stored one would be with unlimited width.
    ghost var e: int := exp;
    while val > MAX_MANTISSA
      invariant val >= 0.0 && Scale(val, e) == x
      invariant e >= -18 && exp == WrapInt8(e)
      invariant val == 0.0 || e == -18 || val > MAX_MANTISSA / 10.0
      invariant val == 0.0 ==> e == 0
      decreases val.Floor
    {
      ShrinkFloor(val);
      ScaleTen(val / 10.0, e);
      ScaleSucc(val / 10.0, e);
      val := val / 10.0;
      e := e + 1;
      exp := WrapInt8(exp + 1);
    }

    var mantissa: Uint32 := Round(val);
    d := Decimal(mantissa, exp);

    ScaleOrder(0.0, val, e);
    if val > 0.0 {
      LeastFromScaled(val, e);
      CanonicalIsLeast(x);
      LeastExponentUnique(x, e, Canonical(x).exponent);
    }
  }
}
