// Powers of ten over the reals, and the value of a decimal record.
module Powers {
  import opened Types

  /** 10^e for any integer e. */
  function Pow10(e: int): (p: real)
    ensures p > 0.0
    decreases if e < 0 then -e else e
  {
    if e == 0 then 1.0
    else if e > 0 then 10.0 * Pow10(e - 1)
    else Pow10(e + 1) / 10.0
  }

  /** y * 10^e, written as repeated scaling by ten so that every law about it is linear. */
  function Scale(y: real, e: int): real
    decreases if e < 0 then -e else e, y
  {
    if e == 0 then y
    else if e > 0 then 10.0 * Scale(y, e - 1)
    else Scale(y, e + 1) / 10.0
  }

  lemma {:induction false} ScaleIsProduct(y: real, e: int)
    ensures Scale(y, e) == y * Pow10(e)
    decreases if e < 0 then -e else e
  {
    if e > 0 {
      ScaleIsProduct(y, e - 1);
      var p := Pow10(e - 1);
      assert y * (10.0 * p) == 10.0 * (y * p);
    } else if e < 0 {
      ScaleIsProduct(y, e + 1);
      var p := Pow10(e + 1);
      assert y * (p / 10.0) == (y * p) / 10.0;
    }
  }

  lemma ScaleSucc(y: real, e: int)
    ensures Scale(y, e + 1) == 10.0 * Scale(y, e)
  {
  }

  lemma {:induction false} ScaleTen(y: real, e: int)
    ensures Scale(10.0 * y, e) == 10.0 * Scale(y, e)
    decreases if e < 0 then -e else e
  {
    if e > 0 {
      ScaleTen(y, e - 1);
    } else if e < 0 {
      ScaleTen(y, e + 1);
    }
  }

  lemma {:induction false} ScaleAdd(y: real, d: int, e: int)
    ensures Scale(Scale(y, d), e) == Scale(y, d + e)
    decreases if e < 0 then -e else e
  {
    if e > 0 {
      ScaleAdd(y, d, e - 1);
      ScaleSucc(y, d + e - 1);
    } else if e < 0 {
      ScaleAdd(y, d, e + 1);
      ScaleSucc(y, d + e);
    }
  }

  lemma PowerOfSum(d: int, e: int)
    ensures Pow10(d + e) == Pow10(d) * Pow10(e)
  {
    hide Scale, Pow10;
    ScaleIsProduct(1.0, d);
    ScaleIsProduct(Pow10(d), e);
    ScaleIsProduct(1.0, d + e);
    ScaleAdd(1.0, d, e);
  }

  lemma PowerZero()
    ensures Pow10(0) == 1.0
  {
  }

  lemma PowerSucc(e: int)
    ensures Pow10(e + 1) == 10.0 * Pow10(e)
  {
  }

  /** What makes it the power of ten. */
  lemma PowerLaws(d: int, e: int)
    ensures Pow10(0) == 1.0
    ensures Pow10(e + 1) == 10.0 * Pow10(e)
    ensures Pow10(d + e) == Pow10(d) * Pow10(e)
  {
    PowerOfSum(d, e);
    hide Scale, Pow10;
    PowerSucc(e);
    PowerZero();
  }

  lemma {:induction false} ScaleSum(a: real, b: real, e: int)
    ensures Scale(a + b, e) == Scale(a, e) + Scale(b, e)
    decreases if e < 0 then -e else e
  {
    if e > 0 {
      ScaleSum(a, b, e - 1);
    } else if e < 0 {
      ScaleSum(a, b, e + 1);
    }
  }

  /** Scaling keeps the order and the sign. */
  lemma {:induction false} ScaleOrder(a: real, b: real, e: int)
    ensures a < b <==> Scale(a, e) < Scale(b, e)
    ensures a == b <==> Scale(a, e) == Scale(b, e)
    ensures Scale(0.0, e) == 0.0
    decreases if e < 0 then -e else e
  {
    if e > 0 {
      ScaleOrder(a, b, e - 1);
    } else if e < 0 {
      ScaleOrder(a, b, e + 1);
    }
  }

  lemma {:induction false} ScaleMonoExponent(y: real, d: int, e: int)
    requires y >= 0.0 && d <= e
    ensures 0.0 <= Scale(y, d) <= Scale(y, e)
    decreases e - d
  {
    ScaleOrder(0.0, y, d);
    if d < e {
      ScaleSucc(y, e - 1);
      ScaleMonoExponent(y, d, e - 1);
    }
  }

  function IntPow10(n: nat): (p: nat)
    ensures p >= 1
  {
    if n == 0 then 1 else 10 * IntPow10(n - 1)
  }

  /** Scaling an integer up gives an integer. */
  lemma {:induction false} ScaleOfInteger(m: nat, n: nat)
    ensures Scale(m as real, n) == (m * IntPow10(n)) as real
  {
    if n > 0 {
      ScaleOfInteger(m, n - 1);
      var p := IntPow10(n - 1);
      assert m * (10 * p) == 10 * (m * p);
    }
  }

  /** What the C++ computes as mantissa * pow(10.0, exponent). */
  function Value(d: Decimal): real {
    Scale(d.mantissa as real, d.exponent)
  }

  /** A stored decimal is worth mantissa * 10^exponent. */
  lemma ValueIsProduct(d: Decimal)
    ensures Value(d) == d.mantissa as real * Pow10(d.exponent)
  {
    ScaleIsProduct(d.mantissa as real, d.exponent);
  }

  lemma {:induction false} IntPow10IsPower(n: nat)
    ensures IntPow10(n) as real == Pow10(n)
  {
    if n > 0 {
      IntPow10IsPower(n - 1);
    }
  }

  /** A decimal as a whole number of units of 10^-128. */
  function Units(d: Decimal): nat {
    d.mantissa * IntPow10(d.exponent + 128)
  }

  lemma ValueInUnits(d: Decimal)
    ensures Value(d) == Scale(Units(d) as real, -128)
  {
    ScaleOfInteger(d.mantissa, d.exponent + 128);
    ScaleAdd(d.mantissa as real, d.exponent + 128, -128);
  }

  /** Comparing values is comparing integers, whatever the two exponents. */
  lemma ValueOrder(p: Decimal, q: Decimal)
    ensures Value(p) <= Value(q)
       <==> p.mantissa * IntPow10(p.exponent + 128) <= q.mantissa * IntPow10(q.exponent + 128)
  {
    hide Value, IntPow10;
    ValueInUnits(p);
    ValueInUnits(q);
    ScaleOrder(Units(q) as real, Units(p) as real, -128);
  }

  lemma ValueNonNegative(d: Decimal)
    ensures Value(d) >= 0.0
    ensures Value(d) == 0.0 <==> d.mantissa == 0
  {
    ScaleOrder(0.0, d.mantissa as real, d.exponent);
  }
}
