// The reported mean against the reported minimum and maximum, after rounding.
module MeanBounds {
  import opened Types
  import opened Powers
  import opened Normaliser
  import opened NormaliserLaws
  import opened Summaries

  /** How many of a price's decimal digits lie below the normaliser's floor of 10^-18. */
  function LostDigits(p: Price): nat {
    if p.exponent >= -18 then 0 else -18 - p.exponent
  }

  /** Rounding the price at 10^-18 does not lower it. */
  predicate RoundsUpOrExact(p: Price) {
    var unit := IntPow10(LostDigits(p));
    p.mantissa % unit == 0 || 2 * (p.mantissa % unit) >= unit
  }

  /** Rounding the price at 10^-18 does not raise it. */
  predicate RoundsDownOrExact(p: Price) {
    var unit := IntPow10(LostDigits(p));
    2 * (p.mantissa % unit) < unit
  }

  lemma UnitFraction(r: nat, n: int)
    requires n >= 0
    ensures Scale(IntPow10(n) as real, -n) == 1.0
    ensures r == 0 <==> Scale(r as real, -n) == 0.0
    ensures r < IntPow10(n) <==> Scale(r as real, -n) < 1.0
    ensures 2 * r < IntPow10(n) <==> Scale(r as real, -n) < 0.5
    ensures Scale(r as real, -n) >= 0.0
  {
    ScaleOfInteger(1, n);
    ScaleAdd(1.0, n, -n);
    ScaleOrder(0.0, r as real, -n);
    ScaleOrder(r as real, IntPow10(n) as real, -n);
    ScaleSum(r as real, r as real, -n);
    ScaleOrder(r as real + r as real, IntPow10(n) as real, -n);
  }

  lemma QuotientRemainder(m: nat, unit: nat) returns (whole: nat)
    requires unit >= 1
    ensures whole == (m / unit) * unit
    ensures m as real == whole as real + (m % unit) as real
  {
    whole := (m / unit) * unit;
  }

  /** Scaled down by n digits, m is its quotient plus the fraction of its remainder. */
  lemma QuotientAndFraction(m: nat, n: int)
    requires n >= 0
    ensures Scale(m as real, -n) == (m / IntPow10(n)) as real + Scale((m % IntPow10(n)) as real, -n)
  {
    var whole := QuotientRemainder(m, IntPow10(n));
    var q := m / IntPow10(n);
    ScaleOfInteger(q, n);
    ScaleAdd(q as real, n, -n);
    ScaleSum(whole as real, (m % IntPow10(n)) as real, -n);
  }

  lemma RoundOfFraction(q: nat, f: real)
    requires 0.0 <= f < 1.0
    ensures Round(q as real + f) == if f < 0.5 then q else q + 1
  {
  }

  lemma FractionDirection(q: nat, r: nat, n: int)
    requires n >= 0 && r < IntPow10(n)
    ensures var y := q as real + Scale(r as real, -n);
            && y >= 0.0
            && (Round(y) as real >= y <==> r == 0 || 2 * r >= IntPow10(n))
            && (Round(y) as real <= y <==> 2 * r < IntPow10(n))
  {
    UnitFraction(r, n);
    RoundOfFraction(q, Scale(r as real, -n));
  }

  /** At the normaliser's floor exponent, which way a price rounds is read off its digits. */
  lemma RoundingDirection(p: Price)
    requires p.exponent < -18 && p.mantissa > 0
    ensures Scale(Value(p), 18) >= 0.0
    ensures Round(Scale(Value(p), 18)) as real >= Scale(Value(p), 18) <==> RoundsUpOrExact(p)
    ensures Round(Scale(Value(p), 18)) as real <= Scale(Value(p), 18) <==> RoundsDownOrExact(p)
  {
    hide IntPow10;
    var n: int := LostDigits(p);
    var unit := IntPow10(n);
    var q, r := p.mantissa / unit, p.mantissa % unit;
    ScaleAdd(p.mantissa as real, p.exponent, 18);
    QuotientAndFraction(p.mantissa, n);
    FractionDirection(q, r, n);
    assert Scale(Value(p), 18) == q as real + Scale(r as real, -n);
  }

  lemma SmallPriceExponent(p: Price)
    requires p.exponent < -18 && p.mantissa > 0
    ensures Value(p) > 0.0 && Canonical(Value(p)).exponent == -18
  {
    ValueNonNegative(p);
    CanonicalIsLeast(Value(p));
    ScaleOrder(p.mantissa as real, MAX_MANTISSA, p.exponent);
    ScaleMonoExponent(MAX_MANTISSA, p.exponent, -18);
    LeastExponentUnique(Value(p), -18, Canonical(Value(p)).exponent);
  }

  /** Normalising a price lowers it, keeps it or raises it, as its lost digits say. */
  lemma NormalisedPrice(p: Price)
    ensures Value(p) >= 0.0
    ensures ScaledValue(Canonical(Value(p))) >= Value(p) <==> RoundsUpOrExact(p)
    ensures ScaledValue(Canonical(Value(p))) <= Value(p) <==> RoundsDownOrExact(p)
  {
    ValueNonNegative(p);
    if p.exponent >= -18 {
      NormaliseExact(p.mantissa, p.exponent);
    } else if p.mantissa == 0 {
      ScaleOrder(0.0, 0.0, 0);
    } else {
      var v, s := Value(p), Canonical(Value(p));
      SmallPriceExponent(p);
      CanonicalIsLeast(v);
      RoundingDirection(p);
      ScaleAdd(v, 18, -18);
      ScaleOrder(s.mantissa as real, Scale(v, 18), -18);
    }
  }

  ghost predicate MeanWithin(ts: seq<Trade>) {
    Value(MinPrice(ts)) <= Value(Reported(Mean(ts))) <= Value(MaxPrice(ts))
  }

  /** The reported mean stays between the reported minimum and maximum, rounding included. */
  lemma ReportedMeanBetween(ts: seq<Trade>)
    requires SumQuantity(ts) > 0.0
    requires RoundsUpOrExact(MinPrice(ts)) && RoundsDownOrExact(MaxPrice(ts))
    ensures MeanWithin(ts)
  {
    var lo, hi := MinPrice(ts), MaxPrice(ts);
    MeanBetween(ts);
    PriceFits(hi);
    ExponentFits(Mean(ts));
    NormalisedPrice(lo);
    NormalisedPrice(hi);
    NormaliseMonotone(Value(lo), Mean(ts));
    NormaliseMonotone(Mean(ts), Value(hi));
  }

  /** In particular whenever no price has an exponent below -18. */
  lemma MeanBetweenForOrdinaryPrices(ts: seq<Trade>)
    requires SumQuantity(ts) > 0.0
    requires forall i :: 0 <= i < |ts| ==> ts[i].price.exponent >= -18
    ensures MeanWithin(ts)
  {
    SumOfNothing(ts);
    var i := MinPriceAt(ts);
    var j := MaxPriceAt(ts);
    ReportedMeanBetween(ts);
  }

  // ---------------------------------------------------------------------
  // The condition is exact

  function SampleTrade(p: Price, quantity: Uint32): Trade {
    Trade(0, 0, 0, p, Decimal(quantity, 0), 1)
  }

  lemma SumsOfPair(a: Trade, b: Trade)
    ensures SumQuantity([a, b]) == Value(a.quantity) + Value(b.quantity)
    ensures SumPriceQuantity([a, b]) ==
              Value(a.price) * Value(a.quantity) + Value(b.price) * Value(b.quantity)
    ensures MinPrice([a, b]) == if Value(b.price) < Value(a.price) then b.price else a.price
    ensures MaxPrice([a, b]) == if Value(b.price) > Value(a.price) then b.price else a.price
  {
    assert [a, b][..1] == [a];
    assert [a][..0] == [];
    assert SumQuantity([]) == 0.0 && SumPriceQuantity([]) == 0.0;
    assert SumQuantity([a]) == Value(a.quantity);
    assert SumPriceQuantity([a]) == Value(a.price) * Value(a.quantity);
  }

  lemma ReportedPrice(p: Price)
    ensures Value(p) >= 0.0
    ensures Value(Reported(Value(p))) == ScaledValue(Canonical(Value(p)))
  {
    PriceFits(p);
    ExponentFits(Value(p));
  }

  ghost predicate AlwaysWithin(lo: Price, hi: Price) {
    forall ts: seq<Trade> :: SumQuantity(ts) > 0.0 && MinPrice(ts) == lo && MaxPrice(ts) == hi
                             ==> MeanWithin(ts)
  }

  /** All the weight on the first of two trades puts the mean at its price. */
  lemma MeanAtFirst(p: Price, q: Price)
    ensures SumQuantity([SampleTrade(p, 1), SampleTrade(q, 0)]) > 0.0
    ensures Mean([SampleTrade(p, 1), SampleTrade(q, 0)]) == Value(p)
  {
    SumsOfPair(SampleTrade(p, 1), SampleTrade(q, 0));
  }

  lemma MeanAtSecond(p: Price, q: Price)
    ensures SumQuantity([SampleTrade(p, 0), SampleTrade(q, 1)]) > 0.0
    ensures Mean([SampleTrade(p, 0), SampleTrade(q, 1)]) == Value(q)
  {
    SumsOfPair(SampleTrade(p, 0), SampleTrade(q, 1));
  }

  /**
   * For a given minimum and maximum, the mean stays between them whatever the trades
   * and weights exactly when the minimum does not round down at 10^-18 and the maximum
   * does not round up there.
   */
  lemma MeanBetweenExactly(lo: Price, hi: Price)
    requires Value(lo) < Value(hi) || lo == hi
    ensures AlwaysWithin(lo, hi) <==> RoundsUpOrExact(lo) && RoundsDownOrExact(hi)
  {
    if RoundsUpOrExact(lo) && RoundsDownOrExact(hi) {
      forall ts: seq<Trade> | SumQuantity(ts) > 0.0 && MinPrice(ts) == lo && MaxPrice(ts) == hi
        ensures MeanWithin(ts)
      {
        ReportedMeanBetween(ts);
      }
    }
    if AlwaysWithin(lo, hi) {
      var low := [SampleTrade(lo, 1), SampleTrade(hi, 0)];
      SumsOfPair(low[0], low[1]);
      MeanAtFirst(lo, hi);
      assert MeanWithin(low);
      ReportedPrice(lo);
      NormalisedPrice(lo);
      var high := [SampleTrade(lo, 0), SampleTrade(hi, 1)];
      SumsOfPair(high[0], high[1]);
      MeanAtSecond(lo, hi);
      assert MeanWithin(high);
      ReportedPrice(hi);
      NormalisedPrice(hi);
    }
  }

  /** Two prices where the guarantee fails: a mean of 1.4e-18 against a minimum of 1.4e-18. */
  lemma MeanBelowMinimum()
    ensures !AlwaysWithin(Decimal(14, -19), Decimal(20, -19))
  {
    var lo, hi := Decimal(14, -19), Decimal(20, -19);
    assert IntPow10(1) == 10;
    ScaleOrder(14.0, 20.0, -19);
    MeanBetweenExactly(lo, hi);
  }
}
