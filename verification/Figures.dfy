// What the four figures of a window are, said of its trades in whole numbers and powers of
// ten, without the scans, the sums and the normaliser that compute them.
module Figures {
  import opened Types
  import opened Powers
  import opened Normaliser
  import opened NormaliserLaws
  import opened Ranges
  import opened Summaries

  // ---------------------------------------------------------------------
  // Exact sums

  /** The total quantity, in units of 10^-128. */
  function QuantityUnits(ts: seq<Trade>): nat {
    if ts == [] then 0 else Units(ts[0].quantity) + QuantityUnits(ts[1..])
  }

  /** The total of price times quantity, in units of 10^-256. */
  function TurnoverUnits(ts: seq<Trade>): nat {
    if ts == [] then 0 else Units(ts[0].price) * Units(ts[0].quantity) + TurnoverUnits(ts[1..])
  }

  lemma {:induction false} QuantityUnitsSnoc(ts: seq<Trade>, t: Trade)
    ensures QuantityUnits(ts + [t]) == QuantityUnits(ts) + Units(t.quantity)
  {
    hide Units;
    if ts == [] {
      assert ts + [t] == [t] && [t][1..] == [];
    } else {
      assert (ts + [t])[1..] == ts[1..] + [t];
      QuantityUnitsSnoc(ts[1..], t);
    }
  }

  lemma {:induction false} TurnoverUnitsSnoc(ts: seq<Trade>, t: Trade)
    ensures TurnoverUnits(ts + [t]) == TurnoverUnits(ts) + Units(t.price) * Units(t.quantity)
  {
    hide Units;
    if ts == [] {
      assert ts + [t] == [t] && [t][1..] == [];
    } else {
      assert (ts + [t])[1..] == ts[1..] + [t];
      TurnoverUnitsSnoc(ts[1..], t);
    }
  }

  lemma {:induction false} SumInUnits(ts: seq<Trade>)
    ensures SumQuantity(ts) == Scale(QuantityUnits(ts) as real, -128)
  {
    hide Scale, Units, Value;
    if ts == [] {
      ScaleOrder(0.0, 0.0, -128);
    } else {
      var init, last := ts[..|ts| - 1], ts[|ts| - 1];
      assert ts == init + [last];
      SumInUnits(init);
      QuantityUnitsSnoc(init, last);
      ValueInUnits(last.quantity);
      ScaleSum(QuantityUnits(init) as real, Units(last.quantity) as real, -128);
    }
  }

  lemma Exchange(a: nat, b: nat, p: real)
    ensures (a as real * p) * (b as real * p) == (a * b) as real * (p * p)
  {
    var x, y := a as real, b as real;
    assert (a * b) as real == x * y;
    assert (x * p) * (y * p) == (x * y) * (p * p);
  }

  lemma ProductInUnits(p: Decimal, q: Decimal)
    ensures Value(p) * Value(q) == Scale((Units(p) * Units(q)) as real, -256)
  {
    hide Scale, Units, Value, Pow10;
    ValueInUnits(p);
    ValueInUnits(q);
    ScaleIsProduct(Units(p) as real, -128);
    ScaleIsProduct(Units(q) as real, -128);
    ScaleIsProduct((Units(p) * Units(q)) as real, -256);
    PowerLaws(-128, -128);
    Exchange(Units(p), Units(q), Pow10(-128));
  }

  lemma {:induction false} TurnoverInUnits(ts: seq<Trade>)
    ensures SumPriceQuantity(ts) == Scale(TurnoverUnits(ts) as real, -256)
  {
    hide Scale, Units, Value;
    if ts == [] {
      ScaleOrder(0.0, 0.0, -256);
    } else {
      var init, last := ts[..|ts| - 1], ts[|ts| - 1];
      assert ts == init + [last];
      TurnoverInUnits(init);
      TurnoverUnitsSnoc(init, last);
      ProductInUnits(last.price, last.quantity);
      ScaleSum(TurnoverUnits(init) as real, (Units(last.price) * Units(last.quantity)) as real, -256);
    }
  }

  // ---------------------------------------------------------------------
  // Rounding

  /** d is x at exponent e: the least e from -18 up at which x fits into 32 bits, and x rounded there. */
  ghost predicate RoundsAt(x: real, d: Decimal, e: int) {
    && e >= -18
    && x <= 4294967295.0 * Pow10(e)
    && (e > -18 ==> 4294967295.0 * Pow10(e - 1) < x)
    && (d.mantissa as real - 0.5) * Pow10(e) <= x < (d.mantissa as real + 0.5) * Pow10(e)
    && (d.exponent - e) % 256 == 0
  }

  /** d is what x is reported as; the exponent is kept in eight bits. */
  ghost predicate RoundsTo(x: real, d: Decimal) {
    if x == 0.0 then d == Decimal(0, 0) else exists e :: RoundsAt(x, d, e)
  }

  lemma ScaleZero(x: real)
    ensures Scale(x, 0) == x
  {
  }

  lemma RoundedMantissa(x: real, m: Uint32, e: int)
    requires x > 0.0
    ensures Scale(x, -e) >= 0.0
    ensures m == Round(Scale(x, -e))
       <==> (m as real - 0.5) * Pow10(e) <= x < (m as real + 0.5) * Pow10(e)
  {
    hide Scale, Pow10;
    ScaleOrder(0.0, x, -e);
    ScaleIsProduct(m as real - 0.5, e);
    ScaleIsProduct(m as real + 0.5, e);
    var y := Scale(x, -e);
    ScaleAdd(x, -e, e);
    ScaleZero(x);
    ScaleOrder(y, m as real - 0.5, e);
    ScaleOrder(y, m as real + 0.5, e);
  }

  lemma LeastExponentLaw(x: real, e: int)
    ensures IsLeastExponent(x, e)
       <==> e >= -18 && x <= 4294967295.0 * Pow10(e) && (e > -18 ==> 4294967295.0 * Pow10(e - 1) < x)
  {
    hide Scale, Pow10;
    ScaleIsProduct(MAX_MANTISSA, e);
    ScaleIsProduct(MAX_MANTISSA, e - 1);
  }

  lemma SameInt8(a: Int8, b: Int8)
    requires (a - b) % 256 == 0
    ensures a == b
  {
  }

  /** Only 0 is reported as 0e0. */
  lemma ReportedZero(x: real)
    requires x >= 0.0
    ensures Reported(x) == Decimal(0, 0) <==> x == 0.0
  {
    if x > 0.0 {
      CanonicalIsLeast(x);
      if Canonical(x).exponent > -18 {
        MantissaIsLarge(x);
      }
      hide Canonical;
    }
  }

  lemma ReportedRounds(x: real)
    requires x > 0.0
    ensures RoundsAt(x, Reported(x), Canonical(x).exponent)
  {
    hide Canonical, Scale, Pow10, IsLeastExponent;
    var c := Canonical(x);
    CanonicalIsLeast(x);
    LeastExponentLaw(x, c.exponent);
    RoundedMantissa(x, c.mantissa, c.exponent);
  }

  lemma RoundingIsReported(x: real, d: Decimal, e: int)
    requires x > 0.0 && RoundsAt(x, d, e)
    ensures d == Reported(x)
  {
    hide Canonical, Scale, Pow10, IsLeastExponent;
    CanonicalIsLeast(x);
    LeastExponentLaw(x, e);
    LeastExponentUnique(x, e, Canonical(x).exponent);
    RoundedMantissa(x, d.mantissa, e);
    SameInt8(d.exponent, Reported(x).exponent);
  }

  /** The normaliser's result is that decimal and no other, for every value from 0 up. */
  lemma ReportedExactly(x: real, d: Decimal)
    requires x >= 0.0
    ensures Reported(x) == d <==> RoundsTo(x, d)
  {
    hide Reported, RoundsAt;
    if x == 0.0 {
      ReportedZero(x);
    } else {
      ReportedRounds(x);
      if e :| RoundsAt(x, d, e) {
        RoundingIsReported(x, d, e);
      }
    }
  }

  // ---------------------------------------------------------------------
  // The four figures

  /** The weighted mean of the prices. */
  ghost function ExactMean(ts: seq<Trade>): real {
    if QuantityUnits(ts) == 0 then 0.0
    else TurnoverUnits(ts) as real / QuantityUnits(ts) as real * Pow10(-128)
  }

  ghost function ExactTotal(ts: seq<Trade>): real {
    QuantityUnits(ts) as real * Pow10(-128)
  }

  /** s tells of these trades what a window's record is to tell. */
  ghost predicate FiguresOf(ts: seq<Trade>, s: Summary) {
    && (if ts == [] then s.minPrice == s.maxPrice == Decimal(0, 0)
        else
          && (exists i: nat :: EarliestMinAt(ts, s.minPrice, i))
          && (exists j: nat :: EarliestMaxAt(ts, s.maxPrice, j)))
    && RoundsTo(ExactMean(ts), s.mean)
    && RoundsTo(ExactTotal(ts), s.total)
  }

  lemma TotalIsExact(ts: seq<Trade>)
    ensures SumQuantity(ts) == ExactTotal(ts)
  {
    hide Scale, Pow10, QuantityUnits;
    SumInUnits(ts);
    ScaleIsProduct(QuantityUnits(ts) as real, -128);
  }

  lemma CancelPower(a: real, b: real, p: real)
    requires b > 0.0 && p > 0.0
    ensures b * p > 0.0 && (a * (p * p)) / (b * p) == a / b * p
  {
    assert a * (p * p) == (a / b * p) * (b * p) by {
      assert a / b * b == a;
      assert (a / b * p) * (b * p) == (a / b * b) * (p * p);
    }
    DivideBack(a / b * p, b * p, a * (p * p));
  }

  lemma PositiveScaled(n: nat, p: real)
    requires p > 0.0
    ensures n as real * p > 0.0 <==> n > 0
  {
  }

  lemma MeanIsExact(ts: seq<Trade>)
    ensures Mean(ts) == ExactMean(ts)
  {
    hide Scale, Pow10, QuantityUnits, TurnoverUnits, SumQuantity, SumPriceQuantity;
    SumInUnits(ts);
    TurnoverInUnits(ts);
    var t, q, p := TurnoverUnits(ts) as real, QuantityUnits(ts), Pow10(-128);
    ScaleIsProduct(t, -256);
    ScaleIsProduct(q as real, -128);
    PowerLaws(-128, -128);
    PositiveScaled(q, p);
    if q > 0 {
      CancelPower(t, q as real, p);
    }
  }

  /** The engine's figures of some trades are these and no others. */
  lemma FiguresExactly(ts: seq<Trade>, s: Summary)
    ensures s == Summarise(ts) <==> FiguresOf(ts, s)
  {
    hide Reported, RoundsTo, ExactMean, ExactTotal, MinPrice, MaxPrice, Mean, SumQuantity, EarliestMinAt, EarliestMaxAt;
    MinPriceCharacterised(ts, s.minPrice);
    MaxPriceCharacterised(ts, s.maxPrice);
    MeanIsExact(ts);
    TotalIsExact(ts);
    ReportedExactly(Mean(ts), s.mean);
    ReportedExactly(SumQuantity(ts), s.total);
  }

  lemma NoProduct(a: nat, b: nat)
    ensures a * b == 0 <==> a == 0 || b == 0
    ensures a * b >= 0
  {
  }

  lemma NoUnits(d: Decimal)
    ensures Units(d) == 0 <==> d.mantissa == 0
  {
    NoProduct(d.mantissa, IntPow10(d.exponent + 128));
  }

  lemma {:induction false} NoTurnover(ts: seq<Trade>)
    ensures TurnoverUnits(ts) == 0
       <==> forall i :: 0 <= i < |ts| ==> ts[i].price.mantissa == 0 || ts[i].quantity.mantissa == 0
    ensures QuantityUnits(ts) == 0 <==> forall i :: 0 <= i < |ts| ==> ts[i].quantity.mantissa == 0
  {
    if ts != [] {
      NoTurnover(ts[1..]);
      NoUnits(ts[0].price);
      NoUnits(ts[0].quantity);
      NoProduct(Units(ts[0].price), Units(ts[0].quantity));
      hide Units;
      assert forall i :: 1 <= i < |ts| ==> ts[i] == ts[1..][i - 1];
    }
  }

  lemma ZeroQuotient(a: nat, b: nat, p: real)
    requires b > 0 && p > 0.0
    ensures a as real / b as real * p == 0.0 <==> a == 0
  {
    var q := a as real / b as real;
    assert q * b as real == a as real;
    assert q * p == 0.0 ==> q == 0.0;
  }

  /** When the mean and the total are reported as 0e0: nothing was paid, nothing was traded. */
  lemma NothingReported(ts: seq<Trade>)
    ensures Reported(Mean(ts)) == Decimal(0, 0)
       <==> forall i :: 0 <= i < |ts| ==> ts[i].price.mantissa == 0 || ts[i].quantity.mantissa == 0
    ensures Reported(SumQuantity(ts)) == Decimal(0, 0)
       <==> forall i :: 0 <= i < |ts| ==> ts[i].quantity.mantissa == 0
  {
    hide Reported, Mean, SumQuantity, QuantityUnits, TurnoverUnits, Pow10;
    ReportedZero(Mean(ts));
    ReportedZero(SumQuantity(ts));
    MeanIsExact(ts);
    TotalIsExact(ts);
    NoTurnover(ts);
    PositiveScaled(QuantityUnits(ts), Pow10(-128));
    if QuantityUnits(ts) > 0 {
      ZeroQuotient(TurnoverUnits(ts), QuantityUnits(ts), Pow10(-128));
    }
  }

  const NO_FIGURES: Summary := Summary(Decimal(0, 0), Decimal(0, 0), Decimal(0, 0), Decimal(0, 0))

  /** A window that meets the store and contains no trade is answered by four times 0e0. */
  lemma GapFigures(ts: seq<Trade>, s: int, e: int)
    requires ts != [] && SortedByTime(ts) && s < e
    requires Overlaps(ts, s, e) && forall i :: 0 <= i < |ts| ==> !(s <= ts[i].createdAt < e)
    ensures Summarise(Scanned(ts, s, e)) == NO_FIGURES
  {
    ScannedExactly(ts, s, e);
    MatchingNone(ts, s, e);
    NothingReported([]);
  }
}
