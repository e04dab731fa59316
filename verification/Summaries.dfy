// Minimum, maximum, total and volume-weighted mean of the trades of one window.
module Summaries {
  import opened Types
  import opened Powers
  import opened Normaliser

  ghost function MinPrice(ts: seq<Trade>): Price {
    if ts == [] then Decimal(0, 0)
    else if |ts| == 1 then ts[0].price
    else
      var m, p := MinPrice(ts[..|ts| - 1]), ts[|ts| - 1].price;
      if Value(p) < Value(m) then p else m
  }

  ghost function MaxPrice(ts: seq<Trade>): Price {
    if ts == [] then Decimal(0, 0)
    else if |ts| == 1 then ts[0].price
    else
      var m, p := MaxPrice(ts[..|ts| - 1]), ts[|ts| - 1].price;
      if Value(p) > Value(m) then p else m
  }

  ghost function SumQuantity(ts: seq<Trade>): (r: real)
    ensures r >= 0.0
  {
    if ts == [] then 0.0
    else
      ValueNonNegative(ts[|ts| - 1].quantity);
      SumQuantity(ts[..|ts| - 1]) + Value(ts[|ts| - 1].quantity)
  }

  /** What the trade's quantity is worth at price p. */
  function Turnover(t: Trade, p: real): real {
    p * Value(t.quantity)
  }

  lemma ProductMonotone(a: real, b: real, q: real)
    requires a <= b && q >= 0.0
    ensures a * q <= b * q
  {
    assert (b - a) * q >= 0.0;
  }

  lemma TurnoverMonotone(t: Trade, a: real, b: real)
    requires a <= b
    ensures Turnover(t, a) <= Turnover(t, b)
  {
    hide Value;
    ValueNonNegative(t.quantity);
    ProductMonotone(a, b, Value(t.quantity));
  }

  ghost function SumPriceQuantity(ts: seq<Trade>): (r: real)
    ensures r >= 0.0
  {
    if ts == [] then 0.0
    else
      ValueNonNegative(ts[|ts| - 1].price);
      TurnoverMonotone(ts[|ts| - 1], 0.0, Value(ts[|ts| - 1].price));
      SumPriceQuantity(ts[..|ts| - 1]) + Turnover(ts[|ts| - 1], Value(ts[|ts| - 1].price))
  }

  lemma {:induction false} SumsOfNext(ts: seq<Trade>, n: nat)
    requires n < |ts|
    ensures SumPriceQuantity(ts[..n + 1]) ==
              SumPriceQuantity(ts[..n]) + Turnover(ts[n], Value(ts[n].price))
    ensures SumQuantity(ts[..n + 1]) == SumQuantity(ts[..n]) + Value(ts[n].quantity)
  {
    assert ts[..n + 1][..n] == ts[..n];
  }

  function Quotient(total: real, weight: real): (r: real)
    requires total >= 0.0
    ensures r >= 0.0
  {
    if weight > 0.0 then total / weight else 0.0
  }

  /** The exact volume-weighted mean; 0 when nothing was traded. */
  ghost function Mean(ts: seq<Trade>): (r: real)
    ensures r >= 0.0
  {
    Quotient(SumPriceQuantity(ts), SumQuantity(ts))
  }

  /** The four figures the engine reports for one window. */
  datatype Summary = Summary(minPrice: Price, maxPrice: Price, mean: Price, total: Quantity)

  ghost function Summarise(ts: seq<Trade>): Summary {
    Summary(MinPrice(ts), MaxPrice(ts), Reported(Mean(ts)), Reported(SumQuantity(ts)))
  }

  // ---------------------------------------------------------------------
  // Minimum and maximum

  /** Decimal p is worth less than q, in integers. */
  predicate Under(p: Decimal, q: Decimal) {
    p.mantissa * IntPow10(p.exponent + 128) < q.mantissa * IntPow10(q.exponent + 128)
  }

  lemma UnderIsLess(p: Decimal, q: Decimal)
    ensures Under(p, q) <==> Value(p) < Value(q)
  {
    ValueOrder(q, p);
  }

  /** p is the price of trade i, no price is lower, and every earlier price is higher. */
  ghost predicate EarliestMinAt(ts: seq<Trade>, p: Price, i: nat) {
    && i < |ts| && ts[i].price == p
    && (forall j :: 0 <= j < |ts| ==> !Under(ts[j].price, p))
    && (forall j :: 0 <= j < i ==> Under(p, ts[j].price))
  }

  ghost predicate EarliestMaxAt(ts: seq<Trade>, p: Price, i: nat) {
    && i < |ts| && ts[i].price == p
    && (forall j :: 0 <= j < |ts| ==> !Under(p, ts[j].price))
    && (forall j :: 0 <= j < i ==> Under(ts[j].price, p))
  }

  // The same on values.

  ghost predicate LeastAt(ts: seq<Trade>, p: Price, i: nat) {
    && i < |ts| && ts[i].price == p
    && (forall j :: 0 <= j < |ts| ==> Value(p) <= Value(ts[j].price))
    && (forall j :: 0 <= j < i ==> Value(p) < Value(ts[j].price))
  }

  ghost predicate GreatestAt(ts: seq<Trade>, p: Price, i: nat) {
    && i < |ts| && ts[i].price == p
    && (forall j :: 0 <= j < |ts| ==> Value(p) >= Value(ts[j].price))
    && (forall j :: 0 <= j < i ==> Value(p) > Value(ts[j].price))
  }

  lemma ExtremesAgree(ts: seq<Trade>, p: Price, i: nat)
    ensures EarliestMinAt(ts, p, i) <==> LeastAt(ts, p, i)
    ensures EarliestMaxAt(ts, p, i) <==> GreatestAt(ts, p, i)
  {
    hide Under, Value;
    forall j | 0 <= j < |ts|
      ensures Under(p, ts[j].price) <==> Value(p) < Value(ts[j].price)
      ensures Under(ts[j].price, p) <==> Value(ts[j].price) < Value(p)
    {
      UnderIsLess(p, ts[j].price);
      UnderIsLess(ts[j].price, p);
    }
  }

  lemma {:induction false} MinPriceAt(ts: seq<Trade>) returns (i: nat)
    requires ts != []
    ensures LeastAt(ts, MinPrice(ts), i)
  {
    if |ts| == 1 {
      i := 0;
    } else {
      var init := ts[..|ts| - 1];
      i := MinPriceAt(init);
      if Value(ts[|ts| - 1].price) < Value(MinPrice(init)) {
        i := |ts| - 1;
        assert forall j :: 0 <= j < |init| ==> init[j] == ts[j];
      }
    }
  }

  lemma {:induction false} MaxPriceAt(ts: seq<Trade>) returns (i: nat)
    requires ts != []
    ensures GreatestAt(ts, MaxPrice(ts), i)
  {
    if |ts| == 1 {
      i := 0;
    } else {
      var init := ts[..|ts| - 1];
      i := MaxPriceAt(init);
      if Value(ts[|ts| - 1].price) > Value(MaxPrice(init)) {
        i := |ts| - 1;
        assert forall j :: 0 <= j < |init| ==> init[j] == ts[j];
      }
    }
  }

  /** The reported minimum is exactly the earliest cheapest trade's price. */
  lemma MinPriceCharacterised(ts: seq<Trade>, p: Price)
    ensures ts == [] ==> MinPrice(ts) == Decimal(0, 0)
    ensures ts != [] ==> (MinPrice(ts) == p <==> exists i: nat :: EarliestMinAt(ts, p, i))
  {
    if ts != [] {
      var k := MinPriceAt(ts);
      ExtremesAgree(ts, MinPrice(ts), k);
      if i: nat :| EarliestMinAt(ts, p, i) {
        ExtremesAgree(ts, p, i);
        assert i == k by {
          assert !(i < k) && !(k < i);
        }
      }
    }
  }

  /** The reported maximum is exactly the earliest dearest trade's price. */
  lemma MaxPriceCharacterised(ts: seq<Trade>, p: Price)
    ensures ts == [] ==> MaxPrice(ts) == Decimal(0, 0)
    ensures ts != [] ==> (MaxPrice(ts) == p <==> exists i: nat :: EarliestMaxAt(ts, p, i))
  {
    if ts != [] {
      var k := MaxPriceAt(ts);
      ExtremesAgree(ts, MaxPrice(ts), k);
      if i: nat :| EarliestMaxAt(ts, p, i) {
        ExtremesAgree(ts, p, i);
        assert i == k by {
          assert !(i < k) && !(k < i);
        }
      }
    }
  }

  // ---------------------------------------------------------------------
  // The mean lies between the minimum and the maximum

  /** The total of c * quantity over the trades. */
  ghost function SumConstant(ts: seq<Trade>, c: real): real {
    if ts == [] then 0.0
    else SumConstant(ts[..|ts| - 1], c) + Turnover(ts[|ts| - 1], c)
  }

  lemma Distribute(c: real, s: real, q: real)
    ensures c * (s + q) == c * s + c * q
  {
  }

  lemma {:induction false} SumConstantIsProduct(ts: seq<Trade>, c: real)
    ensures SumConstant(ts, c) == c * SumQuantity(ts)
  {
    if ts != [] {
      SumConstantIsProduct(ts[..|ts| - 1], c);
      Distribute(c, SumQuantity(ts[..|ts| - 1]), Value(ts[|ts| - 1].quantity));
    }
  }

  lemma {:induction false} WeightedBounds(ts: seq<Trade>, lo: real, hi: real)
    requires forall i :: 0 <= i < |ts| ==> lo <= Value(ts[i].price) <= hi
    ensures SumConstant(ts, lo) <= SumPriceQuantity(ts) <= SumConstant(ts, hi)
  {
    if ts != [] {
      var init, last := ts[..|ts| - 1], ts[|ts| - 1];
      WeightedBounds(init, lo, hi);
      TurnoverMonotone(last, lo, Value(last.price));
      TurnoverMonotone(last, Value(last.price), hi);
    }
  }

  lemma DivideMonotone(a: real, b: real, s: real)
    requires a <= b && s > 0.0
    ensures a / s <= b / s
  {
  }

  lemma DivideBack(c: real, s: real, w: real)
    requires s > 0.0 && w == c * s
    ensures w / s == c
  {
  }

  lemma MeanOfConstant(ts: seq<Trade>, c: real)
    requires SumQuantity(ts) > 0.0
    ensures SumConstant(ts, c) / SumQuantity(ts) == c
  {
    SumConstantIsProduct(ts, c);
    DivideBack(c, SumQuantity(ts), SumConstant(ts, c));
  }

  lemma QuotientBetween(ts: seq<Trade>, lo: real, hi: real)
    requires forall i :: 0 <= i < |ts| ==> lo <= Value(ts[i].price) <= hi
    requires SumQuantity(ts) > 0.0
    ensures lo <= SumPriceQuantity(ts) / SumQuantity(ts) <= hi
  {
    WeightedBounds(ts, lo, hi);
    MeanOfConstant(ts, lo);
    MeanOfConstant(ts, hi);
    DivideMonotone(SumConstant(ts, lo), SumPriceQuantity(ts), SumQuantity(ts));
    DivideMonotone(SumPriceQuantity(ts), SumConstant(ts, hi), SumQuantity(ts));
  }

  lemma SumOfNothing(ts: seq<Trade>)
    requires SumQuantity(ts) > 0.0
    ensures ts != []
  {
  }

  /** Before rounding, the weighted mean is between the two reported prices. */
  lemma MeanBetween(ts: seq<Trade>)
    requires SumQuantity(ts) > 0.0
    ensures Value(MinPrice(ts)) <= Mean(ts) <= Value(MaxPrice(ts))
  {
    SumOfNothing(ts);
    var i := MinPriceAt(ts);
    var j := MaxPriceAt(ts);
    QuotientBetween(ts, Value(MinPrice(ts)), Value(MaxPrice(ts)));
  }

  /** A price never reaches the exponent at which the int8 wraps. */
  lemma PriceFits(p: Price)
    ensures 0.0 <= Value(p) <= Scale(MAX_MANTISSA, 127)
  {
    ValueNonNegative(p);
    ScaleOrder(p.mantissa as real, MAX_MANTISSA, p.exponent);
    ScaleMonoExponent(MAX_MANTISSA, p.exponent, 127);
  }
}
