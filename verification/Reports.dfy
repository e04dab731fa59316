// What the records of an answer tell: the figures of each window, and of the windows together.
module Reports {
  import opened Types
  import opened Powers
  import opened Normaliser
  import opened NormaliserLaws
  import opened Ranges
  import opened Summaries
  import opened MeanBounds
  import opened Figures
  import opened Splitting
  import opened Partition
  import opened Answers

  /** The trades that the engine scans for a window. */
  ghost function TradesOf(ts: seq<Trade>, w: Window): seq<Trade>
    requires GoodStore(ts) && w.start < w.end
  {
    Scanned(ts, w.start, w.end)
  }

  /** Record i of an answer tells the figures of window i and nothing else. */
  lemma WindowFigures(ts: seq<Trade>, ws: seq<Window>, i: nat, s: Summary)
    requires GoodStore(ts) && Proper(ws) && i < |ws|
    ensures WindowSummaries(ts, ws)[i] == s <==> FiguresOf(TradesOf(ts, ws[i]), s)
    ensures Overlaps(ts, ws[i].start, ws[i].end) ==>
              TradesOf(ts, ws[i]) == Matching(ts, ws[i].start, ws[i].end)
  {
    hide FiguresOf, Summarise;
    FiguresExactly(TradesOf(ts, ws[i]), s);
    ScannedExactly(ts, ws[i].start, ws[i].end);
  }

  /** A window that meets the store and contains no trade is answered by four times 0e0. */
  lemma GapWindow(ts: seq<Trade>, ws: seq<Window>, i: nat)
    requires GoodStore(ts) && Proper(ws) && i < |ws|
    requires Overlaps(ts, ws[i].start, ws[i].end)
    requires forall k :: 0 <= k < |ts| ==> !(ws[i].start <= ts[k].createdAt < ws[i].end)
    ensures WindowSummaries(ts, ws)[i] == NO_FIGURES
  {
    hide Summarise;
    GapFigures(ts, ws[i].start, ws[i].end);
  }

  lemma ScannedFromStore(ts: seq<Trade>, s: int, e: int)
    requires GoodStore(ts) && s < e
    ensures forall j :: 0 <= j < |Scanned(ts, s, e)| ==> Scanned(ts, s, e)[j] in ts
  {
    ScanStartBeforeEnd(ts, s, e);
    forall j | 0 <= j < |Scanned(ts, s, e)|
      ensures Scanned(ts, s, e)[j] in ts
    {
      assert Scanned(ts, s, e)[j] == ts[ScanStart(ts, s) + j];
    }
  }

  lemma SomeQuantity(ts: seq<Trade>)
    ensures QuantityUnits(ts) > 0 <==> SumQuantity(ts) > 0.0
  {
    hide Pow10, SumQuantity, QuantityUnits;
    TotalIsExact(ts);
    PositiveScaled(QuantityUnits(ts), Pow10(-128));
  }

  /** The reported mean of a window with some quantity lies between its reported minimum and maximum. */
  lemma MeanFieldBetween(ts: seq<Trade>, ws: seq<Window>, i: nat)
    requires GoodStore(ts) && Proper(ws) && i < |ws|
    requires forall k :: 0 <= k < |ts| ==> ts[k].price.exponent >= -18
    requires QuantityUnits(TradesOf(ts, ws[i])) > 0
    ensures var s := WindowSummaries(ts, ws)[i];
            Value(s.minPrice) <= Value(s.mean) <= Value(s.maxPrice)
  {
    hide Value, SumQuantity, MinPrice, MaxPrice, Mean, Reported, QuantityUnits;
    ScannedFromStore(ts, ws[i].start, ws[i].end);
    SomeQuantity(TradesOf(ts, ws[i]));
    MeanBetweenForOrdinaryPrices(TradesOf(ts, ws[i]));
  }

  // ---------------------------------------------------------------------
  // The windows together

  /** The totals of the records, added up. */
  ghost function TotalOf(ss: seq<Summary>): real {
    if ss == [] then 0.0 else Value(ss[0].total) + TotalOf(ss[1..])
  }

  /** Half a unit of the exponent of each record's total, added up. */
  ghost function AllowanceOf(ss: seq<Summary>): real {
    if ss == [] then 0.0 else 0.5 * Pow10(ss[0].total.exponent) + AllowanceOf(ss[1..])
  }

  lemma {:induction false} TotalsOfScans(ts: seq<Trade>, ws: seq<Window>)
    requires GoodStore(ts) && Proper(ws)
    ensures TotalOf(WindowSummaries(ts, ws)) == ReportedTotal(Scans(ts, ws))
  {
    hide Value, Reported, SumQuantity;
    if ws != [] {
      assert WindowSummaries(ts, ws)[1..] == WindowSummaries(ts, ws[1..]);
      assert Scans(ts, ws)[1..] == Scans(ts, ws[1..]);
      TotalsOfScans(ts, ws[1..]);
    }
  }

  lemma ExponentFromFloor(x: real)
    requires x >= 0.0
    ensures Canonical(x).exponent >= -18
  {
    if x > 0.0 {
      CanonicalIsLeast(x);
    }
  }

  lemma HalfUnit(x: real)
    requires 0.0 <= x <= Scale(MAX_MANTISSA, 127)
    ensures Scale(0.5, Canonical(x).exponent) == 0.5 * Pow10(Reported(x).exponent)
  {
    hide Scale, Pow10, Canonical;
    ExponentFits(x);
    ScaleIsProduct(0.5, Canonical(x).exponent);
    ExponentFromFloor(x);
  }

  lemma {:induction false} AllowanceOfScans(ts: seq<Trade>, ws: seq<Window>)
    requires GoodStore(ts) && Proper(ws)
    requires SumQuantity(Flatten(Scans(ts, ws))) <= Scale(MAX_MANTISSA, 127)
    ensures AllowanceOf(WindowSummaries(ts, ws)) == RoundingAllowance(Scans(ts, ws))
  {
    hide Value, Canonical, Reported, Scale, Pow10, SumQuantity;
    if ws != [] {
      var ls := Scans(ts, ws);
      assert WindowSummaries(ts, ws)[1..] == WindowSummaries(ts, ws[1..]);
      assert ls[1..] == Scans(ts, ws[1..]);
      SumQuantityConcat(ls[0], Flatten(ls[1..]));
      HalfUnit(SumQuantity(ls[0]));
      AllowanceOfScans(ts, ws[1..]);
    }
  }

  /**
   * The totals that an answer reports for the windows of a range add up to the exact quantity
   * of the range's trades, within half a unit of each.
   */
  lemma TotalFieldsAddUp(ts: seq<Trade>, s: int, e: int, res: int)
    requires GoodStore(ts) && res > 0 && s < e
    requires StoreMeetsEnds(ts, Windows(s, e, res))
    requires ExactTotal(Matching(ts, s, e)) <= 4294967295.0 * Pow10(127)
    ensures Proper(Windows(s, e, res))
    ensures var ss := WindowSummaries(ts, Windows(s, e, res));
            -AllowanceOf(ss) <= TotalOf(ss) - ExactTotal(Matching(ts, s, e)) <= AllowanceOf(ss)
  {
    hide Scale, Pow10, ExactTotal, Matching, ReportedTotal, RoundingAllowance, SumQuantity;
    var ws := Windows(s, e, res);
    TotalIsExact(Matching(ts, s, e));
    ScaleIsProduct(MAX_MANTISSA, 127);
    WindowsPartitionTheRange(ts, s, e, res);
    TotalsAddUp(ts, s, e, res);
    TotalsOfScans(ts, ws);
    AllowanceOfScans(ts, ws);
  }

  /** p is the minimum reported for some window with trades, and for none a lower one is. */
  ghost predicate LeastField(ts: seq<Trade>, ws: seq<Window>, p: Price)
    requires GoodStore(ts) && Proper(ws)
  {
    && (exists i :: 0 <= i < |ws| && TradesOf(ts, ws[i]) != [] && WindowSummaries(ts, ws)[i].minPrice == p)
    && (forall i :: 0 <= i < |ws| && TradesOf(ts, ws[i]) != [] ==> !Under(WindowSummaries(ts, ws)[i].minPrice, p))
  }

  /** p is the maximum reported for some window with trades, and for none a higher one is. */
  ghost predicate GreatestField(ts: seq<Trade>, ws: seq<Window>, p: Price)
    requires GoodStore(ts) && Proper(ws)
  {
    && (exists i :: 0 <= i < |ws| && TradesOf(ts, ws[i]) != [] && WindowSummaries(ts, ws)[i].maxPrice == p)
    && (forall i :: 0 <= i < |ws| && TradesOf(ts, ws[i]) != [] ==> !Under(p, WindowSummaries(ts, ws)[i].maxPrice))
  }

  lemma LeastFieldOfScans(ts: seq<Trade>, ws: seq<Window>, p: Price)
    requires GoodStore(ts) && Proper(ws) && LeastMin(Scans(ts, ws), p)
    ensures LeastField(ts, ws, p)
  {
    hide Under, Value, MinPrice, Mean, MaxPrice, SumQuantity, Reported, Scanned;
    var ls := Scans(ts, ws);
    var i :| 0 <= i < |ls| && ls[i] != [] && MinPrice(ls[i]) == p;
    assert ls[i] == TradesOf(ts, ws[i]) && WindowSummaries(ts, ws)[i].minPrice == p;
    forall i | 0 <= i < |ws| && TradesOf(ts, ws[i]) != []
      ensures !Under(WindowSummaries(ts, ws)[i].minPrice, p)
    {
      assert ls[i] == TradesOf(ts, ws[i]);
      UnderIsLess(WindowSummaries(ts, ws)[i].minPrice, p);
    }
  }

  lemma GreatestFieldOfScans(ts: seq<Trade>, ws: seq<Window>, p: Price)
    requires GoodStore(ts) && Proper(ws) && GreatestMax(Scans(ts, ws), p)
    ensures GreatestField(ts, ws, p)
  {
    hide Under, Value, MinPrice, Mean, MaxPrice, SumQuantity, Reported, Scanned;
    var ls := Scans(ts, ws);
    var i :| 0 <= i < |ls| && ls[i] != [] && MaxPrice(ls[i]) == p;
    assert ls[i] == TradesOf(ts, ws[i]) && WindowSummaries(ts, ws)[i].maxPrice == p;
    forall i | 0 <= i < |ws| && TradesOf(ts, ws[i]) != []
      ensures !Under(p, WindowSummaries(ts, ws)[i].maxPrice)
    {
      assert ls[i] == TradesOf(ts, ws[i]);
      UnderIsLess(p, WindowSummaries(ts, ws)[i].maxPrice);
    }
  }

  /**
   * The least of the minima that an answer reports for the windows of a range is the price of the
   * range's earliest cheapest trade, and the greatest of the maxima that of its earliest dearest.
   */
  lemma ExtremeFields(ts: seq<Trade>, s: int, e: int, res: int, p: Price, k: nat)
    requires GoodStore(ts) && res > 0 && s < e
    requires StoreMeetsEnds(ts, Windows(s, e, res))
    ensures Proper(Windows(s, e, res))
    ensures EarliestMinAt(Matching(ts, s, e), p, k) ==> LeastField(ts, Windows(s, e, res), p)
    ensures EarliestMaxAt(Matching(ts, s, e), p, k) ==> GreatestField(ts, Windows(s, e, res), p)
  {
    hide Under, MinPrice, MaxPrice, LeastField, GreatestField, LeastMin, GreatestMax, Matching;
    WindowsPartitionTheRange(ts, s, e, res);
    var all := Matching(ts, s, e);
    if EarliestMinAt(all, p, k) {
      MinPriceCharacterised(all, p);
      ExtremesOfRange(ts, s, e, res);
      LeastFieldOfScans(ts, Windows(s, e, res), p);
    }
    if EarliestMaxAt(all, p, k) {
      MaxPriceCharacterised(all, p);
      ExtremesOfRange(ts, s, e, res);
      GreatestFieldOfScans(ts, Windows(s, e, res), p);
    }
  }
}
