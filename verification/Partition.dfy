// All the windows of a query together against the query's whole range.
module Partition {
  import opened Types
  import opened Powers
  import opened Normaliser
  import opened NormaliserLaws
  import opened Ranges
  import opened Summaries
  import opened Splitting

  /** Windows that the scans accept: each ends after it starts. */
  ghost predicate Proper(ws: seq<Window>) {
    forall i :: 0 <= i < |ws| ==> ws[i].start < ws[i].end
  }

  /** The trades visited for each window. */
  ghost function Scans(ts: seq<Trade>, ws: seq<Window>): (r: seq<seq<Trade>>)
    requires ts != [] && SortedByTime(ts) && Proper(ws)
    ensures |r| == |ws|
    ensures forall i :: 0 <= i < |ws| ==> r[i] == Scanned(ts, ws[i].start, ws[i].end)
  {
    if ws == [] then []
    else [Scanned(ts, ws[0].start, ws[0].end)] + Scans(ts, ws[1..])
  }

  ghost function Flatten(ls: seq<seq<Trade>>): seq<Trade> {
    if ls == [] then [] else ls[0] + Flatten(ls[1..])
  }

  /** The trades visited for all the windows, in order. */
  ghost function ScannedAll(ts: seq<Trade>, ws: seq<Window>): seq<Trade>
    requires ts != [] && SortedByTime(ts) && Proper(ws)
  {
    Flatten(Scans(ts, ws))
  }

  ghost function Misses(ts: seq<Trade>, ws: seq<Window>): nat
    requires ts != []
  {
    if ws == [] then 0
    else (if Overlaps(ts, ws[0].start, ws[0].end) then 0 else 1) + Misses(ts, ws[1..])
  }

  lemma {:induction false} ChainIsProper(ws: seq<Window>, s: int, e: int)
    requires Chain(ws, s, e)
    ensures Proper(ws) && s <= e
    ensures forall i :: 0 <= i < |ws| ==> s <= ws[i].start && ws[i].end <= e
    ensures ws != [] ==> ws[|ws| - 1].end == e
    ensures forall i, j :: 0 <= i <= j < |ws| ==> ws[i].start <= ws[j].start && ws[i].end <= ws[j].end
  {
    if ws != [] {
      ChainIsProper(ws[1..], ws[0].end, e);
      assert forall i :: 1 <= i < |ws| ==> ws[i] == ws[1..][i - 1];
    }
  }

  /** Windows that miss the store each add one stray trade; the others add exactly theirs. */
  lemma {:induction false} ScannedAllAgainstMatching(ts: seq<Trade>, ws: seq<Window>, s: int, e: int)
    requires ts != [] && SortedByTime(ts) && Chain(ws, s, e)
    ensures Proper(ws) && s <= e
    ensures |ScannedAll(ts, ws)| == |Matching(ts, s, e)| + Misses(ts, ws)
    ensures Misses(ts, ws) == 0 ==> ScannedAll(ts, ws) == Matching(ts, s, e)
  {
    ChainIsProper(ws, s, e);
    if ws == [] {
      MatchingIsSlice(ts, s, e);
    } else {
      ScannedAllAgainstMatching(ts, ws[1..], ws[0].end, e);
      assert Scans(ts, ws)[1..] == Scans(ts, ws[1..]);
      ScannedIsMatchingIff(ts, s, ws[0].end);
      MatchingAdjacent(ts, s, ws[0].end, e);
    }
  }

  lemma {:induction false} NoMisses(ts: seq<Trade>, ws: seq<Window>)
    requires ts != []
    ensures Misses(ts, ws) == 0 <==> forall i :: 0 <= i < |ws| ==> Overlaps(ts, ws[i].start, ws[i].end)
  {
    if ws != [] {
      NoMisses(ts, ws[1..]);
      assert forall i :: 1 <= i < |ws| ==> ws[i] == ws[1..][i - 1];
    }
  }

  /** The first trade precedes the end of the first window, the last is not before the last one. */
  ghost predicate StoreMeetsEnds(ts: seq<Trade>, ws: seq<Window>)
    requires ts != []
  {
    ws != [] && ts[0].createdAt < ws[0].end && ts[|ts| - 1].createdAt >= ws[|ws| - 1].start
  }

  lemma EndsDecideOverlaps(ts: seq<Trade>, ws: seq<Window>, s: int, e: int)
    requires ts != [] && SortedByTime(ts) && Chain(ws, s, e) && ws != []
    ensures StoreMeetsEnds(ts, ws) <==> forall i :: 0 <= i < |ws| ==> Overlaps(ts, ws[i].start, ws[i].end)
  {
    ChainIsProper(ws, s, e);
    var n := |ws| - 1;
    if forall i :: 0 <= i < |ws| ==> Overlaps(ts, ws[i].start, ws[i].end) {
      assert Overlaps(ts, ws[0].start, ws[0].end);
      assert Overlaps(ts, ws[n].start, ws[n].end);
    }
  }

  /**
   * No trade lost, duplicated or reordered: the windows' scans joined together are the
   * linear filter of the whole range, exactly when the store meets both end windows.
   */
  lemma WindowsPartitionTheRange(ts: seq<Trade>, s: int, e: int, res: int)
    requires ts != [] && SortedByTime(ts) && res > 0 && s < e
    ensures Windows(s, e, res) != [] && Proper(Windows(s, e, res))
    ensures ScannedAll(ts, Windows(s, e, res)) == Matching(ts, s, e)
       <==> StoreMeetsEnds(ts, Windows(s, e, res))
  {
    var ws := Windows(s, e, res);
    WindowsFormChain(s, e, res);
    ChainIsProper(ws, s, e);
    ScannedAllAgainstMatching(ts, ws, s, e);
    NoMisses(ts, ws);
    EndsDecideOverlaps(ts, ws, s, e);
  }

  // ---------------------------------------------------------------------
  // Totals over the windows

  lemma {:induction false} SumQuantityConcat(a: seq<Trade>, b: seq<Trade>)
    ensures SumQuantity(a + b) == SumQuantity(a) + SumQuantity(b)
  {
    if b == [] {
      assert a + b == a;
    } else {
      SumQuantityConcat(a, b[..|b| - 1]);
      assert (a + b)[..|a + b| - 1] == a + b[..|b| - 1];
    }
  }

  /** The quantities the engine reports for the windows, added up. */
  ghost function ReportedTotal(ls: seq<seq<Trade>>): real {
    if ls == [] then 0.0
    else Value(Reported(SumQuantity(ls[0]))) + ReportedTotal(ls[1..])
  }

  /** Half a unit of each window's final exponent, added up. */
  ghost function RoundingAllowance(ls: seq<seq<Trade>>): real {
    if ls == [] then 0.0
    else Scale(0.5, Canonical(SumQuantity(ls[0])).exponent) + RoundingAllowance(ls[1..])
  }

  ghost predicate WithinAllowance(ls: seq<seq<Trade>>, total: real) {
    -RoundingAllowance(ls) <= ReportedTotal(ls) - total <= RoundingAllowance(ls)
  }

  lemma {:induction false} ReportedTotalNearScanned(ls: seq<seq<Trade>>)
    requires SumQuantity(Flatten(ls)) <= Scale(MAX_MANTISSA, 127)
    ensures WithinAllowance(ls, SumQuantity(Flatten(ls)))
  {
    if ls != [] {
      SumQuantityConcat(ls[0], Flatten(ls[1..]));
      ReportedTotalNearScanned(ls[1..]);
      ExponentFits(SumQuantity(ls[0]));
      RoundingError(SumQuantity(ls[0]));
    }
  }

  /** The windows' reported quantities add up to the range's exact total, within the rounding. */
  lemma TotalsAddUp(ts: seq<Trade>, s: int, e: int, res: int)
    requires ts != [] && SortedByTime(ts) && res > 0 && s < e
    requires StoreMeetsEnds(ts, Windows(s, e, res))
    requires SumQuantity(Matching(ts, s, e)) <= Scale(MAX_MANTISSA, 127)
    ensures Proper(Windows(s, e, res))
    ensures WithinAllowance(Scans(ts, Windows(s, e, res)), SumQuantity(Matching(ts, s, e)))
  {
    WindowsPartitionTheRange(ts, s, e, res);
    ReportedTotalNearScanned(Scans(ts, Windows(s, e, res)));
  }

  // ---------------------------------------------------------------------
  // Extremes over the windows

  lemma {:induction false} MinPriceConcat(a: seq<Trade>, b: seq<Trade>)
    requires a != [] && b != []
    ensures MinPrice(a + b) ==
              if Value(MinPrice(b)) < Value(MinPrice(a)) then MinPrice(b) else MinPrice(a)
  {
    assert (a + b)[..|a + b| - 1] == a + b[..|b| - 1];
    if |b| == 1 {
      assert a + b[..0] == a;
    } else {
      MinPriceConcat(a, b[..|b| - 1]);
    }
  }

  lemma {:induction false} MaxPriceConcat(a: seq<Trade>, b: seq<Trade>)
    requires a != [] && b != []
    ensures MaxPrice(a + b) ==
              if Value(MaxPrice(b)) > Value(MaxPrice(a)) then MaxPrice(b) else MaxPrice(a)
  {
    assert (a + b)[..|a + b| - 1] == a + b[..|b| - 1];
    if |b| == 1 {
      assert a + b[..0] == a;
    } else {
      MaxPriceConcat(a, b[..|b| - 1]);
    }
  }

  /** p is the minimum of some window that scanned trades, and no such window has a lower one. */
  ghost predicate LeastMin(ls: seq<seq<Trade>>, p: Price) {
    && (exists i :: 0 <= i < |ls| && ls[i] != [] && MinPrice(ls[i]) == p)
    && (forall i :: 0 <= i < |ls| && ls[i] != [] ==> Value(p) <= Value(MinPrice(ls[i])))
  }

  ghost predicate GreatestMax(ls: seq<seq<Trade>>, p: Price) {
    && (exists i :: 0 <= i < |ls| && ls[i] != [] && MaxPrice(ls[i]) == p)
    && (forall i :: 0 <= i < |ls| && ls[i] != [] ==> Value(p) >= Value(MaxPrice(ls[i])))
  }

  lemma {:induction false} NothingFlat(ls: seq<seq<Trade>>)
    requires Flatten(ls) == []
    ensures forall i :: 0 <= i < |ls| ==> ls[i] == []
  {
    if ls != [] {
      NothingFlat(ls[1..]);
      assert forall i :: 1 <= i < |ls| ==> ls[i] == ls[1..][i - 1];
    }
  }

  lemma {:induction false} LeastMinStep(ls: seq<seq<Trade>>, rest: seq<Trade>)
    requires ls != [] && rest != [] && LeastMin(ls[1..], MinPrice(rest))
    ensures LeastMin(ls, MinPrice(ls[0] + rest))
  {
    var tail := ls[1..];
    assert forall i :: 1 <= i < |ls| ==> ls[i] == tail[i - 1];
    var k :| 0 <= k < |tail| && tail[k] != [] && MinPrice(tail[k]) == MinPrice(rest);
    assert ls[k + 1] == tail[k];
    if ls[0] == [] {
      assert ls[0] + rest == rest;
    } else {
      MinPriceConcat(ls[0], rest);
    }
  }

  lemma {:induction false} LeastMinOfAll(ls: seq<seq<Trade>>)
    requires Flatten(ls) != []
    ensures LeastMin(ls, MinPrice(Flatten(ls)))
  {
    var rest := Flatten(ls[1..]);
    if rest == [] {
      assert ls[0] + rest == ls[0];
      NothingFlat(ls[1..]);
      assert forall i :: 1 <= i < |ls| ==> ls[i] == ls[1..][i - 1];
    } else {
      LeastMinOfAll(ls[1..]);
      LeastMinStep(ls, rest);
    }
  }

  lemma {:induction false} GreatestMaxStep(ls: seq<seq<Trade>>, rest: seq<Trade>)
    requires ls != [] && rest != [] && GreatestMax(ls[1..], MaxPrice(rest))
    ensures GreatestMax(ls, MaxPrice(ls[0] + rest))
  {
    var tail := ls[1..];
    assert forall i :: 1 <= i < |ls| ==> ls[i] == tail[i - 1];
    var k :| 0 <= k < |tail| && tail[k] != [] && MaxPrice(tail[k]) == MaxPrice(rest);
    assert ls[k + 1] == tail[k];
    if ls[0] == [] {
      assert ls[0] + rest == rest;
    } else {
      MaxPriceConcat(ls[0], rest);
    }
  }

  lemma {:induction false} GreatestMaxOfAll(ls: seq<seq<Trade>>)
    requires Flatten(ls) != []
    ensures GreatestMax(ls, MaxPrice(Flatten(ls)))
  {
    var rest := Flatten(ls[1..]);
    if rest == [] {
      assert ls[0] + rest == ls[0];
      NothingFlat(ls[1..]);
      assert forall i :: 1 <= i < |ls| ==> ls[i] == ls[1..][i - 1];
    } else {
      GreatestMaxOfAll(ls[1..]);
      GreatestMaxStep(ls, rest);
    }
  }

  /** The least window minimum and greatest window maximum are those of the whole range. */
  lemma ExtremesOfRange(ts: seq<Trade>, s: int, e: int, res: int)
    requires ts != [] && SortedByTime(ts) && res > 0 && s < e
    requires StoreMeetsEnds(ts, Windows(s, e, res)) && Matching(ts, s, e) != []
    ensures Proper(Windows(s, e, res))
    ensures LeastMin(Scans(ts, Windows(s, e, res)), MinPrice(Matching(ts, s, e)))
    ensures GreatestMax(Scans(ts, Windows(s, e, res)), MaxPrice(Matching(ts, s, e)))
  {
    WindowsPartitionTheRange(ts, s, e, res);
    LeastMinOfAll(Scans(ts, Windows(s, e, res)));
    GreatestMaxOfAll(Scans(ts, Windows(s, e, res)));
  }
}
