// Which trades a time window scans: the clamped binary-search range against the
// linear filter of send_raw_data.
module Ranges {
  import opened Types

  ghost predicate SortedByTime(ts: seq<Trade>) {
    forall i, j :: 0 <= i < j < |ts| ==> ts[i].createdAt <= ts[j].createdAt
  }

  /** The number of leading trades before time t. */
  ghost function LowerBound(ts: seq<Trade>, t: int): (n: nat)
    ensures n <= |ts|
  {
    if ts == [] || ts[0].createdAt >= t then 0 else 1 + LowerBound(ts[1..], t)
  }

  /** On a sorted store, n is where the trades from t on begin. */
  ghost predicate Splits(ts: seq<Trade>, t: int, n: nat) {
    && n <= |ts|
    && (forall i :: 0 <= i < n ==> ts[i].createdAt < t)
    && (forall i :: n <= i < |ts| ==> ts[i].createdAt >= t)
  }

  lemma {:induction false} LowerBoundSplits(ts: seq<Trade>, t: int)
    requires SortedByTime(ts)
    ensures Splits(ts, t, LowerBound(ts, t))
  {
    if ts != [] && ts[0].createdAt < t {
      LowerBoundSplits(ts[1..], t);
      assert forall i :: 1 <= i < |ts| ==> ts[i] == ts[1..][i - 1];
    }
  }

  lemma LowerBoundMonotone(ts: seq<Trade>, s: int, e: int)
    requires SortedByTime(ts) && s <= e
    ensures LowerBound(ts, s) <= LowerBound(ts, e)
  {
    LowerBoundSplits(ts, s);
    LowerBoundSplits(ts, e);
  }

  // The first search stops at the last trade even when every trade is earlier.
  ghost function ScanStart(ts: seq<Trade>, s: int): (n: nat)
    requires ts != []
    ensures n < |ts|
  {
    if LowerBound(ts, s) == |ts| then |ts| - 1 else LowerBound(ts, s)
  }

  // end_idx + 1; when the second search stops at index 0 the end index stays 0.
  ghost function ScanEnd(ts: seq<Trade>, e: int): (n: nat)
    requires ts != []
    ensures 1 <= n <= |ts|
  {
    if LowerBound(ts, e) == 0 then 1 else LowerBound(ts, e)
  }

  lemma ScanStartBeforeEnd(ts: seq<Trade>, s: int, e: int)
    requires ts != [] && SortedByTime(ts) && s < e
    ensures ScanStart(ts, s) <= ScanEnd(ts, e)
  {
    LowerBoundMonotone(ts, s, e);
  }

  /** The trades the engine visits for the window [s, e). */
  ghost function Scanned(ts: seq<Trade>, s: int, e: int): (r: seq<Trade>)
    requires ts != [] && SortedByTime(ts) && s < e
  {
    ScanStartBeforeEnd(ts, s, e);
    ts[ScanStart(ts, s)..ScanEnd(ts, e)]
  }

  /** The linear filter spelled out by send_raw_data. */
  ghost function Matching(ts: seq<Trade>, s: int, e: int): (r: seq<Trade>) {
    if ts == [] then []
    else
      var last := ts[|ts| - 1];
      Matching(ts[..|ts| - 1], s, e) + (if s <= last.createdAt < e then [last] else [])
  }

  lemma {:induction false} MatchingConcat(a: seq<Trade>, b: seq<Trade>, s: int, e: int)
    ensures Matching(a + b, s, e) == Matching(a, s, e) + Matching(b, s, e)
  {
    if b == [] {
      assert a + b == a;
    } else {
      var n := |b| - 1;
      MatchingConcat(a, b[..n], s, e);
      assert (a + b)[..|a + b| - 1] == a + b[..n];
    }
  }

  lemma {:induction false} MatchingAll(a: seq<Trade>, s: int, e: int)
    requires forall i :: 0 <= i < |a| ==> s <= a[i].createdAt < e
    ensures Matching(a, s, e) == a
  {
    if a != [] {
      MatchingAll(a[..|a| - 1], s, e);
      assert a == a[..|a| - 1] + [a[|a| - 1]];
    }
  }

  lemma {:induction false} MatchingNone(a: seq<Trade>, s: int, e: int)
    requires forall i :: 0 <= i < |a| ==> !(s <= a[i].createdAt < e)
    ensures Matching(a, s, e) == []
  {
    if a != [] {
      MatchingNone(a[..|a| - 1], s, e);
    }
  }

  lemma MatchingInside(before: seq<Trade>, within: seq<Trade>, after: seq<Trade>, s: int, e: int)
    requires forall i :: 0 <= i < |before| ==> before[i].createdAt < s
    requires forall i :: 0 <= i < |within| ==> s <= within[i].createdAt < e
    requires forall i :: 0 <= i < |after| ==> after[i].createdAt >= e
    ensures Matching(before + within + after, s, e) == within
  {
    MatchingConcat(before + within, after, s, e);
    MatchingConcat(before, within, s, e);
    MatchingNone(before, s, e);
    MatchingAll(within, s, e);
    MatchingNone(after, s, e);
    assert [] + within + [] == within;
  }

  /** On a sorted store the filter is the slice between the two bounds. */
  lemma MatchingIsSlice(ts: seq<Trade>, s: int, e: int)
    requires SortedByTime(ts) && s <= e
    ensures LowerBound(ts, s) <= LowerBound(ts, e)
    ensures Matching(ts, s, e) == ts[LowerBound(ts, s)..LowerBound(ts, e)]
  {
    LowerBoundMonotone(ts, s, e);
    LowerBoundSplits(ts, s);
    LowerBoundSplits(ts, e);
    var m, n := LowerBound(ts, s), LowerBound(ts, e);
    assert ts == ts[..m] + ts[m..n] + ts[n..];
    MatchingInside(ts[..m], ts[m..n], ts[n..], s, e);
  }

  /** The window meets the store: the last trade is not before it, the first not after it. */
  ghost predicate Overlaps(ts: seq<Trade>, s: int, e: int)
    requires ts != []
  {
    ts[|ts| - 1].createdAt >= s && ts[0].createdAt < e
  }

  /**
   * What one window scans, in every case: the trades in the window when it overlaps the
   * store, and otherwise exactly one trade outside the window, the last or the first.
   */
  lemma ScannedExactly(ts: seq<Trade>, s: int, e: int)
    requires ts != [] && SortedByTime(ts) && s < e
    ensures Overlaps(ts, s, e) ==> Scanned(ts, s, e) == Matching(ts, s, e)
    ensures ts[|ts| - 1].createdAt < s ==>
              Matching(ts, s, e) == [] && Scanned(ts, s, e) == [ts[|ts| - 1]]
    ensures ts[0].createdAt >= e ==>
              Matching(ts, s, e) == [] && Scanned(ts, s, e) == [ts[0]]
  {
    MatchingIsSlice(ts, s, e);
    LowerBoundSplits(ts, s);
    LowerBoundSplits(ts, e);
    ScanStartBeforeEnd(ts, s, e);
  }

  /** The index search agrees with the filter exactly on the windows that overlap the store. */
  lemma ScannedIsMatchingIff(ts: seq<Trade>, s: int, e: int)
    requires ts != [] && SortedByTime(ts) && s < e
    ensures Scanned(ts, s, e) == Matching(ts, s, e) <==> Overlaps(ts, s, e)
    ensures |Scanned(ts, s, e)| == |Matching(ts, s, e)| + (if Overlaps(ts, s, e) then 0 else 1)
  {
    ScannedExactly(ts, s, e);
  }

  lemma SlicesJoin(ts: seq<Trade>, i: nat, j: nat, k: nat)
    requires i <= j <= k <= |ts|
    ensures ts[i..k] == ts[i..j] + ts[j..k]
  {
  }

  /** Adjacent ranges filter to adjacent pieces. */
  lemma MatchingAdjacent(ts: seq<Trade>, s: int, m: int, e: int)
    requires SortedByTime(ts) && s <= m <= e
    ensures Matching(ts, s, e) == Matching(ts, s, m) + Matching(ts, m, e)
  {
    MatchingIsSlice(ts, s, m);
    MatchingIsSlice(ts, m, e);
    MatchingIsSlice(ts, s, e);
    SlicesJoin(ts, LowerBound(ts, s), LowerBound(ts, m), LowerBound(ts, e));
  }
}
