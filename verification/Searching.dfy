// The two binary searches of every metric, with any record count from the right one up: when
// they read past the end of the file, which throws, and what they find when they do not.
module Searching {
  import opened Types
  import opened Ranges

  /** sizeof(TradeData): 31 bytes of fields, padded under pack(2). */
  const RECORD_BYTES: int := 32

  /** What the constructor takes for the number of records: the file length over 31. */
  function RecordCount(records: nat): nat {
    records * RECORD_BYTES / 31
  }

  /** That is the greatest n for which n times 31 bytes fit into the file. */
  lemma RecordCountIsGreatest(records: nat, n: nat)
    ensures n <= RecordCount(records) <==> 31 * n <= 32 * records
  {
  }

  /** The halving loop; None when it reads past the end of the file. */
  ghost function SearchFrom(file: seq<Trade>, t: int, lo: nat, hi: nat): Option<nat>
    decreases hi - lo
  {
    if lo >= hi then Some(hi)
    else
      var mid := lo + (hi - lo) / 2;
      if mid >= |file| then None
      else if file[mid].createdAt < t then SearchFrom(file, t, mid + 1, hi)
      else SearchFrom(file, t, lo, mid)
  }

  /** count - 1 in uint64_t. */
  function LastIndex(count: Uint64): Uint64 {
    (count + UINT64_LIMIT - 1) % UINT64_LIMIT
  }

  /** The two searches: the first and last index to scan. */
  ghost function RangeSearch(file: seq<Trade>, count: Uint64, s: int, e: int): Option<(nat, nat)> {
    var start := SearchFrom(file, s, 0, LastIndex(count));
    if start.None? then None
    else
      var right := SearchFrom(file, e, start.value, count);
      if right.None? then None
      else Some((start.value, if right.value == 0 then 0 else right.value - 1))
  }

  /** Halving lo..hi towards bound, the search comes to an index at or past n. */
  predicate RunsPast(bound: nat, n: nat, lo: nat, hi: nat)
    decreases hi - lo
  {
    lo < hi
    && var mid := lo + (hi - lo) / 2;
       mid >= n || (mid < bound && RunsPast(bound, n, mid + 1, hi))
  }

  /**
   * When the searches for a range throw, in terms of numbers only: the size of the file, the
   * record count, and how many trades are before the start and before the end of the range.
   */
  ghost predicate SearchThrows(file: seq<Trade>, count: Uint64, s: int, e: int) {
    || RunsPast(LowerBound(file, s), |file|, 0, LastIndex(count))
    || RunsPast(LowerBound(file, e), |file|, LowerBound(file, s), count)
  }

  lemma {:induction false} StaysInside(bound: nat, n: nat, lo: nat, hi: nat)
    requires hi <= n
    ensures !RunsPast(bound, n, lo, hi)
    decreases hi - lo
  {
    if lo < hi {
      StaysInside(bound, n, lo + (hi - lo) / 2 + 1, hi);
    }
  }

  /** A search throws exactly if it runs past the end, and else finds the bound, cut at hi. */
  lemma {:induction false} SearchExactly(file: seq<Trade>, t: int, lo: nat, hi: nat)
    requires SortedByTime(file) && lo <= hi && lo <= LowerBound(file, t)
    ensures SearchFrom(file, t, lo, hi) ==
              if RunsPast(LowerBound(file, t), |file|, lo, hi) then None
              else Some(if LowerBound(file, t) < hi then LowerBound(file, t) else hi)
    decreases hi - lo
  {
    LowerBoundSplits(file, t);
    if lo < hi {
      var mid := lo + (hi - lo) / 2;
      if mid < |file| {
        if file[mid].createdAt < t {
          SearchExactly(file, t, mid + 1, hi);
        } else {
          SearchExactly(file, t, lo, mid);
          StaysInside(LowerBound(file, t), |file|, lo, mid);
        }
      }
    }
  }

  /** A search with the bound at the end of the file and more to go runs past it. */
  lemma {:induction false} LastBoundRunsPast(n: nat, lo: nat, hi: nat)
    requires lo <= n < hi
    ensures RunsPast(n, n, lo, hi)
    decreases hi - lo
  {
    var mid := lo + (hi - lo) / 2;
    if mid < n {
      LastBoundRunsPast(n, mid + 1, hi);
    }
  }

  lemma FirstSearch(file: seq<Trade>, count: Uint64, s: int)
    requires SortedByTime(file) && |file| <= count
    ensures var first := SearchFrom(file, s, 0, LastIndex(count));
            if RunsPast(LowerBound(file, s), |file|, 0, LastIndex(count)) then first == None
            else
              && count > 0
              && first == Some(if LowerBound(file, s) < count - 1 then LowerBound(file, s) else count - 1)
  {
    SearchExactly(file, s, 0, LastIndex(count));
    assert count > 0 ==> LastIndex(count) == count - 1;
  }

  /** The second search, from where the first one ended. */
  lemma SecondSearch(file: seq<Trade>, count: Uint64, s: int, e: int, start: nat)
    requires SortedByTime(file) && |file| <= count && count > 0 && s < e
    requires start == if LowerBound(file, s) < count - 1 then LowerBound(file, s) else count - 1
    ensures var second := SearchFrom(file, e, start, count);
            if RunsPast(LowerBound(file, e), |file|, LowerBound(file, s), count) then second == None
            else second == Some(LowerBound(file, e)) && file != [] && start == ScanStart(file, s)
  {
    hide RunsPast, SearchFrom, LowerBound, SortedByTime;
    LowerBoundMonotone(file, s, e);
    var l, m, n := LowerBound(file, s), LowerBound(file, e), |file|;
    SearchExactly(file, e, start, count);
    if count == n {
      StaysInside(m, n, start, n);
      StaysInside(m, n, l, n);
    } else if l == n {
      LastBoundRunsPast(n, l, count);
    }
  }

  /**
   * Every range, every count that is not too low: the searches throw exactly under
   * SearchThrows, and otherwise find the range to scan, as with the right count.
   */
  lemma ThrowsExactly(file: seq<Trade>, count: Uint64, s: int, e: int)
    requires SortedByTime(file) && |file| <= count && s < e
    ensures RangeSearch(file, count, s, e) == None <==> SearchThrows(file, count, s, e)
    ensures RangeSearch(file, count, s, e).Some? ==>
              file != [] && RangeSearch(file, count, s, e) == Some((ScanStart(file, s), ScanEnd(file, e) - 1))
  {
    hide RunsPast, SearchFrom, LowerBound, LastIndex, SortedByTime;
    FirstSearch(file, count, s);
    var first := SearchFrom(file, s, 0, LastIndex(count));
    if first.Some? {
      SecondSearch(file, count, s, e, first.value);
    }
  }

  /** With the right count nothing throws. */
  lemma RightCountNeverThrows(file: seq<Trade>, s: int, e: int)
    requires 0 < |file| < UINT64_LIMIT
    ensures !SearchThrows(file, |file|, s, e)
  {
    StaysInside(LowerBound(file, s), |file|, 0, |file| - 1);
    StaysInside(LowerBound(file, e), |file|, LowerBound(file, s), |file|);
  }

  lemma {:induction false} HigherBoundRunsPast(l: nat, m: nat, n: nat, lo: nat, hi: nat)
    requires l <= m && RunsPast(l, n, lo, hi)
    ensures RunsPast(m, n, lo, hi)
    decreases hi - lo
  {
    var mid := lo + (hi - lo) / 2;
    if mid < n {
      HigherBoundRunsPast(l, m, n, mid + 1, hi);
    }
  }

  /** When a range throws, so does every range from the same start that ends later. */
  lemma LaterEndsThrow(file: seq<Trade>, count: Uint64, s: int, e: int, later: int)
    requires SortedByTime(file) && e <= later && SearchThrows(file, count, s, e)
    ensures SearchThrows(file, count, s, later)
  {
    LowerBoundMonotone(file, e, later);
    if RunsPast(LowerBound(file, e), |file|, LowerBound(file, s), count) {
      HigherBoundRunsPast(LowerBound(file, e), LowerBound(file, later), |file|, LowerBound(file, s), count);
    }
  }

  lemma AllBefore(file: seq<Trade>, e: int)
    requires forall i :: 0 <= i < |file| ==> file[i].createdAt < e
    ensures LowerBound(file, e) == |file|
  {
    if file != [] {
      assert forall i :: 0 <= i < |file[1..]| ==> file[1..][i] == file[i + 1];
      AllBefore(file[1..], e);
    }
  }

  /** With too high a count, a range that ends after the last trade throws. */
  lemma OvercountThrows(file: seq<Trade>, count: Uint64, s: int, e: int)
    requires SortedByTime(file) && count > |file| && s < e
    requires forall i :: 0 <= i < |file| ==> file[i].createdAt < e
    ensures SearchThrows(file, count, s, e)
  {
    AllBefore(file, e);
    LowerBoundMonotone(file, s, e);
    LastBoundRunsPast(|file|, LowerBound(file, s), count);
  }

  /**
   * With the count of the constructor, a range that ends after the last trade throws exactly
   * if the file is empty or has more than 30 records.
   */
  lemma LastRangeThrowsExactly(file: seq<Trade>, s: int, e: int)
    requires |file| * RECORD_BYTES < UINT64_LIMIT && SortedByTime(file) && s < e
    requires forall i :: 0 <= i < |file| ==> file[i].createdAt < e
    ensures SearchThrows(file, RecordCount(|file|), s, e) <==> |file| == 0 || |file| > 30
  {
    if |file| > 30 {
      OvercountThrows(file, RecordCount(|file|), s, e);
    } else if |file| > 0 {
      assert RecordCount(|file|) == |file|;
      RightCountNeverThrows(file, s, e);
    }
  }

  /**
   * Ranges that end among the last trades throw too. In a file of 1000 records a range that
   * starts at or before the first trade throws exactly if at least 969 trades are before its end.
   */
  lemma ThousandRecords(file: seq<Trade>, s: int, e: int)
    requires SortedByTime(file) && |file| == 1000 && s < e && LowerBound(file, s) == 0
    ensures SearchThrows(file, RecordCount(1000), s, e) <==> LowerBound(file, e) >= 969
  {
    var m := LowerBound(file, e);
    assert RecordCount(1000) == 1032;
    assert !RunsPast(0, 1000, 0, 1031);
    assert RunsPast(969, 1000, 0, 1032) && !RunsPast(968, 1000, 0, 1032);
    if m >= 969 {
      HigherBoundRunsPast(969, m, 1000, 0, 1032);
    } else if RunsPast(m, 1000, 0, 1032) {
      HigherBoundRunsPast(m, 968, 1000, 0, 1032);
    }
  }
}
