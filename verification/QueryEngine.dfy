// The Query_engine class: searches, scans and the aggregator, as the loops run them.
module Engine {
  import opened Types
  import opened Powers
  import opened Normaliser
  import opened Ranges
  import opened Searching
  import opened Summaries
  import opened Splitting
  import opened Codec
  import opened Answers

  /** The number of binary digits of n. */
  function BitLength(n: nat): nat {
    if n == 0 then 0 else 1 + BitLength(n / 2)
  }

  /** The least k with n < 2^k. */
  lemma {:induction false} BitLengthIsLeast(n: nat, k: nat)
    ensures BitLength(n) <= k <==> n < Pow2(k)
    decreases k
  {
    if n > 0 && k > 0 {
      BitLengthIsLeast(n / 2, k - 1);
    }
  }

  lemma {:induction false} BitLengthMonotone(m: nat, n: nat)
    requires m <= n
    ensures BitLength(m) <= BitLength(n)
  {
    if m > 0 {
      BitLengthMonotone(m / 2, n / 2);
    }
  }

  class QueryEngine {
    // The records in the data file.
    const file: seq<Trade>
    var tradesSize: Uint64
    // How many records have been read so far.
    ghost var readCount: nat

    /** The record count is not too low. */
    ghost predicate Valid()
      reads this
    {
      GoodStore(file) && |file| <= tradesSize
    }

    /**
     * The record count is the file length over 31, although a record takes 32 bytes: it is
     * never too low, and right up to 30 records.
     */
    constructor (records: seq<Trade>)
      requires |records| * RECORD_BYTES < UINT64_LIMIT
      ensures file == records && tradesSize == RecordCount(|records|) && readCount == 0
      ensures Valid() <==> GoodStore(records)
      ensures tradesSize == |records| <==> |records| <= 30
    {
      file := records;
      tradesSize := RecordCount(|records|);
      readCount := 0;
    }

    /** None stands for the exception thrown on a failed read. */
    method ReadTradeData(ind: Uint64) returns (r: Option<Trade>)
      modifies this`readCount
      ensures r == if ind < |file| then Some(file[ind]) else None
      ensures readCount == old(readCount) + 1
    {
      readCount := readCount + 1;
      r := if ind < |file| then Some(file[ind]) else None;
    }

    /** The halving loop shared by both searches of every metric; None when a read throws. */
    method Search(t: Uint64, lo: Uint64, hi: Uint64) returns (idx: Option<Uint64>)
      modifies this`readCount
      ensures idx == SearchFrom(file, t, lo, hi)
      ensures readCount <= old(readCount) + (if lo < hi then BitLength(hi - lo) else 0)
    {
      var left, right := lo, hi;
      while left < right
        invariant SearchFrom(file, t, left, right) == SearchFrom(file, t, lo, hi)
        invariant readCount + (if left < right then BitLength(right - left) else 0)
               <= old(readCount) + (if lo < hi then BitLength(hi - lo) else 0)
        decreases if left < right then right - left else 0
      {
        ghost var width := right - left;
        var mid := left + (right - left) / 2;
        var r := ReadTradeData(mid);
        if r.None? {
          return None;
        }
        if r.value.createdAt < t {
          left := mid + 1;
        } else {
          right := mid;
        }
        BitLengthMonotone(if left < right then right - left else 0, width / 2);
      }
      idx := Some(right);
    }

    /** What the searches for a range and the scan of it can read at most. */
    ghost function ReadBound(startTime: Uint64, endTime: Uint64): nat
      requires Valid() && startTime < endTime
      reads this
    {
      BitLength(LastIndex(tradesSize)) + BitLength(tradesSize) + |Scanned(file, startTime, endTime)|
    }

    /** Steps 1 and 2 of every metric: the index range to scan. */
    method FindRange(startTime: Uint64, endTime: Uint64) returns (range: Option<(Uint64, Uint64)>)
      requires startTime < endTime
      modifies this`readCount
      ensures range == RangeSearch(file, tradesSize, startTime, endTime)
      ensures Valid() ==>
                range == if SearchThrows(file, tradesSize, startTime, endTime) then None
                         else Some((ScanStart(file, startTime), ScanEnd(file, endTime) - 1))
      ensures readCount <= old(readCount) + BitLength(LastIndex(tradesSize)) + BitLength(tradesSize)
    {
      hide SearchFrom, BitLength, ScanStart, ScanEnd, LastIndex, SearchThrows, SortedByTime;
      if Valid() {
        ThrowsExactly(file, tradesSize, startTime, endTime);
      }
      var start := Search(startTime, 0, LastIndex(tradesSize));
      if start.None? {
        return None;
      }
      var right := Search(endTime, start.value, tradesSize);
      BitLengthMonotone(if start.value < tradesSize then tradesSize - start.value else 0, tradesSize);
      if right.None? {
        return None;
      }
      range := Some((start.value, if right.value == 0 then 0 else right.value - 1));
    }

    /** The linear scan of the records first..last for the cheapest and dearest trade. */
    method ScanPrices(first: Uint64, last: Uint64) returns (minP: Price, maxP: Price)
      requires first <= last + 1 <= |file|
      modifies this`readCount
      ensures minP == MinPrice(file[first..last + 1]) && maxP == MaxPrice(file[first..last + 1])
      ensures readCount == old(readCount) + (last + 1 - first)
    {
      ghost var scanned := file[first..last + 1];
      var isFirst := true;
      var minVal, maxVal := 0.0, 0.0;
      minP, maxP := Decimal(0, 0), Decimal(0, 0);
      var i: int := first;
      while i <= last
        invariant first <= i <= last + 1
        invariant readCount == old(readCount) + (i - first)
        invariant isFirst <==> i == first
        invariant minP == MinPrice(scanned[..i - first])
        invariant maxP == MaxPrice(scanned[..i - first])
        invariant !isFirst ==> minVal == Value(minP) && maxVal == Value(maxP)
      {
        var r := ReadTradeData(i);
        assert r.Some?;
        var trade := r.value;
        ghost var n := i - first;
        assert scanned[..n + 1][..n] == scanned[..n];
        assert scanned[..n + 1][n] == trade;
        var v := Value(trade.price);
        if isFirst || v < minVal {
          minVal := v;
          minP := trade.price;
        }
        if isFirst || v > maxVal {
          maxVal := v;
          maxP := trade.price;
        }
        isFirst := false;
        i := i + 1;
      }
      assert scanned[..i - first] == scanned;
    }

    /** The minimum and maximum price of a range, or the exception of a search. */
    method MinMaxPriceInRange(startTime: Uint64, endTime: Uint64) returns (prices: Option<(Price, Price)>)
      requires Valid() && startTime < endTime
      modifies this`readCount
      ensures prices == if SearchThrows(file, tradesSize, startTime, endTime) then None
                        else var scanned := Scanned(file, startTime, endTime);
                             Some((MinPrice(scanned), MaxPrice(scanned)))
      ensures readCount <= old(readCount) + ReadBound(startTime, endTime)
    {
      ScanStartBeforeEnd(file, startTime, endTime);
      var range := FindRange(startTime, endTime);
      if range.None? {
        return None;
      }
      var minP, maxP := ScanPrices(range.value.0, range.value.1);
      prices := Some((minP, maxP));
    }

    /** The summing scan over the records first..last. */
    method SumRange(first: Uint64, last: Uint64) returns (totalVal: real)
      requires first <= last + 1 <= |file|
      modifies this`readCount
      ensures totalVal == SumQuantity(file[first..last + 1])
      ensures readCount == old(readCount) + (last + 1 - first)
    {
      ghost var scanned := file[first..last + 1];
      totalVal := 0.0;
      var i: int := first;
      while i <= last
        invariant first <= i <= last + 1
        invariant readCount == old(readCount) + (i - first)
        invariant totalVal == SumQuantity(scanned[..i - first])
      {
        var r := ReadTradeData(i);
        assert r.Some?;
        ghost var n := i - first;
        assert scanned[..n + 1][..n] == scanned[..n];
        assert scanned[..n + 1][n] == r.value;
        totalVal := totalVal + Value(r.value.quantity);
        i := i + 1;
      }
      assert scanned[..i - first] == scanned;
    }

    /** The summing scan of a range, then the normaliser. */
    method TotalQuantityInRange(startTime: Uint64, endTime: Uint64) returns (total: Option<Quantity>)
      requires Valid() && startTime < endTime
      modifies this`readCount
      ensures total == if SearchThrows(file, tradesSize, startTime, endTime) then None
                       else Some(Reported(SumQuantity(Scanned(file, startTime, endTime))))
      ensures readCount <= old(readCount) + ReadBound(startTime, endTime)
    {
      ScanStartBeforeEnd(file, startTime, endTime);
      var range := FindRange(startTime, endTime);
      if range.None? {
        return None;
      }
      var totalVal := SumRange(range.value.0, range.value.1);
      var reported := Normalise(totalVal);
      total := Some(reported);
    }

    /** The weighted scan over the records first..last: the sums of price * quantity and of quantity. */
    method WeighRange(first: Uint64, last: Uint64) returns (sumPq: real, sumQ: real)
      requires first <= last + 1 <= |file|
      modifies this`readCount
      ensures sumPq == SumPriceQuantity(file[first..last + 1])
      ensures sumQ == SumQuantity(file[first..last + 1])
      ensures readCount == old(readCount) + (last + 1 - first)
    {
      ghost var scanned := file[first..last + 1];
      sumPq, sumQ := 0.0, 0.0;
      var i: int := first;
      while i <= last
        invariant first <= i <= last + 1
        invariant readCount == old(readCount) + (i - first)
        invariant sumPq == SumPriceQuantity(scanned[..i - first])
        invariant sumQ == SumQuantity(scanned[..i - first])
      {
        var r := ReadTradeData(i);
        assert r.Some?;
        SumsOfNext(scanned, i - first);
        var priceVal := Value(r.value.price);
        var qtyVal := Value(r.value.quantity);
        sumPq := sumPq + Turnover(r.value, priceVal);
        sumQ := sumQ + qtyVal;
        i := i + 1;
      }
      assert scanned[..i - first] == scanned;
    }

    /** The weighted scan of the range, then the division and the normaliser. */
    method MeanPriceInRange(startTime: Uint64, endTime: Uint64) returns (mean: Option<Price>)
      requires Valid() && startTime < endTime
      modifies this`readCount
      ensures mean == if SearchThrows(file, tradesSize, startTime, endTime) then None
                      else Some(Reported(Mean(Scanned(file, startTime, endTime))))
      ensures readCount <= old(readCount) + ReadBound(startTime, endTime)
    {
      ScanStartBeforeEnd(file, startTime, endTime);
      var range := FindRange(startTime, endTime);
      if range.None? {
        return None;
      }
      var sumPq, sumQ := WeighRange(range.value.0, range.value.1);
      var reported := Normalise(Quotient(sumPq, sumQ));
      mean := Some(reported);
    }

    /** The switch: what bit i of the chooser appends; the first three bits run a metric. */
    method AppendMetric(chooser: bv8, i: nat, startTime: Uint64, endTime: Uint64, sofar: Bytes)
      returns (res: Option<Bytes>)
      requires Valid() && startTime < endTime && i < 8
      modifies this`readCount
      ensures res == if i < 3 && Chosen(chooser, i) && SearchThrows(file, tradesSize, startTime, endTime) then None
                     else Some(sofar + Section(chooser, WindowSummary(file, Window(startTime, endTime)), i))
    {
      hide SearchThrows;
      assert sofar + [] == sofar;
      res := Some(sofar);
      if Chosen(chooser, i) {
        match i
        case 0 =>
          var prices := MinMaxPriceInRange(startTime, endTime);
          if prices.None? {
            return None;
          }
          var (minPrice, maxPrice) := prices.value;
          res := Some(sofar + EncodeDecimal(minPrice) + EncodeDecimal(maxPrice));
          Associate(sofar, EncodeDecimal(minPrice), EncodeDecimal(maxPrice));
        case 1 =>
          var mean := MeanPriceInRange(startTime, endTime);
          if mean.None? {
            return None;
          }
          res := Some(sofar + EncodeDecimal(mean.value));
        case 2 =>
          var total := TotalQuantityInRange(startTime, endTime);
          if total.None? {
            return None;
          }
          res := Some(sofar + EncodeDecimal(total.value));
        case _ =>
      }
    }

    /** One window's record, appended metric by metric. */
    method AppendRecord(chooser: bv8, startTime: Uint64, endTime: Uint64, sofar: Bytes) returns (res: Option<Bytes>)
      requires Valid() && startTime < endTime
      modifies this`readCount
      ensures res == if AnyMetric(chooser) && SearchThrows(file, tradesSize, startTime, endTime) then None
                     else Some(sofar + EncodeRecord(chooser, WindowSummary(file, Window(startTime, endTime))))
    {
      hide SearchThrows, WindowSummary;
      ghost var summary := WindowSummary(file, Window(startTime, endTime));
      var bytes := sofar;
      for i := 0 to 8
        invariant bytes == sofar + SectionsBelow(chooser, summary, i)
        invariant SearchThrows(file, tradesSize, startTime, endTime) ==>
                    forall j :: 0 <= j < 3 && j < i ==> !Chosen(chooser, j)
      {
        Associate(sofar, SectionsBelow(chooser, summary, i), Section(chooser, summary, i));
        var appended := AppendMetric(chooser, i, startTime, endTime, bytes);
        if appended.None? {
          return None;
        }
        bytes := appended.value;
      }
      RecordParts(chooser, summary);
      res := Some(bytes);
    }

    /** The window loop: the answer, unless some metric is chosen and some window cannot be searched. */
    method Aggregator(chooser: bv8, query: Query) returns (res: Option<Bytes>)
      requires Valid() && Fits(query)
      modifies this`readCount
      ensures res == if AnyMetric(chooser) && SomeThrows(file, tradesSize, QueryWindows(query)) then None
                     else Some(Answer(file, chooser, query))
    {
      hide WindowSummary, SearchThrows, SomeThrows, EncodeRecord, AnyMetric, SortedByTime;
      var bytes := [];
      var startTime: Uint64 := query.startTime;
      while startTime < query.endTime
        invariant query.startTime < query.endTime ==>
                    && query.resolution > 0
                    && StaysIn64(startTime, query.endTime, query.resolution)
                    && bytes + AnswerFrom(file, chooser, startTime, query.endTime, query.resolution)
                       == Answer(file, chooser, query)
                    && (AnyMetric(chooser) ==>
                          (SomeThrows(file, tradesSize, QueryWindows(query)) <==>
                           SomeThrows(file, tradesSize, Windows(startTime, query.endTime, query.resolution))))
        invariant query.startTime >= query.endTime ==> startTime == query.startTime && bytes == []
        decreases query.endTime - startTime
      {
        var endTime: Uint64 := startTime + query.resolution;
        if endTime > query.endTime {
          endTime := query.endTime;
        }
        AnswerFromStep(file, chooser, bytes, startTime, query.endTime, query.resolution);
        SomeThrowsFirst(file, tradesSize, Window(startTime, endTime),
                        Windows(startTime + query.resolution, query.endTime, query.resolution));
        var appended := AppendRecord(chooser, startTime, endTime, bytes);
        if appended.None? {
          return None;
        }
        bytes := appended.value;
        startTime := startTime + query.resolution;
      }
      NoneThrows(file, tradesSize);
      assert bytes + [] == bytes;
      res := Some(bytes);
    }

    /** The linear filter, over as many records as are counted. */
    method SendRawData(query: Query) returns (trades: Option<seq<Trade>>)
      modifies this`readCount
      ensures trades == if tradesSize > |file| then None
                        else Some(Matching(file[..tradesSize], query.startTime, query.endTime))
    {
      var found := [];
      var ind: int := 0;
      while ind < tradesSize
        invariant 0 <= ind <= tradesSize && ind <= |file|
        invariant found == Matching(file[..ind], query.startTime, query.endTime)
      {
        var r := ReadTradeData(ind);
        if r.None? {
          return None;
        }
        assert file[..ind + 1][..ind] == file[..ind];
        if r.value.createdAt >= query.startTime && r.value.createdAt < query.endTime {
          found := found + [r.value];
        }
        ind := ind + 1;
      }
      trades := Some(found);
    }
  }
}
