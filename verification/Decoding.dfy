// When the client's decoding inverts the server's encoding.
module Decoding {
  import opened Types
  import opened Summaries
  import opened Codec
  import opened Client

  /** The figures of a summary that the mask selects. */
  function Project(mask: bv8, s: Summary): ClientSet {
    ClientSet(
      if Chosen(mask, 0) then Some((s.minPrice, s.maxPrice)) else None,
      if Chosen(mask, 1) then Some(s.mean) else None,
      if Chosen(mask, 2) then Some(s.total) else None)
  }

  function ProjectAll(mask: bv8, ss: seq<Summary>): (r: seq<ClientSet>)
    ensures |r| == |ss|
    ensures forall i :: 0 <= i < |ss| ==> r[i] == Project(mask, ss[i])
  {
    seq(|ss|, i requires 0 <= i < |ss| => Project(mask, ss[i]))
  }

  lemma DecimalInside(output: Bytes, pos: nat, d: Decimal)
    requires pos + 5 <= |output| && output[pos..pos + 5] == EncodeDecimal(d)
    ensures DecimalAt(output, pos) == d
  {
    DecimalRoundTrip(d, EncodeDecimal(d));
  }

  lemma SubSlice(output: Bytes, base: nat, record: Bytes, i: nat, j: nat)
    requires i <= j <= |record| && base + |record| <= |output|
    requires output[base..base + |record|] == record
    ensures output[base + i..base + j] == record[i..j]
  {
    forall k | 0 <= k < j - i
      ensures output[base + i..base + j][k] == record[i..j][k]
    {
      assert output[base..base + |record|][i + k] == output[base + (i + k)];
    }
  }

  /** A record found at base decodes to the figures it encodes. */
  lemma SetInside(mask: bv8, output: Bytes, base: nat, s: Summary)
    requires base + Stride(mask) <= |output|
    requires output[base..base + Stride(mask)] == EncodeRecord(mask, s)
    ensures SetAt(mask, output, base) == Project(mask, s)
  {
    hide EncodeDecimal, EncodeRecord, DecimalAt;
    RecordLayout(mask, s);
    var record := EncodeRecord(mask, s);
    if Chosen(mask, 0) {
      SubSlice(output, base, record, 0, 5);
      SubSlice(output, base, record, 5, 10);
      DecimalInside(output, base, s.minPrice);
      DecimalInside(output, base + 5, s.maxPrice);
    }
    if Chosen(mask, 1) {
      SubSlice(output, base, record, MeanOffset(mask), MeanOffset(mask) + 5);
      DecimalInside(output, base + MeanOffset(mask), s.mean);
    }
    if Chosen(mask, 2) {
      SubSlice(output, base, record, TotalOffset(mask), TotalOffset(mask) + 5);
      DecimalInside(output, base + TotalOffset(mask), s.total);
    }
  }

  /** All three figures are asked for. */
  predicate AllMetrics(mask: bv8) {
    Chosen(mask, 0) && Chosen(mask, 1) && Chosen(mask, 2)
  }

  lemma StrideValues(mask: bv8)
    ensures AllMetrics(mask) <==> Stride(mask) == 20
    ensures AnyMetric(mask) <==> Stride(mask) > 0
    ensures Stride(mask) in {0, 5, 10, 15, 20}
  {
  }

  /** The client finds window j where the set it reads begins at that window's record. */
  lemma SetOfWindow(mask: bv8, ss: seq<Summary>, k: nat, j: nat)
    requires j < |ss| && 20 * k == j * Stride(mask)
    ensures 20 * k + Stride(mask) <= |EncodeAll(mask, ss)|
    ensures SetAt(mask, EncodeAll(mask, ss), 20 * k) == Project(mask, ss[j])
  {
    hide SetAt, EncodeRecord, Project, EncodeAll;
    EncodeAllAt(mask, ss, j);
    SetInside(mask, EncodeAll(mask, ss), 20 * k, ss[j]);
  }

  lemma Skips(n: nat, stride: nat, m: nat, k: nat)
    requires m * stride == 20 && stride in {5, 10, 20}
    ensures NumSets(n * stride) == (n + m - 1) / m
    ensures k < NumSets(n * stride) ==> k * m < n && 20 * k == (k * m) * stride
  {
    if stride == 5 {
      assert m == 4;
    } else if stride == 10 {
      assert m == 2;
    } else {
      assert m == 1;
    }
  }

  /**
   * Where a record is 20 bytes or a whole part of that, the client prints every m-th window and
   * no other: all of them with all three metrics, every second one with the prices alone or
   * with mean and total, every fourth one with the mean or the total alone.
   */
  lemma PrintsEveryNth(mask: bv8, ss: seq<Summary>, m: nat)
    requires m * Stride(mask) == 20 && Stride(mask) != 15
    ensures var r := DecodeOutput(mask, EncodeAll(mask, ss));
            && r.Sets? && |r.sets| == (|ss| + m - 1) / m
            && forall k :: 0 <= k < |r.sets| ==> k * m < |ss| && r.sets[k] == Project(mask, ss[k * m])
  {
    hide SetAt, EncodeRecord, Project, EncodeAll, Stride, DecodeSets;
    var output := EncodeAll(mask, ss);
    StrideValues(mask);
    EncodeAllLength(mask, ss);
    var n := NumSets(|output|);
    Skips(|ss|, Stride(mask), m, 0);
    forall k | 0 <= k < n
      ensures k * m < |ss| && 20 * k + Stride(mask) <= |output|
      ensures SetAt(mask, output, 20 * k) == Project(mask, ss[k * m])
    {
      Skips(|ss|, Stride(mask), m, k);
      SetOfWindow(mask, ss, k, k * m);
    }
    var sets := seq(n, k requires 0 <= k < n => Project(mask, ss[k * m]));
    DecodedExactly(mask, output, sets);
  }

  lemma FifteenByteSets(n: nat)
    ensures var count := (15 * n + 19) / 20;
            (forall k: nat :: k < count ==> 20 * k + 15 <= 15 * n) <==> n % 4 < 2
    ensures forall j: nat :: 3 * j < (15 * n + 19) / 20 ==> 4 * j < n
  {
    var count := (15 * n + 19) / 20;
    if n % 4 >= 2 {
      var k: nat := count - 1;
      assert k < count && 20 * k + 15 > 15 * n;
    }
  }

  /**
   * With the prices and one more metric the client's 20 bytes and the record's 15 go out of
   * step. It runs past the end exactly if the number of windows is 2 or 3 above a multiple of
   * four; otherwise it prints three sets for every four windows, and only each third one, from the
   * first on, is that of a window.
   */
  lemma PrintsFifteenBytes(mask: bv8, ss: seq<Summary>)
    requires Stride(mask) == 15
    ensures var r := DecodeOutput(mask, EncodeAll(mask, ss));
            && (r == PastEnd <==> |ss| % 4 >= 2)
            && (r.Sets? ==>
                  && |r.sets| == (15 * |ss| + 19) / 20
                  && forall j :: 0 <= 3 * j < |r.sets| ==> 4 * j < |ss| && r.sets[3 * j] == Project(mask, ss[4 * j]))
  {
    hide SetAt, EncodeRecord, Project, EncodeAll, Stride, DecodeSets;
    var output, n := EncodeAll(mask, ss), (15 * |ss| + 19) / 20;
    EncodeAllLength(mask, ss);
    FifteenByteSets(|ss|);
    if |ss| % 4 < 2 {
      var sets := seq(n, k requires 0 <= k < n => assert 20 * k + 15 <= |output|; SetAt(mask, output, 20 * k));
      DecodedExactly(mask, output, sets);
      forall j | 0 <= 3 * j < n
        ensures 4 * j < |ss| && sets[3 * j] == Project(mask, ss[4 * j])
      {
        SetOfWindow(mask, ss, 3 * j, 4 * j);
      }
    } else if DecodeOutput(mask, output).Sets? {
      DecodedExactly(mask, output, DecodeOutput(mask, output).sets);
    }
  }

  /** Without a metric there is nothing to print. */
  lemma PrintsNothing(mask: bv8, ss: seq<Summary>)
    requires !AnyMetric(mask)
    ensures DecodeOutput(mask, EncodeAll(mask, ss)) == Sets([])
  {
    StrideValues(mask);
    EncodeAllLength(mask, ss);
  }

  /** With any metric at all, the client recovers a single window. */
  lemma SingleWindowDecodes(mask: bv8, s: Summary)
    requires AnyMetric(mask)
    ensures DecodeOutput(mask, EncodeAll(mask, [s])) == Sets([Project(mask, s)])
  {
    hide SetAt, EncodeRecord, Project, EncodeAll, Stride, DecodeSets;
    StrideValues(mask);
    EncodeAllLength(mask, [s]);
    SetOfWindow(mask, [s], 0, 0);
    DecodedExactly(mask, EncodeAll(mask, [s]), [Project(mask, s)]);
  }

  lemma AllMetricsDecode(mask: bv8, ss: seq<Summary>)
    requires AllMetrics(mask)
    ensures DecodeOutput(mask, EncodeAll(mask, ss)) == Sets(ProjectAll(mask, ss))
  {
    hide EncodeAll, DecodeSets, Project, Stride;
    StrideValues(mask);
    PrintsEveryNth(mask, ss, 1);
    var sets := DecodeOutput(mask, EncodeAll(mask, ss)).sets;
    assert forall k :: 0 <= k < |sets| ==> k * 1 < |ss| && sets[k] == Project(mask, ss[k * 1]);
  }

  lemma FewerSets(n: nat, stride: nat)
    requires n >= 2 && stride in {0, 5, 10, 15}
    ensures NumSets(n * stride) < n || (stride == 15 && n % 4 >= 2)
  {
  }

  /** With several windows and not all metrics, windows are missing or the client runs past the end. */
  lemma SeveralWindowsFail(mask: bv8, ss: seq<Summary>)
    requires !AllMetrics(mask) && |ss| >= 2
    ensures DecodeOutput(mask, EncodeAll(mask, ss)) != Sets(ProjectAll(mask, ss))
  {
    hide EncodeAll, DecodeSets, Project, Stride;
    StrideValues(mask);
    EncodeAllLength(mask, ss);
    FewerSets(|ss|, Stride(mask));
    DecodedExactly(mask, EncodeAll(mask, ss), ProjectAll(mask, ss));
    if Stride(mask) == 15 {
      PrintsFifteenBytes(mask, ss);
    }
  }

  /**
   * The client recovers exactly what the server encoded if and only if all three metrics
   * are chosen, or there is no window, or there is one window and some metric.
   */
  lemma DecodingInvertsEncodingExactly(mask: bv8, ss: seq<Summary>)
    ensures DecodeOutput(mask, EncodeAll(mask, ss)) == Sets(ProjectAll(mask, ss))
       <==> || (Chosen(mask, 0) && Chosen(mask, 1) && Chosen(mask, 2))
            || ss == []
            || (|ss| == 1 && (Chosen(mask, 0) || Chosen(mask, 1) || Chosen(mask, 2)))
  {
    hide Project, EncodeRecord, DecodeSets, SetAt, Chosen;
    if AllMetrics(mask) {
      AllMetricsDecode(mask, ss);
    } else if ss == [] {
      DecodedExactly(mask, EncodeAll(mask, ss), []);
      assert ProjectAll(mask, ss) == [];
    } else if |ss| == 1 {
      assert ss == [ss[0]];
      if AnyMetric(mask) {
        SingleWindowDecodes(mask, ss[0]);
        assert ProjectAll(mask, ss) == [Project(mask, ss[0])];
      } else {
        PrintsNothing(mask, ss);
      }
    } else {
      SeveralWindowsFail(mask, ss);
    }
  }
}
