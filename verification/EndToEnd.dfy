// From the store to the client's decoded sets, through any run of the system.
module EndToEnd {
  import opened Types
  import opened Powers
  import opened Normaliser
  import opened NormaliserLaws
  import opened Summaries
  import opened MeanBounds
  import opened Figures
  import opened Reports
  import opened Ranges
  import opened Searching
  import opened Splitting
  import opened Stepping
  import opened Codec
  import opened Answers
  import opened Worker
  import opened Client
  import opened Decoding
  import opened Pipeline
  import opened Theorems
  import opened Uniform
  import opened Hazards

  /** The workers' answer to every query on which they come to an end. */
  ghost function EngineAnswer(ts: seq<Trade>): Query -> Bytes
    requires GoodStore(ts)
  {
    (q: Query) => if Returns(q) then WorkerAnswer(ts, q) else []
  }

  /**
   * Clients that send only queries with which a worker comes to a result, on an engine with
   * this record count, and to one that an int32 can announce.
   */
  ghost function EngineClients(ts: seq<Trade>, count: Uint64, limit: nat, quiet: bool): Discipline
    requires GoodStore(ts)
  {
    Discipline(limit,
               (q: Query) => Returns(q) && !WorkerThrows(ts, count, q) && |EngineAnswer(ts)(q)| < INT32_LIMIT,
               quiet)
  }

  lemma EngineSized(ts: seq<Trade>, count: Uint64, limit: nat, quiet: bool)
    requires GoodStore(ts)
    ensures Sized(EngineAnswer(ts), EngineClients(ts, count, limit, quiet))
  {
  }

  /** What the machine takes for an answer is what a worker comes to. */
  lemma AnswerIsOutcome(ts: seq<Trade>, count: Uint64, limit: nat, quiet: bool, q: Query)
    requires GoodStore(ts) && MayAsk(EngineClients(ts, count, limit, quiet), q)
    ensures Ends(ts, count, q) && WorkerOutcome(ts, count, q) == Some(EngineAnswer(ts)(q))
  {
    hide Returns, Ends, WorkerThrows, WorkerAnswer, WorkerOutcome;
    WorkerOutcomeExactly(ts, count, q);
  }

  // ---------------------------------------------------------------------
  // What clients decode

  /**
   * A printed set tells the figures of the window's trades: the two prices if bit 0 of the query
   * is set, the mean if bit 26 is, the total if bit 33 is.
   */
  ghost predicate SetTells(ts: seq<Trade>, q: Query, w: Window, set_: ClientSet)
    requires GoodStore(ts) && w.start < w.end
  {
    exists s: Summary :: FiguresOf(TradesOf(ts, w), s)
      && set_.prices == (if q.metrics & 1 != 0 then Some((s.minPrice, s.maxPrice)) else None)
      && set_.mean == (if q.metrics & 0x400_0000 != 0 then Some(s.mean) else None)
      && set_.total == (if q.metrics & 0x2_0000_0000 != 0 then Some(s.total) else None)
  }

  lemma SetTellsExactly(ts: seq<Trade>, q: Query, w: Window, set_: ClientSet)
    requires GoodStore(ts) && w.start < w.end
    ensures SetTells(ts, q, w, set_) <==> set_ == Project(MetricList(q.metrics), WindowSummary(ts, w))
  {
    hide FiguresOf, MetricList, Summarise, Chosen;
    MetricListBits(q.metrics);
    FiguresExactly(TradesOf(ts, w), WindowSummary(ts, w));
    if SetTells(ts, q, w, set_) {
      var s: Summary :| FiguresOf(TradesOf(ts, w), s)
        && set_.prices == (if q.metrics & 1 != 0 then Some((s.minPrice, s.maxPrice)) else None)
        && set_.mean == (if q.metrics & 0x400_0000 != 0 then Some(s.mean) else None)
        && set_.total == (if q.metrics & 0x2_0000_0000 != 0 then Some(s.total) else None);
      FiguresExactly(TradesOf(ts, w), s);
    }
  }

  /** The answer decodes to one set for each of the worker's windows, which tells its figures. */
  ghost predicate DecodesToWindows(ts: seq<Trade>, q: Query, payload: Bytes)
    requires GoodStore(ts) && Returns(q)
  {
    var r, ws := DecodeOutput(MetricList(q.metrics), payload), WorkerWindows(q);
    && r.Sets? && |r.sets| == |ws|
    && forall j :: 0 <= j < |ws| ==> SetTells(ts, q, ws[j], r.sets[j])
  }

  lemma DecodesToSummaries(ts: seq<Trade>, q: Query, payload: Bytes)
    requires GoodStore(ts) && Returns(q)
    ensures DecodesToWindows(ts, q, payload)
       <==> DecodeOutput(MetricList(q.metrics), payload)
              == Sets(ProjectAll(MetricList(q.metrics), WindowSummaries(ts, WorkerWindows(q))))
  {
    hide SetTells, Project, MetricList, DecodeOutput, WindowSummary, Returns;
    var r, ws := DecodeOutput(MetricList(q.metrics), payload), WorkerWindows(q);
    if r.Sets? && |r.sets| == |ws| {
      forall j | 0 <= j < |ws|
        ensures SetTells(ts, q, ws[j], r.sets[j])
           <==> r.sets[j] == ProjectAll(MetricList(q.metrics), WindowSummaries(ts, ws))[j]
      {
        SetTellsExactly(ts, q, ws[j], r.sets[j]);
      }
    }
  }

  /** All of bits 0, 26 and 33, or no window, or one window and some of the bits. */
  ghost predicate Decodable(q: Query)
    requires Returns(q)
  {
    || (q.metrics & 1 != 0 && q.metrics & 0x400_0000 != 0 && q.metrics & 0x2_0000_0000 != 0)
    || WorkerWindows(q) == []
    || (|WorkerWindows(q)| == 1
        && (q.metrics & 1 != 0 || q.metrics & 0x400_0000 != 0 || q.metrics & 0x2_0000_0000 != 0))
  }

  lemma AnswerDecodesExactly(ts: seq<Trade>, q: Query)
    requires GoodStore(ts) && Returns(q)
    ensures DecodesToWindows(ts, q, WorkerAnswer(ts, q)) <==> Decodable(q)
  {
    hide DecodesToWindows, MetricList, Returns, Chosen, DecodeOutput;
    MetricListBits(q.metrics);
    DecodesToSummaries(ts, q, WorkerAnswer(ts, q));
    DecodingInvertsEncodingExactly(MetricList(q.metrics), WindowSummaries(ts, WorkerWindows(q)));
  }

  /**
   * In every reachable state of the system, each answer a client has read decodes to the
   * figures of the windows worked off for its own query exactly when that query asks for all
   * three metrics, has no window, or has one window and some metric; and those windows are
   * the query's own exactly when it fits into 64 bits.
   */
  lemma ClientsDecodeTheirWindows(ts: seq<Trade>, count: Uint64, t: Sys, fd: int, i: nat)
    requires GoodStore(ts) && Reachable(EngineAnswer(ts), EngineClients(ts, count, 1, true), t)
    requires fd in t.peers && i < |t.peers[fd].answers|
    ensures i < |t.peers[fd].asked|
    ensures var q := t.peers[fd].asked[i];
            && Returns(q)
            && (DecodesToWindows(ts, q, t.peers[fd].answers[i]) <==> Decodable(q))
            && (AnsweredByOwnWindows(q) <==> Fits(q))
            && (Fits(q) ==> WorkerWindows(q) == QueryWindows(q))
  {
    hide Reachable, DecodesToWindows, WorkerAnswer, WorkerThrows, Returns;
    var d := EngineClients(ts, count, 1, true);
    EngineSized(ts, count, 1, true);
    ClientsReadTheirAnswers(EngineAnswer(ts), d, t, fd);
    ReachableAskable(EngineAnswer(ts), d, t);
    var q := t.peers[fd].asked[i];
    assert q in t.peers[fd].asked && MayAsk(d, q);
    assert t.peers[fd].answers[i] == EngineAnswer(ts)(q);
    AnswerDecodesExactly(ts, q);
    OwnWindowsExactly(q);
    if Fits(q) {
      WorkerMatchesAggregator(ts, q);
    }
  }

  /** In a set that tells prices and mean of a window with some quantity, the mean lies between the prices. */
  lemma EveryWindowMeanBetween(ts: seq<Trade>, q: Query, w: Window, set_: ClientSet)
    requires GoodStore(ts) && w.start < w.end && SetTells(ts, q, w, set_)
    requires q.metrics & 1 != 0 && q.metrics & 0x400_0000 != 0
    requires forall k :: 0 <= k < |ts| ==> ts[k].price.exponent >= -18
    requires QuantityUnits(TradesOf(ts, w)) > 0
    ensures set_.prices.Some? && set_.mean.Some?
    ensures Value(set_.prices.value.0) <= Value(set_.mean.value) <= Value(set_.prices.value.1)
  {
    hide FiguresOf, Value, QuantityUnits;
    var s: Summary :| FiguresOf(TradesOf(ts, w), s)
      && set_.prices == (if q.metrics & 1 != 0 then Some((s.minPrice, s.maxPrice)) else None)
      && set_.mean == (if q.metrics & 0x400_0000 != 0 then Some(s.mean) else None)
      && set_.total == (if q.metrics & 0x2_0000_0000 != 0 then Some(s.total) else None);
    WindowFigures(ts, [w], 0, s);
    MeanFieldBetween(ts, [w], 0);
  }

  // ---------------------------------------------------------------------
  // The discipline, for the engine's own answers

  /** One window and the two prices of it. */
  function Prices(s: Uint64, e: Uint64): Query
    requires s < e
  {
    Query(0, s, e, e - s, 1)
  }

  /** With this record count the engine can search no range at all. */
  ghost predicate Unsearchable(ts: seq<Trade>, count: Uint64) {
    forall s: Uint64, e: Uint64 :: s < e ==> SearchThrows(ts, count, s, e)
  }

  lemma PricesWindow(s: Uint64, e: Uint64)
    requires s < e
    ensures Fits(Prices(s, e)) && QueryWindows(Prices(s, e)) == [Window(s, e)] + []
    ensures MetricList(Prices(s, e).metrics) == 1 && AnyMetric(1)
  {
    assert StaysIn64(e, e, e - s);
    assert Windows(e, e, e - s) == [];
  }

  lemma PricesAnswer(ts: seq<Trade>, count: Uint64, s: Uint64, e: Uint64)
    requires GoodStore(ts) && s < e
    ensures Returns(Prices(s, e))
    ensures EngineAnswer(ts)(Prices(s, e)) == EncodeRecord(1, WindowSummary(ts, Window(s, e)))
    ensures |EngineAnswer(ts)(Prices(s, e))| == 10
    ensures WorkerThrows(ts, count, Prices(s, e)) <==> SearchThrows(ts, count, s, e)
  {
    hide WindowSummary, EncodeRecord, SearchThrows, SomeThrows;
    PricesWindow(s, e);
    WorkerMatchesAggregator(ts, Prices(s, e));
    var w := WindowSummary(ts, Window(s, e));
    assert AnswerFrom(ts, 1, e, e, e - s) == [];
    assert EncodeRecord(1, w) + [] == EncodeRecord(1, w);
    RecordParts(1, w);
    SomeThrowsFirst(ts, count, Window(s, e), []);
    NoneThrows(ts, count);
  }

  lemma UnsearchableIsEmpty(ts: seq<Trade>, count: Uint64, q: Query)
    requires GoodStore(ts) && Unsearchable(ts, count) && Returns(q) && !WorkerThrows(ts, count, q)
    ensures EngineAnswer(ts)(q) == []
  {
    hide Returns, SearchThrows, WindowSummaries;
    WorkerWindowsInRange(q);
    var ws, chooser := WorkerWindows(q), MetricList(q.metrics);
    EncodeAllLength(chooser, WindowSummaries(ts, ws));
    if ws != [] {
      assert ws[0] in ws && SearchThrows(ts, count, ws[0].start, ws[0].end);
      assert Stride(chooser) == 0;
    }
  }

  const NOTHING: Query := Query(0, 0, 0, 0, 0)

  lemma NothingAnswer(ts: seq<Trade>, count: Uint64)
    requires GoodStore(ts)
    ensures Returns(NOTHING) && EngineAnswer(ts)(NOTHING) == [] && !WorkerThrows(ts, count, NOTHING)
  {
    FittingReturns(NOTHING);
  }

  lemma NotOneByte(p: Bytes)
    requires |p| == 10
    ensures forall c: Byte :: !OneByte(c, Frame(p))
  {
    assert Frame(p)[0] == 10 && Frame(p)[1] == 0;
  }

  /** What the engine's clients may ask, and what comes of it. */
  lemma EngineAnswersKind(ts: seq<Trade>, count: Uint64, limit: nat, quiet: bool)
    requires GoodStore(ts)
    ensures var answer, d := EngineAnswer(ts), EngineClients(ts, count, limit, quiet);
            && (NobodyAsks(d) <==> limit == 0)
            && (NoPayload(answer, d) <==> limit == 0 || Unsearchable(ts, count))
            && (limit > 0 ==> (OneByteAnswers(answer, d) <==> Unsearchable(ts, count)))
  {
    hide Returns, WorkerThrows, WorkerAnswer, SearchThrows;
    var answer, d := EngineAnswer(ts), EngineClients(ts, count, limit, quiet);
    NothingAnswer(ts, count);
    assert limit > 0 ==> MayAsk(d, NOTHING);
    if Unsearchable(ts, count) {
      forall q | MayAsk(d, q)
        ensures answer(q) == []
      {
        UnsearchableIsEmpty(ts, count, q);
      }
      EmptyFrame();
      assert AllAnswer(answer, d, []);
    } else {
      var s: Uint64, e: Uint64 :| s < e && !SearchThrows(ts, count, s, e);
      PricesAnswer(ts, count, s, e);
      assert limit > 0 ==> MayAsk(d, Prices(s, e));
      NotOneByte(answer(Prices(s, e)));
    }
  }

  /**
   * With the engine's answers, whatever the store, a record count that is not too low and the
   * number of workers, and unless that count makes every search throw: no kept payload is
   * ever overwritten, no byte is ever lost, and every connection carries only its own
   * client's answers in order, each exactly if every client waits for its answer and no
   * number is reused too early.
   */
  lemma EngineDisciplineExactly(ts: seq<Trade>, count: Uint64, limit: nat, quiet: bool, n: nat)
    requires GoodStore(ts) && |ts| <= count && n > 0 && limit > 0
    ensures var answer, d := EngineAnswer(ts), EngineClients(ts, count, limit, quiet);
            && (NeverOverwrites(answer, d, n) <==> (limit == 1 && quiet) || Unsearchable(ts, count))
            && (WireComplete(answer, d, n) <==> quiet && (limit == 1 || Unsearchable(ts, count)))
            && (PrefixAlways(answer, d, n) <==> quiet && (limit == 1 || Unsearchable(ts, count)))
  {
    hide NeverOverwrites, WireComplete, PrefixAlways, NoPayload, NobodyAsks, OneByteAnswers, Sized, Unsearchable;
    var answer, d := EngineAnswer(ts), EngineClients(ts, count, limit, quiet);
    EngineSized(ts, count, limit, quiet);
    EngineAnswersKind(ts, count, limit, quiet);
    NeverOverwritesExactly(answer, d, n);
    WireCompleteExactly(answer, d, n);
    PrefixAlwaysExactly(answer, d, n);
  }

  /**
   * That exception does not arise with the right count, nor with the count the constructor takes
   * when the first trade is not at time 0.
   */
  lemma Searchable(ts: seq<Trade>)
    requires GoodStore(ts) && |ts| * RECORD_BYTES < UINT64_LIMIT
    ensures !Unsearchable(ts, |ts|)
    ensures ts[0].createdAt > 0 ==> !Unsearchable(ts, RecordCount(|ts|))
  {
    var s: Uint64, e: Uint64 := 0, 1;
    RightCountNeverThrows(ts, s, e);
    if ts[0].createdAt > 0 {
      assert LowerBound(ts, s) == 0 && LowerBound(ts, e) == 0;
      var count := RecordCount(|ts|);
      assert LastIndex(count) == count - 1;
      assert !RunsPast(0, |ts|, 0, count - 1) && !RunsPast(0, |ts|, 0, count);
      assert !SearchThrows(ts, count, s, e);
    }
  }

  lemma OneTradeScanned(trade: Trade)
    ensures GoodStore([trade]) && Scanned([trade], 0, 1) == [trade]
  {
    ScannedExactly([trade], 0, 1);
    assert [trade][..0] == [];
    assert Matching([], 0, 1) == [];
  }

  lemma ZeroBytesAreZero(p: Price)
    requires AllZero(EncodeDecimal(p))
    ensures p == Decimal(0, 0)
  {
    DecimalRoundTrip(p, EncodeDecimal(p));
    assert EncodeDecimal(p)[..4] == [0, 0, 0, 0];
  }

  /** With one trade of any price but 0e0, a client cut off by a close can read zeros for its answer. */
  lemma CutOffClientMisreads(trade: Trade, n: nat)
    requires n > 0 && trade.price != Decimal(0, 0)
    ensures GoodStore([trade])
    ensures !ClosedReadsRight(EngineAnswer([trade]), EngineClients([trade], 1, 1, true), n)
  {
    hide ClosedReadsRight, Returns, WorkerThrows, WorkerAnswer, SearchThrows;
    OneTradeScanned(trade);
    PricesAnswer([trade], 1, 0, 1);
    RightCountNeverThrows([trade], 0, 1);
    EngineSized([trade], 1, 1, true);
    var p := EngineAnswer([trade])(Prices(0, 1));
    var s := WindowSummary([trade], Window(0, 1));
    assert s.minPrice == trade.price;
    RecordParts(1, s);
    assert p[..5] == EncodeDecimal(trade.price);
    if AllZero(p) {
      assert forall i :: 0 <= i < 5 ==> p[..5][i] == p[i];
      ZeroBytesAreZero(trade.price);
    }
    CutOffReadsZeros(EngineAnswer([trade]), EngineClients([trade], 1, 1, true), n, Prices(0, 1));
  }

  // ---------------------------------------------------------------------
  // A total that does not fit

  const LARGEST: Trade := Trade(0, 0, 0, Decimal(1, 0), Decimal(0xFFFF_FFFF, 127), 0)

  lemma ScannedPair()
    ensures GoodStore([LARGEST, LARGEST])
    ensures Scanned([LARGEST, LARGEST], 0, 1) == [LARGEST, LARGEST]
  {
    var ts := [LARGEST, LARGEST];
    ScannedExactly(ts, 0, 1);
    MatchingAll(ts, 0, 1);
  }

  /** Two trades of the largest quantity are reported as 858993459e-128 instead of 858993459e128. */
  lemma TotalWraps()
    ensures GoodStore([LARGEST, LARGEST]) && Scanned([LARGEST, LARGEST], 0, 1) == [LARGEST, LARGEST]
    ensures SumQuantity([LARGEST, LARGEST]) == Scale(858993459.0, 128)
    ensures WindowSummary([LARGEST, LARGEST], Window(0, 1)).total == Decimal(858993459, -128)
  {
    hide MinPrice, MaxPrice, Mean;
    var ts, x := [LARGEST, LARGEST], Scale(858993459.0, 128);
    ScannedPair();
    SumsOfPair(LARGEST, LARGEST);
    ScaleSum(MAX_MANTISSA, MAX_MANTISSA, 127);
    ScaleTen(858993459.0, 127);
    ScaleSucc(858993459.0, 127);
    ScaleOrder(MAX_MANTISSA, 8589934590.0, 127);
    ScaleOrder(858993459.0, MAX_MANTISSA, 128);
    ScaleOrder(0.0, 858993459.0, 128);
    ScaleAdd(858993459.0, 128, -128);
    CanonicalCharacterised(x, Scaled(858993459, 128));
  }
}
