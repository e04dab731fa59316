// A worker thread: takes a query, answers it interval by interval, hands the result back.
module Worker {
  import opened Types
  import opened Splitting
  import opened Stepping
  import opened Searching
  import opened Partition
  import opened Codec
  import opened Answers
  import opened Engine
  import opened TsQueues
  import opened Server

  /** The metric bits of a query, packed into the chooser's bits 0, 1 and 2. */
  function MetricList(metrics: bv64): bv8 {
    (if metrics & 1 != 0 then 1 else 0)
    | (if metrics & 0x400_0000 != 0 then 2 else 0)
    | (if metrics & 0x2_0000_0000 != 0 then 4 else 0)
  }

  lemma MetricListBits(metrics: bv64)
    ensures Chosen(MetricList(metrics), 0) <==> metrics & 1 != 0
    ensures Chosen(MetricList(metrics), 1) <==> metrics & 0x400_0000 != 0
    ensures Chosen(MetricList(metrics), 2) <==> metrics & 0x2_0000_0000 != 0
    ensures forall i :: 3 <= i < 8 ==> !Chosen(MetricList(metrics), i)
  {
  }

  /** What a worker returns for a query on which its loop ends: the records of its windows. */
  ghost function WorkerAnswer(ts: seq<Trade>, q: Query): Bytes
    requires GoodStore(ts) && Returns(q)
  {
    EncodeAll(MetricList(q.metrics), WindowSummaries(ts, WorkerWindows(q)))
  }

  /** On a query that fits, that is the aggregator's answer to the whole query. */
  lemma WorkerMatchesAggregator(ts: seq<Trade>, q: Query)
    requires GoodStore(ts) && Fits(q)
    ensures Returns(q) && WorkerWindows(q) == QueryWindows(q)
    ensures WorkerAnswer(ts, q) == Answer(ts, MetricList(q.metrics), q)
  {
    FittingReturns(q);
    AnswerEncodes(ts, MetricList(q.metrics), q);
  }

  // ---------------------------------------------------------------------
  // The loop, which may also be ended by an exception of the engine

  /** The aggregator throws when called on the interval from t. */
  ghost predicate IntervalThrows(ts: seq<Trade>, count: Uint64, chooser: bv8, t: int, e: int, res: int) {
    AnyMetric(chooser) && t < IntervalEnd(t, e, res) && SearchThrows(ts, count, t, IntervalEnd(t, e, res))
  }

  /** From t the loop is over after at most k more iterations, at its end or by an exception. */
  ghost predicate EndsWithin(ts: seq<Trade>, count: Uint64, chooser: bv8, t: int, e: int, res: int, k: nat)
    decreases k
  {
    t >= e
    || (k > 0 && (IntervalThrows(ts, count, chooser, t, e, res)
                  || EndsWithin(ts, count, chooser, NextStart(t, res), e, res, k - 1)))
  }

  /** The records of the interval from t: one, or none if the interval wraps. */
  ghost function IntervalRecords(ts: seq<Trade>, chooser: bv8, t: int, e: int, res: int): Bytes
    requires GoodStore(ts)
  {
    if t < IntervalEnd(t, e, res) then EncodeRecord(chooser, WindowSummary(ts, Window(t, IntervalEnd(t, e, res))))
    else []
  }

  /** What the iterations from t on append to sofar; None if one of them throws. */
  ghost function Outcome(ts: seq<Trade>, count: Uint64, chooser: bv8, sofar: Bytes, t: int, e: int, res: int, k: nat)
    : Option<Bytes>
    requires GoodStore(ts) && EndsWithin(ts, count, chooser, t, e, res, k)
    decreases k
  {
    if t >= e then Some(sofar)
    else if IntervalThrows(ts, count, chooser, t, e, res) then None
    else
      Outcome(ts, count, chooser, sofar + IntervalRecords(ts, chooser, t, e, res), NextStart(t, res), e, res, k - 1)
  }

  lemma {:induction false} OutcomeAnyBound(ts: seq<Trade>, count: Uint64, chooser: bv8, sofar: Bytes,
                                           t: int, e: int, res: int, j: nat, k: nat)
    requires GoodStore(ts)
    requires EndsWithin(ts, count, chooser, t, e, res, j) && EndsWithin(ts, count, chooser, t, e, res, k)
    ensures Outcome(ts, count, chooser, sofar, t, e, res, j) == Outcome(ts, count, chooser, sofar, t, e, res, k)
    decreases j
  {
    hide IntervalThrows, IntervalRecords;
    if t < e && !IntervalThrows(ts, count, chooser, t, e, res) {
      var more := sofar + IntervalRecords(ts, chooser, t, e, res);
      OutcomeAnyBound(ts, count, chooser, more, NextStart(t, res), e, res, j - 1, k - 1);
    }
  }

  /** A worker does not work on this query for ever. */
  ghost predicate Ends(ts: seq<Trade>, count: Uint64, q: Query) {
    exists k: nat :: EndsWithin(ts, count, MetricList(q.metrics), q.startTime, q.endTime, q.resolution, k)
  }

  /** What comes of it: the bytes handed back, or None for an exception. */
  ghost function WorkerOutcome(ts: seq<Trade>, count: Uint64, q: Query): Option<Bytes>
    requires GoodStore(ts) && Ends(ts, count, q)
  {
    var k: nat :| EndsWithin(ts, count, MetricList(q.metrics), q.startTime, q.endTime, q.resolution, k);
    Outcome(ts, count, MetricList(q.metrics), [], q.startTime, q.endTime, q.resolution, k)
  }

  /** Some metric is asked for, and the engine cannot search one of the worker's windows. */
  ghost predicate WorkerThrows(ts: seq<Trade>, count: Uint64, q: Query)
    requires Returns(q)
  {
    AnyMetric(MetricList(q.metrics)) && SomeThrows(ts, count, WorkerWindows(q))
  }

  lemma {:induction false} StoppingEnds(ts: seq<Trade>, count: Uint64, chooser: bv8, t: int, e: int, res: int, k: nat)
    requires StopsWithin(t, e, res, k)
    ensures EndsWithin(ts, count, chooser, t, e, res, k)
    decreases k
  {
    hide IntervalThrows;
    if t < e {
      StoppingEnds(ts, count, chooser, NextStart(t, res), e, res, k - 1);
    }
  }

  lemma AppendRest(ts: seq<Trade>, chooser: bv8, sofar: Bytes, w: Window, rest: seq<Window>)
    requires GoodStore(ts) && Proper([w] + rest) && Proper(rest)
    ensures sofar + EncodeAll(chooser, WindowSummaries(ts, [w] + rest))
         == sofar + EncodeRecord(chooser, WindowSummary(ts, w)) + EncodeAll(chooser, WindowSummaries(ts, rest))
  {
    hide WindowSummary, EncodeRecord;
    var all := [w] + rest;
    assert all[1..] == rest;
    assert WindowSummaries(ts, all)[1..] == WindowSummaries(ts, rest);
    Associate(sofar, EncodeRecord(chooser, WindowSummary(ts, w)), EncodeAll(chooser, WindowSummaries(ts, rest)));
  }

  lemma AppendNone(ts: seq<Trade>, chooser: bv8, sofar: Bytes)
    requires GoodStore(ts)
    ensures sofar + EncodeAll(chooser, WindowSummaries(ts, [])) == sofar
  {
  }

  /** A loop that stops throws exactly if one of its windows does, and else appends their records. */
  lemma {:induction false} StoppingOutcome(ts: seq<Trade>, count: Uint64, chooser: bv8, sofar: Bytes,
                                           t: int, e: int, res: int, k: nat)
    requires GoodStore(ts) && StopsWithin(t, e, res, k) && EndsWithin(ts, count, chooser, t, e, res, k)
    ensures var ws := IntervalWindows(t, e, res, k);
            Outcome(ts, count, chooser, sofar, t, e, res, k) ==
              if AnyMetric(chooser) && SomeThrows(ts, count, ws) then None
              else Some(sofar + EncodeAll(chooser, WindowSummaries(ts, ws)))
    decreases k
  {
    hide SearchThrows, SomeThrows, WindowSummary, EncodeRecord, EncodeAll, WindowSummaries, AnyMetric;
    NoneThrows(ts, count);
    AppendNone(ts, chooser, sofar);
    if t < e {
      var end, next := IntervalEnd(t, e, res), NextStart(t, res);
      var rest := IntervalWindows(next, e, res, k - 1);
      StoppingEnds(ts, count, chooser, next, e, res, k - 1);
      StoppingOutcome(ts, count, chooser, sofar + IntervalRecords(ts, chooser, t, e, res), next, e, res, k - 1);
      if t < end {
        SomeThrowsFirst(ts, count, Window(t, end), rest);
        AppendRest(ts, chooser, sofar, Window(t, end), rest);
      } else {
        assert sofar + [] == sofar;
      }
    }
  }

  lemma {:induction false} EndingStops(ts: seq<Trade>, count: Uint64, chooser: bv8, sofar: Bytes,
                                       t: int, e: int, res: int, k: nat)
    requires GoodStore(ts) && EndsWithin(ts, count, chooser, t, e, res, k)
    requires Outcome(ts, count, chooser, sofar, t, e, res, k).Some?
    ensures StopsWithin(t, e, res, k)
    decreases k
  {
    hide IntervalThrows, IntervalRecords;
    if t < e {
      var more := sofar + IntervalRecords(ts, chooser, t, e, res);
      EndingStops(ts, count, chooser, more, NextStart(t, res), e, res, k - 1);
    }
  }

  /**
   * What a worker does with any query on any store, whatever the record count: it comes to a
   * result exactly if its loop stops and no search of its windows throws; and then the result
   * is the records of its windows.
   */
  lemma WorkerOutcomeExactly(ts: seq<Trade>, count: Uint64, q: Query)
    requires GoodStore(ts)
    ensures Returns(q) ==> Ends(ts, count, q)
    ensures Returns(q) ==>
              WorkerOutcome(ts, count, q) == if WorkerThrows(ts, count, q) then None else Some(WorkerAnswer(ts, q))
    ensures Ends(ts, count, q) && !Returns(q) ==> WorkerOutcome(ts, count, q) == None
  {
    hide SomeThrows, EncodeAll, WindowSummaries, Outcome, EndsWithin, StopsWithin, IntervalWindows, AnyMetric;
    var chooser, s, e, res := MetricList(q.metrics), q.startTime, q.endTime, q.resolution;
    if Returns(q) {
      var k: nat :| StopsWithin(s, e, res, k) && WorkerWindows(q) == IntervalWindows(s, e, res, k);
      StoppingEnds(ts, count, chooser, s, e, res, k);
      StoppingOutcome(ts, count, chooser, [], s, e, res, k);
      assert [] + WorkerAnswer(ts, q) == WorkerAnswer(ts, q);
      var j: nat :| EndsWithin(ts, count, chooser, s, e, res, j)
        && WorkerOutcome(ts, count, q) == Outcome(ts, count, chooser, [], s, e, res, j);
      OutcomeAnyBound(ts, count, chooser, [], s, e, res, j, k);
    } else if Ends(ts, count, q) {
      var j: nat :| EndsWithin(ts, count, chooser, s, e, res, j)
        && WorkerOutcome(ts, count, q) == Outcome(ts, count, chooser, [], s, e, res, j);
      if Outcome(ts, count, chooser, [], s, e, res, j).Some? {
        EndingStops(ts, count, chooser, [], s, e, res, j);
      }
    }
  }

  /** One interval of the loop, as a query to the aggregator. */
  lemma IntervalAnswer(ts: seq<Trade>, count: Uint64, chooser: bv8, q: Query, startTime: Uint64, endTime: Uint64)
    requires GoodStore(ts) && endTime == IntervalEnd(startTime, q.endTime, q.resolution)
    ensures var piece := q.(startTime := startTime, endTime := endTime);
            && Fits(piece)
            && Answer(ts, chooser, piece) == IntervalRecords(ts, chooser, startTime, q.endTime, q.resolution)
            && (AnyMetric(chooser) && SomeThrows(ts, count, QueryWindows(piece))
                <==> IntervalThrows(ts, count, chooser, startTime, q.endTime, q.resolution))
  {
    hide WindowSummary, EncodeRecord, SearchThrows, SomeThrows, AnyMetric;
    NoneThrows(ts, count);
    if startTime < endTime {
      IntervalStaysIn64(startTime, q.endTime, q.resolution);
      assert StaysIn64(startTime + q.resolution, endTime, q.resolution);
      assert AnswerFrom(ts, chooser, startTime + q.resolution, endTime, q.resolution) == [];
      assert Least(startTime + q.resolution, endTime) == endTime;
      assert Windows(startTime, endTime, q.resolution) == [Window(startTime, endTime)] + [];
      SomeThrowsFirst(ts, count, Window(startTime, endTime), []);
    }
  }

  /**
   * The interval loop of the worker: it accumulates what each call of the aggregator returns,
   * and is left by the first exception.
   */
  method AnswerQuery(engine: QueryEngine, query: Query) returns (result: Option<Bytes>)
    requires engine.Valid() && Ends(engine.file, engine.tradesSize, query)
    modifies engine`readCount
    ensures result == WorkerOutcome(engine.file, engine.tradesSize, query)
  {
    hide IntervalRecords, IntervalThrows, Answer, SomeThrows, AnyMetric;
    ghost var file, count := engine.file, engine.tradesSize;
    var metricList := MetricList(query.metrics);
    var accumulated := [];
    var startTime: Uint64 := query.startTime;
    ghost var k: nat :| EndsWithin(file, count, metricList, query.startTime, query.endTime, query.resolution, k)
      && WorkerOutcome(file, count, query)
         == Outcome(file, count, metricList, [], query.startTime, query.endTime, query.resolution, k);
    while startTime < query.endTime
      invariant engine.Valid() && engine.file == file && engine.tradesSize == count
      invariant EndsWithin(file, count, metricList, startTime, query.endTime, query.resolution, k)
      invariant Outcome(file, count, metricList, accumulated, startTime, query.endTime, query.resolution, k)
             == WorkerOutcome(file, count, query)
      decreases k
    {
      var endTime: Uint64 := (startTime + query.resolution) % UINT64_LIMIT;
      if endTime > query.endTime {
        endTime := query.endTime;
      }
      IntervalAnswer(file, count, metricList, query, startTime, endTime);
      var interval := query.(startTime := startTime, endTime := endTime);
      var intervalResult := engine.Aggregator(metricList, interval);
      if intervalResult.None? {
        return None;
      }
      accumulated := accumulated + intervalResult.value;
      startTime := (startTime + query.resolution) % UINT64_LIMIT;
      k := k - 1;
    }
    result := Some(accumulated);
  }

  /**
   * One turn of the worker loop, on a queue with work in it. Not ok stands for an exception,
   * which nothing catches: it ends the process.
   */
  method ServeOne(engine: QueryEngine, workQueue: TsQueue<WorkItem>, resultsQueue: TsQueue<ResultItem>)
    returns (ok: bool)
    requires engine.Valid() && workQueue.items != []
    requires Ends(engine.file, engine.tradesSize, workQueue.items[0].query)
    modifies engine`readCount, workQueue, resultsQueue
    ensures workQueue.items == old(workQueue.items)[1..]
    ensures var work := old(workQueue.items)[0];
            var outcome := WorkerOutcome(engine.file, engine.tradesSize, work.query);
            && ok == outcome.Some?
            && resultsQueue.items == old(resultsQueue.items)
                                     + (if ok then [ResultItem(work.fd, outcome.value)] else [])
  {
    hide Ends;
    var work := workQueue.Pop();
    var buffer := AnswerQuery(engine, work.query);
    if buffer.None? {
      assert resultsQueue.items + [] == resultsQueue.items;
      return false;
    }
    resultsQueue.Push(ResultItem(work.fd, buffer.value));
    ok := true;
  }
}
