// The bytes that answer a query, as a function of the store.
module Answers {
  import opened Types
  import opened Ranges
  import opened Searching
  import opened Summaries
  import opened Splitting
  import opened Partition
  import opened Codec

  /** A store the engine can search: at least one record, in time order. */
  ghost predicate GoodStore(ts: seq<Trade>) {
    ts != [] && SortedByTime(ts)
  }

  ghost function WindowSummary(ts: seq<Trade>, w: Window): Summary
    requires GoodStore(ts) && w.start < w.end
  {
    Summarise(Scanned(ts, w.start, w.end))
  }

  ghost function WindowSummaries(ts: seq<Trade>, ws: seq<Window>): (ss: seq<Summary>)
    requires GoodStore(ts) && Proper(ws)
    ensures |ss| == |ws|
    ensures forall i :: 0 <= i < |ws| ==> ss[i] == WindowSummary(ts, ws[i])
  {
    if ws == [] then []
    else [WindowSummary(ts, ws[0])] + WindowSummaries(ts, ws[1..])
  }

  lemma {:induction false} WindowsAreProper(s: int, e: int, res: int)
    requires res > 0
    ensures Proper(Windows(s, e, res))
    decreases e - s
  {
    if s < e {
      WindowsAreProper(s + res, e, res);
      assert Windows(s, e, res)[1..] == Windows(s + res, e, res);
    }
  }

  /** The windows of a query; none when its range is empty. */
  ghost function QueryWindows(q: Query): (ws: seq<Window>)
    requires Fits(q)
    ensures Proper(ws)
  {
    if q.startTime >= q.endTime then []
    else
      WindowsAreProper(q.startTime, q.endTime, q.resolution);
      Windows(q.startTime, q.endTime, q.resolution)
  }

  /** The engine cannot search one of these windows. */
  ghost predicate SomeThrows(ts: seq<Trade>, count: Uint64, ws: seq<Window>) {
    exists w :: w in ws && SearchThrows(ts, count, w.start, w.end)
  }

  lemma SomeThrowsFirst(ts: seq<Trade>, count: Uint64, w: Window, ws: seq<Window>)
    ensures SomeThrows(ts, count, [w] + ws) <==> SearchThrows(ts, count, w.start, w.end) || SomeThrows(ts, count, ws)
  {
    hide SearchThrows;
    assert w in [w] + ws && forall v :: v in ws ==> v in [w] + ws;
  }

  lemma NoneThrows(ts: seq<Trade>, count: Uint64)
    ensures !SomeThrows(ts, count, [])
  {
  }

  /** The bytes for the windows from s to e. */
  ghost function AnswerFrom(ts: seq<Trade>, chooser: bv8, s: int, e: int, res: int): Bytes
    requires GoodStore(ts) && res > 0
    decreases e - s
  {
    if s >= e then []
    else
      EncodeRecord(chooser, WindowSummary(ts, Window(s, Least(s + res, e))))
      + AnswerFrom(ts, chooser, s + res, e, res)
  }

  lemma {:induction false} AnswerFromStep(ts: seq<Trade>, chooser: bv8, sofar: Bytes, s: int, e: int, res: int)
    requires GoodStore(ts) && res > 0 && s < e
    ensures sofar + AnswerFrom(ts, chooser, s, e, res) ==
              sofar + EncodeRecord(chooser, WindowSummary(ts, Window(s, Least(s + res, e))))
              + AnswerFrom(ts, chooser, s + res, e, res)
  {
    Associate(sofar, EncodeRecord(chooser, WindowSummary(ts, Window(s, Least(s + res, e)))),
              AnswerFrom(ts, chooser, s + res, e, res));
  }

  /** What the aggregator answers to q for the chosen metrics. */
  ghost function Answer(ts: seq<Trade>, chooser: bv8, q: Query): Bytes
    requires GoodStore(ts) && Fits(q)
  {
    if q.startTime >= q.endTime then []
    else AnswerFrom(ts, chooser, q.startTime, q.endTime, q.resolution)
  }

  lemma {:induction false} AnswerFromEncodes(ts: seq<Trade>, chooser: bv8, s: int, e: int, res: int)
    requires GoodStore(ts) && res > 0 && Proper(Windows(s, e, res))
    ensures AnswerFrom(ts, chooser, s, e, res) == EncodeAll(chooser, WindowSummaries(ts, Windows(s, e, res)))
    decreases e - s
  {
    hide WindowSummary, EncodeRecord;
    if s < e {
      var ws, rest := Windows(s, e, res), Windows(s + res, e, res);
      assert ws[1..] == rest;
      WindowsAreProper(s + res, e, res);
      AnswerFromEncodes(ts, chooser, s + res, e, res);
      assert WindowSummaries(ts, ws)[1..] == WindowSummaries(ts, rest);
    }
  }

  /** The answer is the records of the windows' summaries, in order. */
  lemma AnswerEncodes(ts: seq<Trade>, chooser: bv8, q: Query)
    requires GoodStore(ts) && Fits(q)
    ensures Answer(ts, chooser, q) == EncodeAll(chooser, WindowSummaries(ts, QueryWindows(q)))
  {
    if q.startTime < q.endTime {
      WindowsAreProper(q.startTime, q.endTime, q.resolution);
      AnswerFromEncodes(ts, chooser, q.startTime, q.endTime, q.resolution);
    }
  }

  lemma WindowSummariesConcat(ts: seq<Trade>, a: seq<Window>, b: seq<Window>)
    requires GoodStore(ts) && Proper(a) && Proper(b) && Proper(a + b)
    ensures WindowSummaries(ts, a + b) == WindowSummaries(ts, a) + WindowSummaries(ts, b)
  {
  }

  /** One window per resolution step, rounded up, and a fixed record for each. */
  lemma AnswerLength(ts: seq<Trade>, chooser: bv8, q: Query)
    requires GoodStore(ts) && Fits(q) && q.startTime < q.endTime
    ensures |Answer(ts, chooser, q)| == IntCeil(q.endTime - q.startTime, q.resolution) * Stride(chooser)
  {
    WindowCount(q.startTime, q.endTime, q.resolution);
    AnswerEncodes(ts, chooser, q);
    EncodeAllLength(chooser, WindowSummaries(ts, QueryWindows(q)));
  }

  lemma {:induction false} StaysIn64Prefix(s: int, m: int, e: int, res: int)
    requires res > 0 && m <= e && StaysIn64(s, e, res)
    ensures StaysIn64(s, m, res)
    decreases m - s
  {
    if s < m {
      StaysIn64Prefix(s + res, m, e, res);
    }
  }

  lemma FitsPrefix(q: Query, m: Uint64)
    requires Fits(q) && q.startTime <= m <= q.endTime
    ensures Fits(q.(endTime := m))
  {
    if q.startTime < m {
      StaysIn64Prefix(q.startTime, m, q.endTime, q.resolution);
    }
  }

  lemma {:induction false} FitsSuffix(q: Query, k: nat)
    requires Fits(q) && q.startTime + k * q.resolution <= q.endTime
    ensures k * q.resolution >= 0
    ensures Fits(q.(startTime := q.startTime + k * q.resolution))
    decreases k
  {
    MulNonNegative(k, q.resolution);
    if k > 0 && q.startTime < q.endTime {
      assert k * q.resolution == q.resolution + (k - 1) * q.resolution;
      MulNonNegative(k - 1, q.resolution);
      FitsSuffix(q.(startTime := q.startTime + q.resolution), k - 1);
    } else {
      assert k * q.resolution == 0 || q.startTime >= q.endTime;
    }
  }

  lemma QueryWindowsSplit(q: Query, k: nat, m: Uint64)
    requires Fits(q) && m == q.startTime + k * q.resolution <= q.endTime
    requires Fits(q.(endTime := m)) && Fits(q.(startTime := m))
    ensures QueryWindows(q) == QueryWindows(q.(endTime := m)) + QueryWindows(q.(startTime := m))
  {
    if q.startTime < q.endTime {
      WindowsSplit(q.startTime, k, q.endTime, q.resolution);
      assert q.startTime == m ==> Windows(q.startTime, m, q.resolution) == [];
      assert q.endTime == m ==> Windows(m, q.endTime, q.resolution) == [];
      MulNonNegative(k, q.resolution);
    }
  }

  /** Splitting a query at a multiple of its resolution splits its answer there. */
  lemma AnswerSplits(ts: seq<Trade>, chooser: bv8, q: Query, k: nat, m: Uint64)
    requires GoodStore(ts) && Fits(q)
    requires m == q.startTime + k * q.resolution <= q.endTime
    ensures Fits(q.(endTime := m)) && Fits(q.(startTime := m))
    ensures Answer(ts, chooser, q) ==
              Answer(ts, chooser, q.(endTime := m)) + Answer(ts, chooser, q.(startTime := m))
  {
    MulNonNegative(k, q.resolution);
    FitsPrefix(q, m);
    FitsSuffix(q, k);
    QueryWindowsSplit(q, k, m);
    AnswerEncodes(ts, chooser, q);
    AnswerEncodes(ts, chooser, q.(endTime := m));
    AnswerEncodes(ts, chooser, q.(startTime := m));
    var a, b := QueryWindows(q.(endTime := m)), QueryWindows(q.(startTime := m));
    WindowSummariesConcat(ts, a, b);
    EncodeAllConcat(chooser, WindowSummaries(ts, a), WindowSummaries(ts, b));
  }
}
