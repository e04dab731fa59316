// The window loops in 64-bit arithmetic, where start_time + resolution may wrap: the loop
// of the aggregator, and the loop of the worker that calls the aggregator piece by piece.
module Stepping {
  import opened Types
  import opened Splitting
  import opened Codec

  /** start_time at iteration k of the loops, with the wrap of uint64_t. */
  ghost function StartAt(q: Query, k: nat): int {
    (q.startTime + k * q.resolution) % UINT64_LIMIT
  }

  /** end_time at iteration k, after the clamp. */
  ghost function EndAt(q: Query, k: nat): int {
    Least((StartAt(q, k) + q.resolution) % UINT64_LIMIT, q.endTime)
  }

  /** The loop gets to run iteration k. */
  ghost predicate Iterates(q: Query, k: nat) {
    forall j: nat :: j <= k ==> StartAt(q, j) < q.endTime
  }

  lemma MulMonotone(j: nat, k: nat, r: nat)
    requires j <= k
    ensures j * r <= k * r
  {
  }

  lemma SmallModulus(x: int)
    requires 0 <= x < UINT64_LIMIT
    ensures x % UINT64_LIMIT == x
  {
  }

  lemma WrappedModulus(x: int)
    requires UINT64_LIMIT <= x < 2 * UINT64_LIMIT
    ensures x % UINT64_LIMIT == x - UINT64_LIMIT
  {
  }

  lemma FirstIteration(q: Query)
    ensures StartAt(q, 0) == q.startTime
    ensures Iterates(q, 0) <==> q.startTime < q.endTime
    ensures q.startTime >= q.endTime ==> forall k: nat :: !Iterates(q, k)
  {
    assert 0 * q.resolution == 0;
    SmallModulus(q.startTime);
    forall k: nat | Iterates(q, k)
      ensures q.startTime < q.endTime
    {
      var j: nat := 0;
      assert j <= k;
      assert StartAt(q, j) < q.endTime;
    }
  }

  // ---------------------------------------------------------------------
  // The aggregator, called on a whole query

  lemma IterationsWithoutWrap(q: Query, k: nat)
    requires q.startTime < q.endTime && Fits(q)
    requires k <= IntCeil(q.endTime - q.startTime, q.resolution)
    ensures StartAt(q, k) == q.startTime + k * q.resolution
  {
    FitsInClosedForm(q);
    MulMonotone(k, IntCeil(q.endTime - q.startTime, q.resolution), q.resolution);
  }

  /** The iterations of a fitting query are its windows. */
  lemma IterationIsWindow(q: Query, k: nat)
    requires q.startTime < q.endTime && Fits(q)
    ensures Iterates(q, k) <==> k < |Windows(q.startTime, q.endTime, q.resolution)|
    ensures Iterates(q, k) ==>
              Windows(q.startTime, q.endTime, q.resolution)[k] == Window(StartAt(q, k), EndAt(q, k))
  {
    var s, e, res := q.startTime, q.endTime, q.resolution;
    var n := IntCeil(e - s, res);
    WindowCount(s, e, res);
    IntCeilIsLeast(e - s, res);
    if k < n {
      forall j: nat | j <= k
        ensures StartAt(q, j) < e
      {
        IterationsWithoutWrap(q, j);
        WindowAt(s, e, res, j);
      }
      IterationsWithoutWrap(q, k);
      IterationsWithoutWrap(q, k + 1);
      assert (k + 1) * res == k * res + res;
      WindowAt(s, e, res, k);
    } else {
      IterationsWithoutWrap(q, n);
      assert StartAt(q, n) >= e;
    }
  }

  /** Every range handed to a metric function is non-empty: assert(end_time > start_time) holds. */
  ghost predicate AssertsHold(chooser: bv8, q: Query) {
    AnyMetric(chooser) ==> forall k: nat :: Iterates(q, k) ==> StartAt(q, k) < EndAt(q, k)
  }

  lemma WrapBreaksAssert(chooser: bv8, q: Query)
    requires AnyMetric(chooser) && q.startTime < q.endTime && q.resolution > 0 && !Fits(q)
    ensures !AssertsHold(chooser, q)
  {
    var s, e, res := q.startTime, q.endTime, q.resolution;
    var k := IntCeil(e - s, res) - 1;
    FitsInClosedForm(q);
    IntCeilIsLeast(e - s, res);
    assert (k + 1) * res == k * res + res;
    assert s + k * res < e;
    forall j: nat | j <= k
      ensures StartAt(q, j) == s + j * res < e
    {
      MulMonotone(j, k, res);
      SmallModulus(s + j * res);
    }
    WrappedModulus(StartAt(q, k) + res);
    assert Iterates(q, k) && EndAt(q, k) <= StartAt(q, k);
  }

  lemma ZeroResolutionBreaksAssert(chooser: bv8, q: Query)
    requires AnyMetric(chooser) && q.startTime < q.endTime && q.resolution == 0
    ensures !AssertsHold(chooser, q)
  {
    FirstIteration(q);
    SmallModulus(q.startTime);
    assert Iterates(q, 0) && !(StartAt(q, 0) < EndAt(q, 0));
  }

  lemma FittingKeepsAssert(chooser: bv8, q: Query)
    requires q.startTime < q.endTime && Fits(q)
    ensures AssertsHold(chooser, q)
  {
    WindowShape(q.startTime, q.endTime, q.resolution);
    var ws := Windows(q.startTime, q.endTime, q.resolution);
    forall k: nat | Iterates(q, k)
      ensures StartAt(q, k) < EndAt(q, k)
    {
      IterationIsWindow(q, k);
      assert WellPlaced(ws, k, q.endTime, q.resolution);
    }
  }

  /** Called on a whole query, the aggregator never fails the assertion exactly in these cases. */
  lemma AssertsHoldExactly(chooser: bv8, q: Query)
    ensures AssertsHold(chooser, q) <==> Fits(q) || !AnyMetric(chooser)
  {
    if AnyMetric(chooser) {
      if q.startTime >= q.endTime {
        FirstIteration(q);
      } else if q.resolution == 0 {
        ZeroResolutionBreaksAssert(chooser, q);
      } else if Fits(q) {
        FittingKeepsAssert(chooser, q);
      } else {
        WrapBreaksAssert(chooser, q);
      }
    }
  }

  // ---------------------------------------------------------------------
  // The worker, which calls the aggregator once per iteration

  function NextStart(t: int, res: int): int {
    (t + res) % UINT64_LIMIT
  }

  /** The end of the interval that starts at t, after the clamp. */
  function IntervalEnd(t: int, e: int, res: int): int {
    Least(NextStart(t, res), e)
  }

  /** From t the loop is over after at most k more iterations. */
  ghost predicate StopsWithin(t: int, e: int, res: int, k: nat)
    decreases k
  {
    t >= e || (k > 0 && StopsWithin(NextStart(t, res), e, res, k - 1))
  }

  /** The worker's loop comes to an end. */
  ghost predicate Returns(q: Query) {
    exists k: nat :: StopsWithin(q.startTime, q.endTime, q.resolution, k)
  }

  /** The non-empty intervals from t on; an interval that wraps ends before it starts. */
  ghost function IntervalWindows(t: int, e: int, res: int, k: nat): (ws: seq<Window>)
    requires StopsWithin(t, e, res, k)
    ensures forall i :: 0 <= i < |ws| ==> ws[i].start < ws[i].end
    decreases k
  {
    if t >= e then []
    else
      var end, rest := IntervalEnd(t, e, res), IntervalWindows(NextStart(t, res), e, res, k - 1);
      if t < end then [Window(t, end)] + rest else rest
  }

  lemma {:induction false} IntervalWindowsAnyBound(t: int, e: int, res: int, j: nat, k: nat)
    requires StopsWithin(t, e, res, j) && StopsWithin(t, e, res, k)
    ensures IntervalWindows(t, e, res, j) == IntervalWindows(t, e, res, k)
    decreases j
  {
    if t < e {
      IntervalWindowsAnyBound(NextStart(t, res), e, res, j - 1, k - 1);
    }
  }

  /** The windows whose records the worker puts into its answer. */
  ghost function WorkerWindows(q: Query): (ws: seq<Window>)
    requires Returns(q)
    ensures forall i :: 0 <= i < |ws| ==> ws[i].start < ws[i].end
  {
    var k: nat :| StopsWithin(q.startTime, q.endTime, q.resolution, k);
    IntervalWindows(q.startTime, q.endTime, q.resolution, k)
  }

  /** A non-empty interval did not wrap. */
  lemma IntervalStaysIn64(t: int, e: int, res: int)
    requires 0 <= t < UINT64_LIMIT && 0 <= res < UINT64_LIMIT && t < IntervalEnd(t, e, res)
    ensures res > 0 && t + res < UINT64_LIMIT && IntervalEnd(t, e, res) == Least(t + res, e)
  {
    if t + res >= UINT64_LIMIT {
      WrappedModulus(t + res);
    } else {
      SmallModulus(t + res);
    }
  }

  lemma {:induction false} IntervalWindowsStayIn64(t: int, e: int, res: int, k: nat)
    requires 0 <= t < UINT64_LIMIT && 0 <= res < UINT64_LIMIT && StopsWithin(t, e, res, k)
    ensures forall w :: w in IntervalWindows(t, e, res, k) ==> w.start + res < UINT64_LIMIT
    decreases k
  {
    if t < e {
      IntervalWindowsStayIn64(NextStart(t, res), e, res, k - 1);
      if t < IntervalEnd(t, e, res) {
        IntervalStaysIn64(t, e, res);
      }
    }
  }

  lemma {:induction false} IntervalsInRange(t: int, e: int, res: int, k: nat)
    requires 0 <= t && StopsWithin(t, e, res, k)
    ensures forall w :: w in IntervalWindows(t, e, res, k) ==> 0 <= w.start < w.end <= e
    decreases k
  {
    if t < e {
      IntervalsInRange(NextStart(t, res), e, res, k - 1);
    }
  }

  lemma WorkerWindowsInRange(q: Query)
    requires Returns(q)
    ensures forall w :: w in WorkerWindows(q) ==> 0 <= w.start < w.end <= q.endTime
  {
    var s, e, res := q.startTime, q.endTime, q.resolution;
    var k: nat :| StopsWithin(s, e, res, k) && WorkerWindows(q) == IntervalWindows(s, e, res, k);
    IntervalsInRange(s, e, res, k);
  }

  lemma {:induction false} FittingIntervals(t: int, e: int, res: int, k: nat)
    requires 0 <= t && res > 0 && StaysIn64(t, e, res) && e - t <= k
    ensures StopsWithin(t, e, res, k)
    ensures IntervalWindows(t, e, res, k) == Windows(t, e, res)
    decreases k
  {
    if t < e {
      SmallModulus(t + res);
      FittingIntervals(t + res, e, res, k - 1);
    }
  }

  lemma FittingReturns(q: Query)
    requires Fits(q)
    ensures Returns(q)
    ensures q.startTime >= q.endTime ==> WorkerWindows(q) == []
    ensures q.startTime < q.endTime ==> WorkerWindows(q) == Windows(q.startTime, q.endTime, q.resolution)
  {
    var s, e, res := q.startTime, q.endTime, q.resolution;
    if s >= e {
      assert StopsWithin(s, e, res, 0);
    } else {
      FittingIntervals(s, e, res, e - s);
      assert StopsWithin(s, e, res, e - s);
    }
    var k: nat :| StopsWithin(s, e, res, k) && WorkerWindows(q) == IntervalWindows(s, e, res, k);
    if s < e {
      IntervalWindowsAnyBound(s, e, res, k, e - s);
    }
  }

  lemma LastWindowWraps(q: Query) returns (w: Window)
    requires q.startTime < q.endTime && q.resolution > 0 && !Fits(q)
    ensures w in Windows(q.startTime, q.endTime, q.resolution) && w.start + q.resolution >= UINT64_LIMIT
  {
    var s, e, res := q.startTime, q.endTime, q.resolution;
    FitsInClosedForm(q);
    WindowShape(s, e, res);
    var n := |Windows(s, e, res)|;
    WindowAt(s, e, res, n - 1);
    assert n * res == (n - 1) * res + res;
    w := Windows(s, e, res)[n - 1];
  }

  lemma ForeignWindows(q: Query)
    requires Returns(q) && q.startTime < q.endTime && q.resolution > 0 && !Fits(q)
    ensures WorkerWindows(q) != Windows(q.startTime, q.endTime, q.resolution)
  {
    var s, e, res := q.startTime, q.endTime, q.resolution;
    var k: nat :| StopsWithin(s, e, res, k) && WorkerWindows(q) == IntervalWindows(s, e, res, k);
    IntervalWindowsStayIn64(s, e, res, k);
    var w := LastWindowWraps(q);
    assert w !in WorkerWindows(q);
  }

  /** The worker comes to an end and answers a query by that query's own windows. */
  ghost predicate AnsweredByOwnWindows(q: Query) {
    && Returns(q)
    && if q.startTime >= q.endTime then WorkerWindows(q) == []
       else q.resolution > 0 && WorkerWindows(q) == Windows(q.startTime, q.endTime, q.resolution)
  }

  /** Which is so exactly for the queries that fit. */
  lemma OwnWindowsExactly(q: Query)
    ensures AnsweredByOwnWindows(q) <==> Fits(q)
  {
    if Fits(q) {
      FittingReturns(q);
    } else if Returns(q) && q.resolution > 0 {
      ForeignWindows(q);
    }
  }

  const SKEWED: Query := Query(0, 0x8000_0000_0000_0000, 0x8000_0000_0000_0001, 0x8000_0000_0000_0005, 1)

  /** A query that does not fit and is answered all the same, by a window that begins before it. */
  lemma AnsweredByForeignWindow()
    ensures !Fits(SKEWED) && Returns(SKEWED)
    ensures WorkerWindows(SKEWED) == [Window(5, SKEWED.endTime)]
  {
    var s, e, res := SKEWED.startTime, SKEWED.endTime, SKEWED.resolution;
    var t := e + 9;
    assert NextStart(s, res) == 5 && NextStart(5, res) == t;
    assert StopsWithin(t, e, res, 0);
    assert StopsWithin(5, e, res, 1);
    assert StopsWithin(s, e, res, 2);
    assert IntervalWindows(t, e, res, 0) == [];
    assert IntervalWindows(5, e, res, 1) == [Window(5, e)];
    assert IntervalWindows(s, e, res, 2) == [Window(5, e)];
    var k: nat :| StopsWithin(s, e, res, k) && WorkerWindows(SKEWED) == IntervalWindows(s, e, res, k);
    IntervalWindowsAnyBound(s, e, res, k, 2);
  }

  // ---------------------------------------------------------------------
  // On which queries the worker's loop ends, in closed form

  /** The greatest power of two, up to 2^bits, that divides n. */
  function LowestBit(n: nat, bits: nat): (g: nat)
    ensures g > 0
  {
    if bits == 0 || n % 2 == 1 then 1 else 2 * LowestBit(n / 2, bits - 1)
  }

  lemma LimitIsPow2()
    ensures Pow2(64) == UINT64_LIMIT
  {
    assert Pow2(8) == 0x100;
    assert Pow2(16) == 0x1_0000;
    assert Pow2(24) == 0x100_0000;
    assert Pow2(32) == 0x1_0000_0000;
    assert Pow2(40) == 0x100_0000_0000;
    assert Pow2(48) == 0x1_0000_0000_0000;
    assert Pow2(56) == 0x100_0000_0000_0000;
  }

  /** It does divide n and 2^bits. */
  lemma {:induction false} LowestBitDivides(n: nat, bits: nat) returns (a: nat, b: nat)
    ensures n == a * LowestBit(n, bits)
    ensures Pow2(bits) == b * LowestBit(n, bits)
  {
    if bits == 0 || n % 2 == 1 {
      a, b := n, Pow2(bits);
    } else {
      a, b := LowestBitDivides(n / 2, bits - 1);
      var g := LowestBit(n / 2, bits - 1);
      assert a * (2 * g) == 2 * (a * g) && b * (2 * g) == 2 * (b * g);
    }
  }

  lemma Doubled(d: int, p: int)
    ensures d * (2 * p) == (2 * d) * p
  {
  }

  lemma BothSides(k: int, n: int, c: int, d: int, p: int)
    requires k * n - c == d * p
    ensures (k + p) * n - c == (d + n) * p
  {
  }

  /** An odd step reaches every residue modulo a power of two. */
  lemma {:induction false} OddStepReaches(n: nat, c: int, bits: nat) returns (k: nat, d: int)
    requires n % 2 == 1
    ensures k * n - c == d * Pow2(bits)
  {
    if bits == 0 {
      k, d := 0, -c;
    } else {
      var p := Pow2(bits - 1);
      k, d := OddStepReaches(n, c, bits - 1);
      if d % 2 == 1 {
        BothSides(k, n, c, d, p);
        k, d := k + p, d + n;
      }
      Doubled(d / 2, p);
      d := d / 2;
    }
  }

  lemma Double(k: int, h: int, m: int, g: int, d: int, p: int)
    requires k * h - m * g == d * p
    ensures k * (2 * h) - m * (2 * g) == d * (2 * p)
  {
    Doubled(k, h);
    Doubled(m, g);
    Doubled(d, p);
    assert (2 * k) * h == 2 * (k * h) && (2 * m) * g == 2 * (m * g) && (2 * d) * p == 2 * (d * p);
  }

  /** A step reaches every multiple of its lowest bit. */
  lemma {:induction false} StepReaches(n: nat, m: int, bits: nat) returns (k: nat, d: int)
    ensures k * n - m * LowestBit(n, bits) == d * Pow2(bits)
    decreases bits
  {
    if bits == 0 {
      k, d := 0, -m;
    } else if n % 2 == 1 {
      k, d := OddStepReaches(n, m, bits);
    } else {
      k, d := StepReaches(n / 2, m, bits - 1);
      Double(k, n / 2, m, LowestBit(n / 2, bits - 1), d, Pow2(bits - 1));
    }
  }

  /** The greatest start the loop can come to. */
  function GreatestStart(q: Query): int {
    var g := LowestBit(q.resolution, 64);
    UINT64_LIMIT - g + q.startTime % g
  }

  lemma ModulusOfSum(x: int, y: int)
    ensures (x % UINT64_LIMIT + y) % UINT64_LIMIT == (x + y) % UINT64_LIMIT
  {
    var a, r := x / UINT64_LIMIT, x % UINT64_LIMIT;
    assert x == a * UINT64_LIMIT + r;
    var b, t := (r + y) / UINT64_LIMIT, (r + y) % UINT64_LIMIT;
    assert x + y == (a + b) * UINT64_LIMIT + t;
  }

  lemma NextStartAt(q: Query, k: nat)
    ensures NextStart(StartAt(q, k), q.resolution) == StartAt(q, k + 1)
  {
    assert (k + 1) * q.resolution == k * q.resolution + q.resolution;
    ModulusOfSum(q.startTime + k * q.resolution, q.resolution);
  }

  lemma {:induction false} StopsFrom(q: Query, i: nat, j: nat)
    requires i <= j && StartAt(q, j) >= q.endTime
    ensures StopsWithin(StartAt(q, i), q.endTime, q.resolution, j - i)
    decreases j - i
  {
    if i < j {
      NextStartAt(q, i);
      StopsFrom(q, i + 1, j);
    }
  }

  lemma {:induction false} StopFound(q: Query, i: nat, k: nat) returns (j: nat)
    requires StopsWithin(StartAt(q, i), q.endTime, q.resolution, k)
    ensures StartAt(q, j) >= q.endTime
    decreases k
  {
    if StartAt(q, i) >= q.endTime {
      j := i;
    } else {
      NextStartAt(q, i);
      j := StopFound(q, i + 1, k - 1);
    }
  }

  lemma MultipleBelow(a: int, b: int, g: int)
    requires g > 0 && a * g < b * g
    ensures a * g <= b * g - g
  {
    assert (b - a) * g == b * g - a * g;
    if b - a <= 0 {
      MulNonNegative(a - b, g);
    } else {
      PositiveMultiple(b - a, g);
    }
  }

  lemma Collect(i: int, k: int, a: int, w: int, b: int, g: int)
    ensures (i + k * a - w * b) * g == i * g + k * (a * g) - w * (b * g)
  {
    assert (k * a) * g == k * (a * g);
    assert (w * b) * g == w * (b * g);
  }

  lemma GreatestStartIsGreatest(q: Query, k: nat)
    ensures StartAt(q, k) <= GreatestStart(q)
  {
    var g := LowestBit(q.resolution, 64);
    var a, b := LowestBitDivides(q.resolution, 64);
    LimitIsPow2();
    var s, x, r := q.startTime, StartAt(q, k), q.startTime % g;
    var w := (s + k * q.resolution) / UINT64_LIMIT;
    var m := s / g + k * a - w * b;
    assert x == s + k * q.resolution - w * UINT64_LIMIT;
    assert s == s / g * g + r;
    Collect(s / g, k, a, w, b, g);
    assert x == m * g + r;
    MultipleBelow(m, b, g);
  }

  lemma ModulusUnique(n: int, d: int, x: int)
    requires n == d * UINT64_LIMIT + x && 0 <= x < UINT64_LIMIT
    ensures n % UINT64_LIMIT == x
  {
  }

  lemma GreatestStartIsReached(q: Query) returns (k: nat)
    ensures StartAt(q, k) == GreatestStart(q)
  {
    var g := LowestBit(q.resolution, 64);
    var a, b := LowestBitDivides(q.resolution, 64);
    LimitIsPow2();
    var s, r, x := q.startTime, q.startTime % g, GreatestStart(q);
    var m := b - 1 - s / g;
    assert m * g == b * g - g - s / g * g;
    assert s == s / g * g + r;
    assert x == s + m * g;
    var d;
    k, d := StepReaches(q.resolution, m, 64);
    assert s + k * q.resolution == d * UINT64_LIMIT + x;
    assert 0 <= x < UINT64_LIMIT;
    ModulusUnique(s + k * q.resolution, d, x);
  }

  /**
   * The worker comes to an end on exactly the queries whose end is not past the greatest
   * start congruent to theirs modulo the lowest set bit of the resolution.
   */
  lemma ReturnsExactly(q: Query)
    ensures Returns(q) <==> q.endTime <= GreatestStart(q)
  {
    hide GreatestStart;
    FirstIteration(q);
    if q.endTime <= GreatestStart(q) {
      var k := GreatestStartIsReached(q);
      StopsFrom(q, 0, k);
    }
    if Returns(q) {
      var k: nat :| StopsWithin(q.startTime, q.endTime, q.resolution, k);
      var j := StopFound(q, 0, k);
      GreatestStartIsGreatest(q, j);
    }
  }
}
