// Cutting a query's time range into resolution-sized windows.
module Splitting {
  import opened Types

  /** Integer ceiling division: the least r with x <= r * y. */
  function IntCeil(x: nat, y: nat): (r: nat)
    requires y > 0
  {
    x / y + (if x % y != 0 then 1 else 0)
  }

  lemma IntCeilIsLeast(x: nat, y: nat)
    requires y > 0
    ensures IntCeil(x, y) * y >= x
    ensures x > 0 ==> IntCeil(x, y) > 0 && (IntCeil(x, y) - 1) * y < x
  {
    var q, r := x / y, x % y;
    assert x == q * y + r;
    assert (q + 1) * y == q * y + y;
    if q > 0 {
      assert (q - 1) * y == q * y - y;
    } else {
      assert q * y == 0;
    }
  }

  lemma MulNonNegative(a: int, b: int)
    requires a >= 0 && b >= 0
    ensures a * b >= 0
  {
  }

  lemma PositiveMultiple(d: int, y: int)
    requires d >= 1 && y > 0
    ensures d * y >= y
    ensures (-d) * y <= -y
  {
    MulNonNegative(d - 1, y);
    assert d * y == (d - 1) * y + y;
  }

  lemma SmallMultiple(d: int, y: int)
    requires y > 0 && -y < d * y < y
    ensures d == 0
  {
    if d > 0 {
      PositiveMultiple(d, y);
    } else if d < 0 {
      PositiveMultiple(-d, y);
    }
  }

  lemma QuotientUnique(x: nat, y: nat, q: nat, r: nat)
    requires 0 <= r < y && x == q * y + r
    ensures x / y == q && x % y == r
  {
    var p, s := x / y, x % y;
    assert x == p * y + s;
    assert (q - p) * y == q * y - p * y;
    SmallMultiple(q - p, y);
  }

  lemma DivideLess(x: nat, y: nat)
    requires 0 < y < x
    ensures x / y == 1 + (x - y) / y
    ensures x % y == (x - y) % y
  {
    var q, r := (x - y) / y, (x - y) % y;
    assert x == (q + 1) * y + r by {
      assert (q + 1) * y == q * y + y;
    }
    QuotientUnique(x, y, q + 1, r);
  }

  lemma IntCeilStep(x: nat, y: nat)
    requires y > 0
    ensures x > y ==> IntCeil(x, y) == 1 + IntCeil(x - y, y)
    ensures 0 < x <= y ==> IntCeil(x, y) == 1
  {
    if x > y {
      DivideLess(x, y);
    }
  }

  datatype Window = Window(start: int, end: int)

  /** The windows of the loop, over unbounded integers. */
  ghost function Windows(s: int, e: int, res: int): seq<Window>
    requires res > 0
    decreases e - s
  {
    if s >= e then []
    else [Window(s, Least(s + res, e))] + Windows(s + res, e, res)
  }

  /** Non-empty windows that follow on from each other and cover [s, e) exactly. */
  ghost predicate Chain(ws: seq<Window>, s: int, e: int) {
    if ws == [] then s == e
    else ws[0].start == s && s < ws[0].end <= e && Chain(ws[1..], ws[0].end, e)
  }

  lemma {:induction false} WindowsFormChain(s: int, e: int, res: int)
    requires res > 0 && s <= e
    ensures Chain(Windows(s, e, res), s, e)
    decreases e - s
  {
    if s < e {
      if s + res < e {
        WindowsFormChain(s + res, e, res);
      }
      assert Windows(s, e, res)[1..] == Windows(s + res, e, res);
    }
  }

  lemma {:induction false} WindowAt(s: int, e: int, res: int, i: nat)
    requires res > 0 && i < |Windows(s, e, res)|
    ensures Windows(s, e, res)[i] == Window(s + i * res, Least(s + i * res + res, e))
    ensures s + i * res < e
    decreases e - s
  {
    if i > 0 {
      WindowAt(s + res, e, res, i - 1);
      assert res + (i - 1) * res == i * res;
    } else {
      assert i * res == 0;
    }
  }

  lemma {:induction false} WindowCount(s: int, e: int, res: int)
    requires res > 0 && s <= e
    ensures |Windows(s, e, res)| == IntCeil(e - s, res)
    decreases e - s
  {
    if s < e {
      IntCeilStep(e - s, res);
      if s + res < e {
        WindowCount(s + res, e, res);
      }
    }
  }

  ghost predicate WellPlaced(ws: seq<Window>, i: nat, e: int, res: int)
    requires i < |ws|
  {
    && ws[i].start < ws[i].end <= ws[i].start + res
    && (if i + 1 < |ws| then ws[i].end == ws[i].start + res == ws[i + 1].start else ws[i].end == e)
  }

  lemma WindowPlaced(s: int, e: int, res: int, i: nat)
    requires res > 0 && s <= e && i < |Windows(s, e, res)|
    ensures WellPlaced(Windows(s, e, res), i, e, res)
  {
    WindowAt(s, e, res, i);
    assert (i + 1) * res == i * res + res;
    if i + 1 < |Windows(s, e, res)| {
      WindowAt(s, e, res, i + 1);
    } else {
      WindowCount(s, e, res);
      IntCeilIsLeast(e - s, res);
    }
  }

  /** The windows are non-empty, no longer than the resolution, adjacent, and end at e. */
  lemma WindowShape(s: int, e: int, res: int)
    requires res > 0 && s < e
    ensures var ws := Windows(s, e, res);
            && |ws| == IntCeil(e - s, res) > 0
            && ws[0].start == s
            && (forall i :: 0 <= i < |ws| ==> WellPlaced(ws, i, e, res))
  {
    WindowCount(s, e, res);
    IntCeilIsLeast(e - s, res);
    forall i | 0 <= i < |Windows(s, e, res)|
      ensures WellPlaced(Windows(s, e, res), i, e, res)
    {
      WindowPlaced(s, e, res, i);
    }
  }

  /** Cutting at a multiple of the resolution splits the windows into two runs. */
  lemma {:induction false} WindowsSplit(s: int, k: nat, e: int, res: int)
    requires res > 0 && s + k * res <= e
    ensures Windows(s, e, res) == Windows(s, s + k * res, res) + Windows(s + k * res, e, res)
    decreases k
  {
    if k == 0 {
      assert k * res == 0;
    } else {
      assert k * res == res + (k - 1) * res;
      assert (k - 1) * res >= 0;
      WindowsSplit(s + res, k - 1, e, res);
    }
  }

  lemma SplitImpliesMultiple(s: int, m: int, e: int, res: int)
    requires res > 0 && s <= m < e
    requires Windows(s, e, res) == Windows(s, m, res) + Windows(m, e, res)
    ensures (m - s) % res == 0
  {
    var k := |Windows(s, m, res)|;
    assert Windows(s, e, res)[k] == Windows(m, e, res)[0];
    WindowAt(s, e, res, k);
    assert m - s == k * res;
    QuotientUnique(m - s, res, k, 0);
  }

  /** And nowhere else, short of the end of the range. */
  lemma SplitsOnlyAtMultiples(s: int, m: int, e: int, res: int)
    requires res > 0 && s <= m < e
    ensures Windows(s, e, res) == Windows(s, m, res) + Windows(m, e, res) <==> (m - s) % res == 0
  {
    if (m - s) % res == 0 {
      var k := (m - s) / res;
      assert k * res == m - s;
      WindowsSplit(s, k, e, res);
    }
    if Windows(s, e, res) == Windows(s, m, res) + Windows(m, e, res) {
      SplitImpliesMultiple(s, m, e, res);
    }
  }

  /** Stepping from s to e by the resolution never leaves the 64-bit range. */
  predicate StaysIn64(s: int, e: int, res: int)
    requires res > 0
    decreases e - s
  {
    s >= e || (s + res < UINT64_LIMIT && StaysIn64(s + res, e, res))
  }

  /** The queries the engine can answer: an empty range, or a stepping that stays in range. */
  predicate Fits(q: Query) {
    q.startTime >= q.endTime ||
    (q.resolution > 0 && StaysIn64(q.startTime, q.endTime, q.resolution))
  }

  lemma {:induction false} StaysIn64InClosedForm(s: int, e: int, res: int)
    requires res > 0 && s < e
    ensures StaysIn64(s, e, res) <==> s + IntCeil(e - s, res) * res < UINT64_LIMIT
    decreases e - s
  {
    var n := IntCeil(e - s, res);
    IntCeilStep(e - s, res);
    if s + res < e {
      StaysIn64InClosedForm(s + res, e, res);
      var m := IntCeil(e - s - res, res);
      assert (1 + m) * res == res + m * res;
      MulNonNegative(m, res);
    } else {
      assert 1 * res == res;
    }
  }

  /** Which queries fit, as a caller can check it before sending. */
  lemma FitsInClosedForm(q: Query)
    ensures Fits(q) <==>
              || q.startTime >= q.endTime
              || (q.resolution > 0 &&
                  q.startTime + IntCeil(q.endTime - q.startTime, q.resolution) * q.resolution < UINT64_LIMIT)
  {
    if q.startTime < q.endTime && q.resolution > 0 {
      StaysIn64InClosedForm(q.startTime, q.endTime, q.resolution);
    }
  }
}
