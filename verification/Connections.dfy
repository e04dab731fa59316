// What holds of one connection at every moment of a run with request/response clients.
module Connections {
  import opened Types
  import opened Codec
  import opened Client
  import opened Server
  import opened Pipeline

  /** Frames one after the other. */
  ghost function Frames(payloads: seq<Bytes>): Bytes {
    if payloads == [] then []
    else Frames(payloads[..|payloads| - 1]) + Frame(payloads[|payloads| - 1])
  }

  function AnswersOf(answer: Query -> Bytes, qs: seq<Query>): (r: seq<Bytes>)
    ensures |r| == |qs| && forall i :: 0 <= i < |qs| ==> r[i] == answer(qs[i])
  {
    seq(|qs|, i requires 0 <= i < |qs| => answer(qs[i]))
  }

  /** Everything the system knows about one connection, but for the items in flight. */
  datatype View = View(
    peer: Peer,
    handed: seq<Bytes>,
    open: bool,
    watched: bool,
    pending: Option<OutBuffer>,
    wire: Bytes)

  /** The kept payload is the last one handed over, cut where the socket stopped. */
  ghost predicate PendingOk(v: View, ob: OutBuffer) {
    var k := |v.handed|;
    && k >= 1
    && ob.buffer == v.handed[k - 1]
    && ob.sent < |ob.buffer|
    && v.wire == Frames(v.handed[..k - 1]) + CountBytes(|ob.buffer|) + ob.buffer[..ob.sent]
  }

  ghost predicate WireOk(v: View) {
    && (v.pending.Some? ==> v.open && PendingOk(v, v.pending.value))
    && (v.open ==> (v.watched <==> v.pending.Some?))
    && (v.open && v.pending.None? ==> v.wire == Frames(v.handed))
    && (!v.open ==> v.wire <= Frames(v.handed))
  }

  /** The client's own bookkeeping: at most one question open, answers read in order. */
  ghost predicate PeerOk(answer: Query -> Bytes, v: View) {
    var n, k, a := |v.peer.asked|, |v.handed|, |v.peer.answers|;
    && a <= k <= n <= a + 1
    && v.handed == AnswersOf(answer, v.peer.asked[..k])
    && v.peer.answers == v.handed[..a]
    && v.peer.consumed == |Frames(v.peer.answers)| <= |v.wire|
    && (forall i :: 0 <= i < n ==> |answer(v.peer.asked[i])| < INT32_LIMIT)
  }

  /** Where the open question is: still unreceived, or the connection's one item in flight. */
  ghost predicate FlightOk(answer: Query -> Bytes, fd: int, inFlight: multiset<ResultItem>, v: View) {
    var n, k := |v.peer.asked|, |v.handed|;
    && (v.peer.inbox == [] || (v.open && n == k + 1 && v.peer.inbox == [v.peer.asked[k]]))
    && (forall x :: x in inFlight && x.fd == fd ==>
          && n == k + 1 && v.peer.inbox == []
          && x == ResultItem(fd, answer(v.peer.asked[k])) && inFlight[x] == 1)
    && (v.open && n == k + 1 && v.peer.inbox == [] ==>
          ResultItem(fd, answer(v.peer.asked[k])) in inFlight)
    && (v.pending.Some? ==> n == k)
  }

  ghost predicate ConnOk(answer: Query -> Bytes, fd: int, inFlight: multiset<ResultItem>, v: View) {
    WireOk(v) && PeerOk(answer, v) && FlightOk(answer, fd, inFlight, v)
  }

  // ---------------------------------------------------------------------
  // Frames on the wire

  lemma FramesSnoc(ps: seq<Bytes>, p: Bytes)
    ensures Frames(ps + [p]) == Frames(ps) + Frame(p)
  {
    assert (ps + [p])[..|ps|] == ps;
  }

  lemma {:induction false} FramesSplit(ps: seq<Bytes>, a: nat)
    requires a <= |ps|
    ensures Frames(ps[..a]) <= Frames(ps)
    ensures a < |ps| ==> Frames(ps[..a]) + Frame(ps[a]) <= Frames(ps)
    decreases |ps|
  {
    if a == |ps| {
      assert ps[..a] == ps;
    } else {
      var init := ps[..|ps| - 1];
      FramesSplit(init, a);
      assert init[..a] == ps[..a];
    }
  }

  /** The wire never runs ahead of the payloads handed over. */
  lemma WireIsPrefix(v: View)
    requires WireOk(v)
    ensures v.wire <= Frames(v.handed)
    ensures v.pending.Some? ==> |v.wire| < |Frames(v.handed)|
  {
    if v.pending.Some? {
      var ob, k := v.pending.value, |v.handed|;
      assert Frame(ob.buffer) == CountBytes(|ob.buffer|) + ob.buffer[..ob.sent] + ob.buffer[ob.sent..];
      assert Frames(v.handed) == v.wire + ob.buffer[ob.sent..];
    }
  }

  // ---------------------------------------------------------------------
  // What each step does to the connection it is about

  /** A client that has read everything has nothing kept or under way. */
  lemma AllRead(answer: Query -> Bytes, v: View)
    requires WireOk(v) && PeerOk(answer, v) && |v.peer.asked| <= |v.peer.answers|
    ensures v.pending == None && |v.handed| == |v.peer.asked| == |v.peer.answers|
  {
    hide PendingOk;
    WireIsPrefix(v);
    assert v.handed[..|v.handed|] == v.handed;
  }

  lemma PeerAsked(answer: Query -> Bytes, v: View, p: Peer, q: Query)
    requires PeerOk(answer, v) && |v.handed| == |v.peer.asked| == |v.peer.answers| && |answer(q)| < INT32_LIMIT
    requires p.asked == v.peer.asked + [q] && p.answers == v.peer.answers && p.consumed == v.peer.consumed
    ensures PeerOk(answer, v.(peer := p))
  {
    assert p.asked[..|v.handed|] == v.peer.asked[..|v.handed|];
    hide Frames, AnswersOf;
  }

  lemma QuestionAsked(answer: Query -> Bytes, fd: int, inFlight: multiset<ResultItem>, v: View, q: Query)
    requires ConnOk(answer, fd, inFlight, v) && v.open
    requires |v.peer.asked| <= |v.peer.answers| && |answer(q)| < INT32_LIMIT
    ensures v.pending == None
    ensures ConnOk(answer, fd, inFlight,
                   v.(peer := v.peer.(asked := v.peer.asked + [q], inbox := v.peer.inbox + [q])))
  {
    AllRead(answer, v);
    var p := v.peer.(asked := v.peer.asked + [q], inbox := v.peer.inbox + [q]);
    PeerAsked(answer, v, p, q);
    hide PeerOk, PendingOk, Frames;
  }

  lemma InboxTaken(answer: Query -> Bytes, fd: int, before: multiset<ResultItem>, after: multiset<ResultItem>, v: View)
    requires ConnOk(answer, fd, before, v) && v.open
    requires v.peer.inbox == [] ==> after == before
    requires v.peer.inbox != [] ==> after == before + multiset{ResultItem(fd, answer(v.peer.inbox[0]))}
    ensures ConnOk(answer, fd, after, v.(peer := v.peer.(inbox := [])))
    ensures ConnOk(answer, fd, after,
                   v.(peer := v.peer.(inbox := []), open := false, watched := false, pending := None))
  {
    WireIsPrefix(v);
  }

  /** The view after send_result, outcome by outcome. */
  ghost function SentView(v: View, payload: Bytes, o: SendOutcome): View {
    var w := v.(handed := v.handed + [payload]);
    if !v.open || o == CountFails then w.(open := false, watched := false)
    else
      match o
      case PayloadFails => w.(wire := v.wire + CountBytes(|payload|), open := false, watched := false)
      case Accepts(n) =>
        var sent := Least(n, |payload|);
        var u := w.(wire := v.wire + CountBytes(|payload|) + payload[..sent]);
        if sent < |payload| then u.(pending := Some(OutBuffer(payload, sent)), watched := true) else u
  }

  lemma SentWire(v: View, payload: Bytes, o: SendOutcome)
    requires WireOk(v) && v.pending == None
    ensures WireOk(SentView(v, payload, o))
  {
    WireIsPrefix(v);
    FramesSnoc(v.handed, payload);
    assert (v.handed + [payload])[..|v.handed|] == v.handed;
    assert payload[..|payload|] == payload;
    assert v.wire + CountBytes(|payload|) + payload == v.wire + Frame(payload);
    assert v.wire <= Frames(v.handed);
    hide Frames, Frame, CountBytes;
  }

  lemma SentPeer(answer: Query -> Bytes, v: View, payload: Bytes, o: SendOutcome)
    requires PeerOk(answer, v) && |v.peer.asked| == |v.handed| + 1
    requires payload == answer(v.peer.asked[|v.handed|])
    ensures PeerOk(answer, SentView(v, payload, o))
  {
    var k := |v.handed|;
    assert v.peer.asked[..k + 1] == v.peer.asked[..k] + [v.peer.asked[k]];
    assert AnswersOf(answer, v.peer.asked[..k + 1]) == AnswersOf(answer, v.peer.asked[..k]) + [payload];
    assert (v.handed + [payload])[..|v.peer.answers|] == v.handed[..|v.peer.answers|];
  }

  /** An item of this connection reaches send_result: there is no kept payload to overwrite. */
  lemma SentOk(answer: Query -> Bytes, fd: int, before: multiset<ResultItem>, after: multiset<ResultItem>, v: View,
               r: ResultItem, o: SendOutcome)
    requires ConnOk(answer, fd, before, v) && r.fd == fd
    requires before == after + multiset{r}
    ensures v.pending == None
    ensures ConnOk(answer, fd, after, SentView(v, r.res, o))
  {
    assert r in before;
    SentWire(v, r.res, o);
    SentPeer(answer, v, r.res, o);
    assert forall x :: x in after ==> x in before && before[x] == after[x] + (if x == r then 1 else 0);
  }

  /** The view after handle_write. */
  ghost function WrittenView(v: View, o: Option<nat>): View
    requires v.pending.Some? && v.pending.value.sent <= |v.pending.value.buffer|
  {
    var ob := v.pending.value;
    if o.None? then v.(open := false, watched := false, pending := None)
    else
      var sent := ob.sent + Least(o.value, |ob.buffer| - ob.sent);
      var w := v.(wire := v.wire + ob.buffer[ob.sent..sent]);
      if sent == |ob.buffer| then w.(pending := None, watched := false)
      else w.(pending := Some(OutBuffer(ob.buffer, sent)))
  }

  lemma ResumedBytes(v: View, ob: OutBuffer, n: nat)
    requires PendingOk(v, ob) && ob.sent + n <= |ob.buffer|
    ensures v.wire + ob.buffer[ob.sent..ob.sent + n] ==
              Frames(v.handed[..|v.handed| - 1]) + CountBytes(|ob.buffer|) + ob.buffer[..ob.sent + n]
    ensures ob.sent + n == |ob.buffer| ==> v.wire + ob.buffer[ob.sent..ob.sent + n] == Frames(v.handed)
  {
    var before, count := Frames(v.handed[..|v.handed| - 1]), CountBytes(|ob.buffer|);
    var first, second := ob.buffer[..ob.sent], ob.buffer[ob.sent..ob.sent + n];
    assert ob.buffer[..ob.sent + n] == first + second;
    Associate(before + count, first, second);
    if ob.sent + n == |ob.buffer| {
      assert ob.buffer[..ob.sent + n] == ob.buffer;
      Associate(before, count, ob.buffer);
    }
  }

  lemma WrittenOk(answer: Query -> Bytes, fd: int, inFlight: multiset<ResultItem>, v: View, o: Option<nat>)
    requires ConnOk(answer, fd, inFlight, v) && v.pending.Some?
    ensures ConnOk(answer, fd, inFlight, WrittenView(v, o))
  {
    hide Frames, AnswersOf;
    if o.Some? {
      var ob := v.pending.value;
      ResumedBytes(v, ob, Least(o.value, |ob.buffer| - ob.sent));
    } else {
      WireIsPrefix(v);
    }
  }

  lemma FrameInside(before: Bytes, payload: Bytes, all: Bytes, wire: Bytes)
    requires wire <= all && before + Frame(payload) <= all && |payload| < INT32_LIMIT
    requires |before| <= |wire| && FrameReady(wire[|before|..])
    ensures SignedCount(wire[|before|..][..4]) == |payload|
    ensures wire[|before|..][4..4 + |payload|] == payload
  {
    var stream := wire[|before|..];
    assert stream[..4] == CountBytes(|payload|) by {
      assert forall i :: 0 <= i < 4 ==> stream[i] == all[|before| + i] == (before + Frame(payload))[|before| + i];
    }
    CountRoundTrip(|payload|);
    forall i | 0 <= i < |payload|
      ensures stream[4..4 + |payload|][i] == payload[i]
    {
      var j := |before| + (4 + i);
      assert all[j] == (before + Frame(payload))[j];
    }
  }

  lemma NextFrame(ps: seq<Bytes>, a: nat, wire: Bytes)
    requires a <= |ps| && wire <= Frames(ps)
    requires forall i :: 0 <= i < |ps| ==> |ps[i]| < INT32_LIMIT
    requires |Frames(ps[..a])| <= |wire| && FrameReady(wire[|Frames(ps[..a])|..])
    ensures a < |ps|
    ensures var stream := wire[|Frames(ps[..a])|..];
            && SignedCount(stream[..4]) == |ps[a]|
            && stream[4..4 + |ps[a]|] == ps[a]
  {
    FramesSplit(ps, a);
    var start := |Frames(ps[..a])|;
    assert ps[..|ps|] == ps;
    if a < |ps| {
      FrameInside(Frames(ps[..a]), ps[a], Frames(ps), wire);
    }
  }

  /** A whole frame at the client's read position is the next answer it is owed. */
  lemma FrameIsNextAnswer(answer: Query -> Bytes, v: View)
    requires WireOk(v) && PeerOk(answer, v)
    requires FrameReady(v.wire[v.peer.consumed..])
    ensures |v.peer.answers| < |v.handed|
    ensures SignedCount(v.wire[v.peer.consumed..][..4]) == |v.handed[|v.peer.answers|]|
    ensures v.wire[v.peer.consumed..][4..4 + |v.handed[|v.peer.answers|]|] == v.handed[|v.peer.answers|]
  {
    hide PendingOk;
    WireIsPrefix(v);
    NextFrame(v.handed, |v.peer.answers|, v.wire);
  }

  lemma PeerHasRead(answer: Query -> Bytes, v: View)
    requires PeerOk(answer, v) && |v.peer.answers| < |v.handed|
    requires v.peer.consumed + 4 + |v.handed[|v.peer.answers|]| <= |v.wire|
    ensures var p := v.handed[|v.peer.answers|];
            PeerOk(answer, v.(peer := v.peer.(answers := v.peer.answers + [p], consumed := v.peer.consumed + 4 + |p|)))
  {
    var a := |v.peer.answers|;
    assert v.handed[..a + 1] == v.handed[..a] + [v.handed[a]];
    FramesSnoc(v.peer.answers, v.handed[a]);
    hide Frames, AnswersOf;
  }

  lemma ReadOk(answer: Query -> Bytes, fd: int, inFlight: multiset<ResultItem>, v: View)
    requires ConnOk(answer, fd, inFlight, v)
    requires FrameReady(v.wire[v.peer.consumed..])
    ensures var stream := v.wire[v.peer.consumed..];
            var count := SignedCount(stream[..4]);
            ConnOk(answer, fd, inFlight,
                   v.(peer := v.peer.(answers := v.peer.answers + [stream[4..4 + count]],
                                      consumed := v.peer.consumed + 4 + count)))
  {
    FrameIsNextAnswer(answer, v);
    PeerHasRead(answer, v);
    hide PeerOk, PendingOk, Frames;
  }

  /** Steps about other connections leave this one's items in flight, and so its standing. */
  lemma Unaffected(answer: Query -> Bytes, fd: int, before: multiset<ResultItem>, after: multiset<ResultItem>, v: View)
    requires ConnOk(answer, fd, before, v)
    requires forall x: ResultItem :: x.fd == fd ==> before[x] == after[x]
    ensures ConnOk(answer, fd, after, v)
  {
    assert forall x: ResultItem :: x.fd == fd ==> (x in before <==> x in after);
  }
}
