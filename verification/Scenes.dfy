// Runs of one connection, scene by scene, for any answers and any number of workers.
module Scenes {
  import opened Types
  import opened Client
  import opened Server
  import opened Pipeline
  import opened Connections

  /** What there is to see of a system with one connection, number 1, and at most one busy worker. */
  datatype Scene = Scene(
    peer: Peer,
    open: bool,
    kept: Option<OutBuffer>,
    wire: Bytes,
    served: seq<Bytes>,
    workQueue: seq<WorkItem>,
    worker: Option<WorkItem>,
    results: seq<ResultItem>)

  function Crew(n: nat, worker: Option<WorkItem>): seq<Option<WorkItem>> {
    seq(n, i => if i == 0 then worker else None)
  }

  ghost predicate Shows(s: Sys, n: nat, c: Scene) {
    && s.server.workQueue == c.workQueue && s.server.resultsQueue == c.results
    && s.server.writeBuffers == (if c.kept.Some? then map[1 := c.kept.value] else map[])
    && s.server.interest == (if c.open then map[1 := c.kept.Some?] else map[])
    && s.server.wire == map[1 := c.wire]
    && s.workers == Crew(n, c.worker)
    && s.peers == map[1 := c.peer] && s.served == map[1 := c.served]
  }

  /** Some run leads to this scene. */
  ghost predicate Attained(answer: Query -> Bytes, d: Discipline, n: nat, c: Scene) {
    exists s :: Reachable(answer, d, s) && Shows(s, n, c)
  }

  lemma Advance(answer: Query -> Bytes, d: Discipline, s: Sys, a: Action, n: nat, c: Scene)
    requires Reachable(answer, d, s) && Enabled(s, a) && Obeys(d, s, a)
    requires Shows(Apply(answer, s, a), n, c)
    ensures Attained(answer, d, n, c)
  {
    hide Apply, Enabled, Obeys, Reachable, Shows;
    ReachableStep(answer, d, s, a);
  }

  const NEWCOMER: Peer := Peer([], [], [], 0)
  const CONNECTED: Scene := Scene(NEWCOMER, true, None, [], [], [], None, [])

  lemma Connects(answer: Query -> Bytes, d: Discipline, n: nat)
    ensures Attained(answer, d, n, CONNECTED)
  {
    var s := Initial(Crew(n, None));
    assert Init(s) && Run(answer, d, s, [], s);
    Advance(answer, d, s, Connect(1), n, CONNECTED);
  }

  /** The number of a closed connection is given out again. */
  lemma Reconnects(answer: Query -> Bytes, d: Discipline, n: nat, c: Scene)
    requires Attained(answer, d, n, c) && !d.quiet && !c.open && c.kept == None
    ensures Attained(answer, d, n, c.(peer := NEWCOMER, open := true, wire := [], served := []))
  {
    hide Reachable;
    var s :| Reachable(answer, d, s) && Shows(s, n, c);
    Advance(answer, d, s, Connect(1), n, c.(peer := NEWCOMER, open := true, wire := [], served := []));
  }

  lemma Asks(answer: Query -> Bytes, d: Discipline, n: nat, c: Scene, q: Query)
    requires Attained(answer, d, n, c) && c.open
    requires MayAsk(d, q) && |c.peer.asked| < |c.peer.answers| + d.limit
    ensures Attained(answer, d, n, c.(peer := c.peer.(asked := c.peer.asked + [q], inbox := c.peer.inbox + [q])))
  {
    hide Reachable;
    var s :| Reachable(answer, d, s) && Shows(s, n, c);
    Advance(answer, d, s, Ask(1, q), n, c.(peer := c.peer.(asked := c.peer.asked + [q], inbox := c.peer.inbox + [q])));
  }

  lemma Receives(answer: Query -> Bytes, d: Discipline, n: nat, c: Scene)
    requires Attained(answer, d, n, c) && c.open
    ensures Attained(answer, d, n,
                     c.(peer := c.peer.(inbox := []), workQueue := c.workQueue + WorkItems(1, c.peer.inbox)))
  {
    hide Reachable;
    var s :| Reachable(answer, d, s) && Shows(s, n, c);
    Advance(answer, d, s, Receive(1, WouldBlock), n,
            c.(peer := c.peer.(inbox := []), workQueue := c.workQueue + WorkItems(1, c.peer.inbox)));
  }

  lemma Leaves(answer: Query -> Bytes, d: Discipline, n: nat, c: Scene)
    requires Attained(answer, d, n, c) && c.open && c.peer.inbox == []
    ensures Attained(answer, d, n, c.(open := false, kept := None))
  {
    hide Reachable;
    var s :| Reachable(answer, d, s) && Shows(s, n, c);
    Advance(answer, d, s, Receive(1, PeerClosed), n, c.(open := false, kept := None));
  }

  /** A worker takes the head of the work queue and finishes it. */
  lemma Serves(answer: Query -> Bytes, d: Discipline, n: nat, c: Scene)
    requires Attained(answer, d, n, c) && n > 0 && c.workQueue != [] && c.worker == None
    ensures Attained(answer, d, n,
                     c.(workQueue := c.workQueue[1..], results := c.results + [Token(answer, c.workQueue[0])]))
  {
    hide Reachable;
    var s :| Reachable(answer, d, s) && Shows(s, n, c);
    var busy := c.(workQueue := c.workQueue[1..], worker := Some(c.workQueue[0]));
    assert Crew(n, None)[0 := busy.worker] == Crew(n, busy.worker);
    Advance(answer, d, s, Take(0), n, busy);
    var t :| Reachable(answer, d, t) && Shows(t, n, busy);
    assert Crew(n, busy.worker)[0 := None] == Crew(n, None);
    Advance(answer, d, t, Finish(0), n,
            c.(workQueue := c.workQueue[1..], results := c.results + [Token(answer, c.workQueue[0])]));
  }

  /** The scene after the head of the results queue went out, n bytes of its payload accepted. */
  function SentScene(c: Scene, n: nat): Scene
    requires c.results != []
  {
    var p := c.results[0].res;
    c.(results := c.results[1..],
       kept := if n < |p| then Some(OutBuffer(p, n)) else c.kept,
       wire := c.wire + CountBytes(|p|) + p[..Least(n, |p|)],
       served := c.served + [p])
  }

  lemma Sends(answer: Query -> Bytes, d: Discipline, n: nat, c: Scene, accepted: nat)
    requires Attained(answer, d, n, c) && c.open && c.results != [] && c.results[0].fd == 1
    ensures Attained(answer, d, n, SentScene(c, accepted))
  {
    hide Reachable;
    var s :| Reachable(answer, d, s) && Shows(s, n, c);
    Advance(answer, d, s, Send(Accepts(accepted)), n, SentScene(c, accepted));
  }

  lemma WritesRest(answer: Query -> Bytes, d: Discipline, n: nat, c: Scene)
    requires Attained(answer, d, n, c) && c.open && c.kept.Some? && c.kept.value.sent == 0
    ensures Attained(answer, d, n, c.(kept := None, wire := c.wire + c.kept.value.buffer))
  {
    hide Reachable;
    var s :| Reachable(answer, d, s) && Shows(s, n, c);
    var size := |c.kept.value.buffer|;
    assert c.kept.value.buffer[0..size] == c.kept.value.buffer;
    Advance(answer, d, s, Write(1, Some(size)), n, c.(kept := None, wire := c.wire + c.kept.value.buffer));
  }

  lemma WriteFails(answer: Query -> Bytes, d: Discipline, n: nat, c: Scene)
    requires Attained(answer, d, n, c) && c.open && c.kept.Some?
    ensures Attained(answer, d, n, c.(open := false, kept := None))
  {
    hide Reachable;
    var s :| Reachable(answer, d, s) && Shows(s, n, c);
    Advance(answer, d, s, Write(1, None), n, c.(open := false, kept := None));
  }

  lemma Reads(answer: Query -> Bytes, d: Discipline, n: nat, c: Scene, p: Bytes)
    requires Attained(answer, d, n, c) && |p| < INT32_LIMIT
    requires c.peer.consumed == 0 && c.wire == Frame(p)
    ensures Attained(answer, d, n, c.(peer := c.peer.(answers := c.peer.answers + [p], consumed := 4 + |p|)))
  {
    hide Reachable;
    var s :| Reachable(answer, d, s) && Shows(s, n, c);
    assert c.wire[0..] == c.wire && c.wire[..4] == CountBytes(|p|) && c.wire[4..4 + |p|] == p;
    CountRoundTrip(|p|);
    Advance(answer, d, s, ReadAnswer(1), n,
            c.(peer := c.peer.(answers := c.peer.answers + [p], consumed := 4 + |p|)));
  }

  // ---------------------------------------------------------------------
  // The runs

  /** The client asked these queries, all have arrived, and nothing was answered. */
  function Waiting(asked: seq<Query>, items: seq<WorkItem>, results: seq<ResultItem>): Scene {
    CONNECTED.(peer := NEWCOMER.(asked := asked), workQueue := items, results := results)
  }

  /** One question, received. */
  lemma OneQuestion(answer: Query -> Bytes, d: Discipline, n: nat, c: Scene, q: Query)
    requires Attained(answer, d, n, c) && MayAsk(d, q) && c.open && c.peer == NEWCOMER
    ensures Attained(answer, d, n, c.(peer := NEWCOMER.(asked := [q]), workQueue := c.workQueue + [WorkItem(1, q)]))
  {
    hide Attained;
    Asks(answer, d, n, c, q);
    var asking := c.(peer := Peer([q], [q], [], 0));
    assert c.(peer := c.peer.(asked := c.peer.asked + [q], inbox := c.peer.inbox + [q])) == asking;
    Receives(answer, d, n, asking);
    assert WorkItems(1, [q]) == [WorkItem(1, q)];
  }

  lemma TwoItems(q1: Query, q2: Query)
    ensures WorkItems(1, [q1, q2]) == [WorkItem(1, q1), WorkItem(1, q2)]
  {
    assert [q1, q2][1..] == [q2];
  }

  /** A client that does not wait: two questions, received together. */
  lemma TwoQuestions(answer: Query -> Bytes, d: Discipline, n: nat, q1: Query, q2: Query)
    requires d.limit >= 2 && MayAsk(d, q1) && MayAsk(d, q2)
    ensures Attained(answer, d, n, Waiting([q1, q2], [WorkItem(1, q1), WorkItem(1, q2)], []))
  {
    hide Attained, WorkItems;
    Connects(answer, d, n);
    Asks(answer, d, n, CONNECTED, q1);
    var once := CONNECTED.(peer := Peer([q1], [q1], [], 0));
    assert CONNECTED.(peer := Peer([] + [q1], [] + [q1], [], 0)) == once;
    Asks(answer, d, n, once, q2);
    var twice := CONNECTED.(peer := Peer([q1, q2], [q1, q2], [], 0));
    assert once.(peer := Peer([q1] + [q2], [q1] + [q2], [], 0)) == twice;
    Receives(answer, d, n, twice);
    TwoItems(q1, q2);
    assert [] + [WorkItem(1, q1), WorkItem(1, q2)] == [WorkItem(1, q1), WorkItem(1, q2)];
  }

  /** A client that leaves with its question in the work queue, and a second one on its number. */
  lemma NumberReused(answer: Query -> Bytes, d: Discipline, n: nat, q1: Query)
    requires !d.quiet && MayAsk(d, q1)
    ensures Attained(answer, d, n, Waiting([], [WorkItem(1, q1)], []))
  {
    hide Attained;
    Connects(answer, d, n);
    OneQuestion(answer, d, n, CONNECTED, q1);
    var left := CONNECTED.(peer := NEWCOMER.(asked := [q1]), workQueue := [] + [WorkItem(1, q1)]);
    Leaves(answer, d, n, left);
    Reconnects(answer, d, n, left.(open := false, kept := None));
    assert left.(peer := NEWCOMER) == Waiting([], [WorkItem(1, q1)], []);
  }

  /** Either way two answers of one connection come to wait in the results queue. */
  lemma TwoResults(answer: Query -> Bytes, d: Discipline, n: nat, q1: Query, q2: Query) returns (asked: seq<Query>)
    requires n > 0 && MayAsk(d, q1) && MayAsk(d, q2) && (d.limit >= 2 || !d.quiet)
    ensures asked == if d.limit >= 2 then [q1, q2] else [q2]
    ensures Attained(answer, d, n, Waiting(asked, [], [ResultItem(1, answer(q1)), ResultItem(1, answer(q2))]))
  {
    hide Attained;
    var w1, w2 := WorkItem(1, q1), WorkItem(1, q2);
    var r1, r2 := ResultItem(1, answer(q1)), ResultItem(1, answer(q2));
    if d.limit >= 2 {
      asked := [q1, q2];
      TwoQuestions(answer, d, n, q1, q2);
    } else {
      asked := [q2];
      NumberReused(answer, d, n, q1);
      OneQuestion(answer, d, n, Waiting([], [w1], []), q2);
      assert Waiting(asked, [w1] + [w2], []) == Waiting(asked, [w1, w2], []);
    }
    Serves(answer, d, n, Waiting(asked, [w1, w2], []));
    assert Waiting(asked, [w1, w2][1..], [] + [r1]) == Waiting(asked, [w2], [r1]);
    Serves(answer, d, n, Waiting(asked, [w2], [r1]));
    assert Waiting(asked, [w2][1..], [r1] + [r2]) == Waiting(asked, [], [r1, r2]);
  }

  /** k bytes of the first are sent and its payload kept, with the second at the head of the queue. */
  function HeadHeld(asked: seq<Query>, p1: Bytes, k: nat, p2: Bytes): Scene
    requires k <= |p1|
  {
    Waiting(asked, [], [ResultItem(1, p2)])
      .(kept := Some(OutBuffer(p1, k)), wire := CountBytes(|p1|) + p1[..k], served := [p1])
  }

  lemma HeadIsHeld(answer: Query -> Bytes, d: Discipline, n: nat, q1: Query, k: nat, q2: Query)
    returns (asked: seq<Query>)
    requires n > 0 && MayAsk(d, q1) && MayAsk(d, q2) && (d.limit >= 2 || !d.quiet) && k < |answer(q1)|
    ensures asked == if d.limit >= 2 then [q1, q2] else [q2]
    ensures Attained(answer, d, n, HeadHeld(asked, answer(q1), k, answer(q2)))
  {
    hide Attained;
    asked := TwoResults(answer, d, n, q1, q2);
    var p1, p2 := answer(q1), answer(q2);
    var c := Waiting(asked, [], [ResultItem(1, p1), ResultItem(1, p2)]);
    Sends(answer, d, n, c, k);
    assert c.results[1..] == [ResultItem(1, p2)];
    assert [] + CountBytes(|p1|) + p1[..k] == CountBytes(|p1|) + p1[..k];
    assert SentScene(c, k) == HeadHeld(asked, p1, k, p2);
  }

  /** Then the count of the second follows in the middle of the first. */
  lemma CountInTheMiddle(answer: Query -> Bytes, d: Discipline, n: nat, q1: Query, k: nat, q2: Query)
    returns (c: Scene)
    requires n > 0 && MayAsk(d, q1) && MayAsk(d, q2) && d.limit >= 2 && k < |answer(q1)|
    ensures Attained(answer, d, n, c)
    ensures c.peer == NEWCOMER.(asked := [q1, q2])
    ensures c.wire == CountBytes(|answer(q1)|) + answer(q1)[..k] + CountBytes(|answer(q2)|)
  {
    hide Attained;
    var asked := HeadIsHeld(answer, d, n, q1, k, q2);
    var p1, p2 := answer(q1), answer(q2);
    Sends(answer, d, n, HeadHeld(asked, p1, k, p2), 0);
    c := SentScene(HeadHeld(asked, p1, k, p2), 0);
    assert c.wire == CountBytes(|p1|) + p1[..k] + CountBytes(|p2|) + p2[..0];
  }

  /** The second is sent on top of the first: its payload replaces the first one's, which is lost. */
  lemma BytesLost(answer: Query -> Bytes, d: Discipline, n: nat, q: Query) returns (c: Scene)
    requires n > 0 && MayAsk(d, q) && d.limit >= 2 && answer(q) != []
    ensures Attained(answer, d, n, c)
    ensures c.open && c.kept == None && c.workQueue == [] && c.worker == None && c.results == []
    ensures c.peer == NEWCOMER.(asked := [q, q]) && |c.wire| < |Frames(AnswersOf(answer, [q, q]))|
  {
    hide Attained;
    var asked := HeadIsHeld(answer, d, n, q, 0, q);
    var p, count := answer(q), CountBytes(|answer(q)|);
    Sends(answer, d, n, HeadHeld(asked, p, 0, p), 0);
    var held := SentScene(HeadHeld(asked, p, 0, p), 0);
    assert held.kept == Some(OutBuffer(p, 0)) && held.wire == count + p[..0] + count + p[..0];
    WritesRest(answer, d, n, held);
    c := held.(kept := None, wire := held.wire + p);
    var payloads := [p, p];
    assert AnswersOf(answer, [q, q]) == payloads;
    assert payloads == [p] + [p] && [p] == [] + [p];
    FramesSnoc([p], p);
    FramesSnoc([], p);
  }

  /** On a reused number, the old client's answer goes out in full to the new one. */
  lemma ForeignAnswerSent(answer: Query -> Bytes, d: Discipline, n: nat, c: Scene, q: Query, rest: seq<WorkItem>)
    requires n > 0 && Attained(answer, d, n, c)
    requires c == Waiting(c.peer.asked, [WorkItem(1, q)] + rest, [])
    ensures Attained(answer, d, n, Waiting(c.peer.asked, rest, []).(wire := Frame(answer(q)), served := [answer(q)]))
  {
    hide Attained;
    var p, r := answer(q), ResultItem(1, answer(q));
    Serves(answer, d, n, c);
    var ready := Waiting(c.peer.asked, rest, [r]);
    assert c.(workQueue := c.workQueue[1..], results := [] + [r]) == ready;
    Sends(answer, d, n, ready, |p|);
    assert [r][1..] == [] && p[..|p|] == p;
    assert [] + CountBytes(|p|) + p == Frame(p);
    assert SentScene(ready, |p|) == Waiting(c.peer.asked, rest, []).(wire := Frame(p), served := [p]);
  }

  lemma ForeignBytes(answer: Query -> Bytes, d: Discipline, n: nat, q: Query)
    requires n > 0 && !d.quiet && MayAsk(d, q)
    ensures Attained(answer, d, n, Waiting([], [], []).(wire := Frame(answer(q)), served := [answer(q)]))
  {
    hide Attained;
    NumberReused(answer, d, n, q);
    assert [WorkItem(1, q)] + [] == [WorkItem(1, q)];
    ForeignAnswerSent(answer, d, n, Waiting([], [WorkItem(1, q)], []), q, []);
  }

  /** And when the new client has asked something of its own, it reads the old client's answer. */
  lemma ForeignAnswerRead(answer: Query -> Bytes, d: Discipline, n: nat, q1: Query, q2: Query) returns (c: Scene)
    requires n > 0 && !d.quiet && MayAsk(d, q1) && MayAsk(d, q2) && |answer(q1)| < INT32_LIMIT
    ensures Attained(answer, d, n, c)
    ensures c.peer.asked == [q2] && c.peer.answers == [answer(q1)]
  {
    hide Attained;
    var w1, w2 := WorkItem(1, q1), WorkItem(1, q2);
    NumberReused(answer, d, n, q1);
    OneQuestion(answer, d, n, Waiting([], [w1], []), q2);
    var both := Waiting([q2], [w1] + [w2], []);
    ForeignAnswerSent(answer, d, n, both, q1, [w2]);
    c := Waiting([q2], [w2], []).(wire := Frame(answer(q1)), served := [answer(q1)]);
    Reads(answer, d, n, c, answer(q1));
    c := c.(peer := c.peer.(answers := [] + [answer(q1)], consumed := 4 + |answer(q1)|));
  }

  /** The count arrives, and then the connection is closed by a failed send. */
  lemma ClosedInMidAnswer(answer: Query -> Bytes, d: Discipline, n: nat, q: Query) returns (c: Scene)
    requires n > 0 && MayAsk(d, q) && answer(q) != []
    ensures Attained(answer, d, n, c)
    ensures !c.open && c.peer == NEWCOMER.(asked := [q]) && c.wire == CountBytes(|answer(q)|)
  {
    hide Attained;
    var p, r := answer(q), ResultItem(1, answer(q));
    Connects(answer, d, n);
    OneQuestion(answer, d, n, CONNECTED, q);
    var asking := CONNECTED.(peer := NEWCOMER.(asked := [q]), workQueue := [] + [WorkItem(1, q)]);
    Serves(answer, d, n, asking);
    var ready := asking.(workQueue := asking.workQueue[1..], results := [] + [r]);
    Sends(answer, d, n, ready, 0);
    c := SentScene(ready, 0);
    assert c.wire == [] + CountBytes(|p|) + p[..0];
    WriteFails(answer, d, n, c);
    c := c.(open := false, kept := None);
  }
}
