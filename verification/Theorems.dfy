// What the invariant gives at every reachable state.
module Theorems {
  import opened Types
  import opened Client
  import opened Server
  import opened Pipeline
  import opened Conservation
  import opened Connections
  import opened Safety

  lemma AnswersOfPrefix(answer: Query -> Bytes, qs: seq<Query>, k: nat)
    requires k <= |qs|
    ensures AnswersOf(answer, qs[..k]) == AnswersOf(answer, qs)[..k]
  {
  }

  /**
   * The bytes put on a connection, open or closed by an error, are a prefix of the frames
   * of the answers to that client's own queries, in the order it asked them.
   */
  lemma WireIsPrefixOfFrames(answer: Query -> Bytes, d: Discipline, t: Sys, fd: int)
    requires RequestResponse(answer, d) && Reachable(answer, d, t) && fd in t.peers
    ensures fd in t.server.wire
    ensures t.server.wire[fd] <= Frames(AnswersOf(answer, t.peers[fd].asked))
  {
    hide Frames, InFlight, Reachable;
    ReachableInv(answer, d, t);
    InvAt(answer, t, fd);
    var v := ViewOf(t, fd);
    WireIsPrefix(v);
    AnswersOfPrefix(answer, v.peer.asked, |v.handed|);
    FramesSplit(AnswersOf(answer, v.peer.asked), |v.handed|);
  }

  /** The step in which a client reads is read_struct on what has arrived. */
  lemma ClientStepReadsFrame(answer: Query -> Bytes, s: Sys, fd: int)
    requires Enabled(s, ReadAnswer(fd))
    ensures var p := s.peers[fd];
            var t := Apply(answer, s, ReadAnswer(fd));
            && ReadFrame(Unread(s, fd)).Output?
            && t == s.(peers := s.peers[fd := p.(
                 answers := p.answers + [ReadFrame(Unread(s, fd)).bytes],
                 consumed := p.consumed + 4 + |ReadFrame(Unread(s, fd)).bytes|)])
  {
  }

  /** What a client has read is, one for one, the answers to its queries. */
  lemma ClientsReadTheirAnswers(answer: Query -> Bytes, d: Discipline, t: Sys, fd: int)
    requires RequestResponse(answer, d) && Reachable(answer, d, t) && fd in t.peers
    ensures var p := t.peers[fd];
            && |p.answers| <= |p.asked| <= |p.answers| + 1
            && p.answers == AnswersOf(answer, p.asked[..|p.answers|])
  {
    hide Frames, InFlight, Reachable;
    ReachableInv(answer, d, t);
    InvAt(answer, t, fd);
    var p, h := t.peers[fd], t.served[fd];
    AnswersOfPrefix(answer, p.asked, |h|);
    AnswersOfPrefix(answer, p.asked, |p.answers|);
  }

  /**
   * Whatever reaches the head of the results queue belongs to a connection with no kept
   * payload, so send_result never overwrites one, and it is the next answer owed there.
   */
  lemma SendNeverOverwrites(answer: Query -> Bytes, d: Discipline, t: Sys)
    requires RequestResponse(answer, d) && Reachable(answer, d, t) && t.server.resultsQueue != []
    ensures var r := t.server.resultsQueue[0];
            && r.fd !in t.server.writeBuffers
            && r.fd in t.peers && r.fd in t.served
            && var k := |t.served[r.fd]|;
               k < |t.peers[r.fd].asked| && r.res == answer(t.peers[r.fd].asked[k])
  {
    hide Frames, Reachable;
    ReachableInv(answer, d, t);
    HeadInFlight(answer, t);
    var r := t.server.resultsQueue[0];
    InvAt(answer, t, r.fd);
    hide InFlight;
    assert r in InFlight(answer, t);
  }

  /**
   * A kept payload exists exactly for the open connections that watch EPOLLOUT; some of it
   * is still unsent, and the connection's bytes end with precisely its sent part.
   */
  lemma PendingExactlyWhenWatched(answer: Query -> Bytes, d: Discipline, t: Sys, fd: int)
    requires RequestResponse(answer, d) && Reachable(answer, d, t)
    ensures fd in t.server.writeBuffers <==> fd in t.server.interest && t.server.interest[fd]
    ensures fd in t.server.writeBuffers ==> fd in t.served
    ensures fd in t.server.writeBuffers ==>
              var ob := t.server.writeBuffers[fd];
              var h := t.served[fd];
              && ob.sent < |ob.buffer|
              && h != [] && ob.buffer == h[|h| - 1]
              && fd in t.server.wire
              && t.server.wire[fd] == Frames(h[..|h| - 1]) + CountBytes(|ob.buffer|) + ob.buffer[..ob.sent]
  {
    hide Frames, InFlight, Reachable;
    ReachableInv(answer, d, t);
    if fd in t.peers {
      InvAt(answer, t, fd);
    }
  }

  /** What a client has not read is never more than the one frame it is waiting for. */
  lemma UnreadIsOneFrame(answer: Query -> Bytes, d: Discipline, t: Sys, fd: int)
    requires RequestResponse(answer, d) && Reachable(answer, d, t) && fd in t.peers
    ensures fd in t.server.wire
    ensures var p, unread := t.peers[fd], Unread(t, fd);
            if |p.answers| >= |p.asked| then unread == []
            else unread <= Frame(answer(p.asked[|p.answers|])) && |answer(p.asked[|p.answers|])| < INT32_LIMIT
  {
    hide Frames, InFlight, Reachable;
    ReachableInv(answer, d, t);
    InvAt(answer, t, fd);
    var v := ViewOf(t, fd);
    hide AnswersOf, PendingOk;
    var k, a := |v.handed|, |v.peer.answers|;
    WireIsPrefix(v);
    assert v.handed[..k] == v.handed;
    if k == a + 1 {
      assert v.handed == v.handed[..a] + [v.handed[a]];
      FramesSnoc(v.handed[..a], v.handed[a]);
      assert v.wire[v.peer.consumed..] <= Frame(v.handed[a]);
    }
  }

  /**
   * If the server closes in the middle of an answer, read_struct reports no error: it
   * returns the part that came, padded with zeros, which is the answer only by coincidence.
   */
  lemma ReadingAfterClose(answer: Query -> Bytes, d: Discipline, t: Sys, fd: int)
    requires RequestResponse(answer, d) && Reachable(answer, d, t) && fd in t.peers && fd !in t.server.interest
    requires |t.peers[fd].answers| < |t.peers[fd].asked|
    requires fd in t.server.wire && |Unread(t, fd)| >= 4
    ensures var payload := answer(t.peers[fd].asked[|t.peers[fd].answers|]);
            var came := |Unread(t, fd)| - 4;
            && came <= |payload|
            && ReadFrame(Unread(t, fd)) == Output(payload[..came] + Zeros(|payload| - came))
            && (ReadFrame(Unread(t, fd)) == Output(payload)
                <==> forall i :: came <= i < |payload| ==> payload[i] == 0)
  {
    hide Reachable;
    UnreadIsOneFrame(answer, d, t, fd);
    var payload, unread := answer(t.peers[fd].asked[|t.peers[fd].answers|]), Unread(t, fd);
    assert unread == Frame(payload)[..4 + (|unread| - 4)];
    TruncatedFrame(payload, |unread| - 4);
  }

  lemma DrainedIsEmpty(answer: Query -> Bytes, s: Sys)
    requires Drained(s)
    ensures InFlight(answer, s) == multiset{}
  {
    NobodyBusy(s.workers);
  }

  /** With the queues and workers empty, the question of an open connection was answered. */
  lemma DrainedMeansHanded(answer: Query -> Bytes, s: Sys, fd: int)
    requires Inv(answer, s) && Drained(s) && fd in s.peers && fd in s.server.interest
    requires s.peers[fd].inbox == []
    ensures Made(s, fd) && |s.served[fd]| == |s.peers[fd].asked|
  {
    hide Frames, Tokens;
    DrainedIsEmpty(answer, s);
    InvAt(answer, s, fd);
    hide InFlight;
    assert FlightOk(answer, fd, multiset{}, ViewOf(s, fd));
  }

  /** Clients have sent, and the server has received, only what they may ask. */
  ghost predicate OnlyAskable(d: Discipline, s: Sys) {
    && (forall fd, q :: fd in s.peers && (q in s.peers[fd].asked || q in s.peers[fd].inbox) ==> MayAsk(d, q))
    && (forall w :: w in s.server.workQueue ==> MayAsk(d, w.query))
    && (forall w :: w in s.workers && w.Some? ==> MayAsk(d, w.value.query))
  }

  lemma StepAskable(answer: Query -> Bytes, d: Discipline, s: Sys, a: Action)
    requires Enabled(s, a) && Obeys(d, s, a) && OnlyAskable(d, s)
    ensures OnlyAskable(d, Apply(answer, s, a))
  {
    hide MayAsk;
    if a.Receive? {
      WorkItemsFd(a.fd, s.peers[a.fd].inbox);
    }
  }

  lemma {:induction false} RunAskable(answer: Query -> Bytes, d: Discipline, s: Sys, acts: seq<Action>, t: Sys)
    requires Run(answer, d, s, acts, t) && OnlyAskable(d, s)
    ensures OnlyAskable(d, t)
    decreases |acts|
  {
    hide OnlyAskable, Apply;
    if acts != [] {
      StepAskable(answer, d, s, acts[0]);
      RunAskable(answer, d, Apply(answer, s, acts[0]), acts[1..], t);
    }
  }

  lemma ReachableAskable(answer: Query -> Bytes, d: Discipline, t: Sys)
    requires Reachable(answer, d, t)
    ensures OnlyAskable(d, t)
  {
    hide Run;
    var s, acts :| Init(s) && Run(answer, d, s, acts, t);
    RunAskable(answer, d, s, acts, t);
  }

  function SendAll(outcomes: seq<SendOutcome>): (acts: seq<Action>)
    ensures |acts| == |outcomes|
  {
    seq(|outcomes|, i requires 0 <= i < |outcomes| => Send(outcomes[i]))
  }

  lemma RunFirst(answer: Query -> Bytes, d: Discipline, s: Sys, a: Action, acts: seq<Action>, t: Sys)
    requires Enabled(s, a) && Obeys(d, s, a) && Run(answer, d, Apply(answer, s, a), acts, t)
    ensures Run(answer, d, s, [a] + acts, t)
  {
    hide Apply;
    assert ([a] + acts)[1..] == acts;
  }

  /** What a step of the results loop leaves as it is. */
  lemma SendStepFrame(answer: Query -> Bytes, s: Sys, o: SendOutcome)
    requires s.server.resultsQueue != []
    ensures var t := Apply(answer, s, Send(o));
            && t.server == SendStep(PopResult(s.server), s.server.resultsQueue[0], o)
            && t.server.resultsQueue == s.server.resultsQueue[1..]
            && t.handed == s.handed + [s.server.resultsQueue[0]]
            && t.peers == s.peers && t.workers == s.workers
            && t.accepted == s.accepted && t.taken == s.taken && t.finished == s.finished
  {
    hide SendStep;
    SendKeepsQueues(PopResult(s.server), s.server.resultsQueue[0], o);
  }

  /** The event loop's draining of the results queue is a run of that many sends, in queue order. */
  lemma {:induction false} ResultsLoopIsRun(answer: Query -> Bytes, d: Discipline, s: Sys, outcomes: seq<SendOutcome>)
    returns (t: Sys)
    requires |outcomes| >= |s.server.resultsQueue|
    ensures Run(answer, d, s, SendAll(outcomes[..|s.server.resultsQueue|]), t)
    ensures t.server == DrainSteps(s.server, outcomes)
    ensures t.handed == s.handed + s.server.resultsQueue
    ensures t.peers == s.peers && t.workers == s.workers
    ensures t.accepted == s.accepted && t.taken == s.taken && t.finished == s.finished
    decreases |s.server.resultsQueue|
  {
    hide SendStep, Apply;
    var n := |s.server.resultsQueue|;
    if n == 0 {
      t := s;
    } else {
      var u := Apply(answer, s, Send(outcomes[0]));
      SendStepFrame(answer, s, outcomes[0]);
      assert DrainSteps(s.server, outcomes) == DrainSteps(u.server, outcomes[1..]);
      hide DrainSteps;
      t := ResultsLoopIsRun(answer, d, u, outcomes[1..]);
      assert SendAll(outcomes[..n]) == [Send(outcomes[0])] + SendAll(outcomes[1..][..n - 1]);
      RunFirst(answer, d, s, Send(outcomes[0]), SendAll(outcomes[1..][..n - 1]), t);
      hide Run;
      assert s.server.resultsQueue == [s.server.resultsQueue[0]] + s.server.resultsQueue[1..];
    }
  }
}
