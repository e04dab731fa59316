// Runs in which all answers are one and the same payload: how many of them each connection
// has got, and what its bytes are if the whole frame is one byte repeated.
module Uniform {
  import opened Types
  import opened Client
  import opened Server
  import opened Pipeline
  import opened Conservation
  import opened Connections
  import opened Safety
  import opened Theorems

  /** Whatever clients send, the answer is p. */
  ghost predicate AllAnswer(answer: Query -> Bytes, d: Discipline, p: Bytes) {
    forall q :: MayAsk(d, q) ==> answer(q) == p
  }

  /** Every waiting result and every kept payload is p. */
  ghost predicate Carries(s: Sys, p: Bytes) {
    && (forall r :: r in s.server.resultsQueue ==> r.res == p)
    && (forall fd :: fd in s.server.writeBuffers ==>
          s.server.writeBuffers[fd].buffer == p && s.server.writeBuffers[fd].sent <= |p|)
  }

  lemma WriteKeepsQueues(s: ServerState, fd: int, o: Option<nat>)
    ensures WriteStep(s, fd, o).resultsQueue == s.resultsQueue
  {
  }

  lemma SendCarries(p: Bytes, s: ServerState, r: ResultItem, o: SendOutcome, fd: int)
    requires r.res == p && fd in SendStep(s, r, o).writeBuffers
    requires fd in s.writeBuffers ==> s.writeBuffers[fd].buffer == p && s.writeBuffers[fd].sent <= |p|
    ensures var ob := SendStep(s, r, o).writeBuffers[fd];
            ob.buffer == p && ob.sent <= |p|
  {
  }

  lemma WriteCarries(p: Bytes, s: ServerState, at: int, o: Option<nat>, fd: int)
    requires fd in WriteStep(s, at, o).writeBuffers
    requires at in s.writeBuffers ==> s.writeBuffers[at].buffer == p && s.writeBuffers[at].sent <= |p|
    requires fd in s.writeBuffers ==> s.writeBuffers[fd].buffer == p && s.writeBuffers[fd].sent <= |p|
    ensures var ob := WriteStep(s, at, o).writeBuffers[fd];
            ob.buffer == p && ob.sent <= |p|
  {
  }

  lemma StepCarries(answer: Query -> Bytes, d: Discipline, p: Bytes, s: Sys, a: Action)
    requires AllAnswer(answer, d, p) && OnlyAskable(d, s) && Carries(s, p) && Enabled(s, a)
    ensures Carries(Apply(answer, s, a), p)
  {
    hide MayAsk, SendStep, WriteStep, WorkItems, Unread;
    var t := Apply(answer, s, a);
    if a.Send? {
      SendKeepsQueues(PopResult(s.server), s.server.resultsQueue[0], a.outcome);
    } else if a.Write? {
      WriteKeepsQueues(s.server, a.fd, a.accepted);
    }
    forall fd | fd in t.server.writeBuffers
      ensures t.server.writeBuffers[fd].buffer == p && t.server.writeBuffers[fd].sent <= |p|
    {
      if a.Send? {
        SendCarries(p, PopResult(s.server), s.server.resultsQueue[0], a.outcome, fd);
      } else if a.Write? {
        WriteCarries(p, s.server, a.fd, a.accepted, fd);
      }
    }
  }

  // ---------------------------------------------------------------------
  // How many answers

  /** Each question of an open connection is unreceived, in flight or answered, once. */
  ghost predicate Counted(answer: Query -> Bytes, s: Sys, fd: int, p: Bytes) {
    && Made(s, fd)
    && (forall i :: 0 <= i < |s.served[fd]| ==> s.served[fd][i] == p)
    && (fd in s.server.interest ==>
          |s.peers[fd].asked| == |s.peers[fd].inbox| + InFlight(answer, s)[ResultItem(fd, p)] + |s.served[fd]|)
  }

  ghost predicate AllCounted(answer: Query -> Bytes, s: Sys, p: Bytes) {
    forall fd :: fd in s.peers ==> Counted(answer, s, fd, p)
  }

  lemma {:induction false} SameTokens(answer: Query -> Bytes, fd: int, qs: seq<Query>, p: Bytes)
    requires forall q :: q in qs ==> answer(q) == p
    ensures Tokens(answer, WorkItems(fd, qs))[ResultItem(fd, p)] == |qs|
  {
    if qs == [] {
      assert Results(answer, WorkItems(fd, qs)) == [];
    } else {
      assert qs[0] in qs && forall q :: q in qs[1..] ==> q in qs;
      SameTokens(answer, fd, qs[1..], p);
      TokensHead(answer, WorkItems(fd, qs));
      assert WorkItems(fd, qs)[1..] == WorkItems(fd, qs[1..]);
    }
  }

  lemma CountedReceive(answer: Query -> Bytes, s: Sys, a: Action, p: Bytes)
    requires a.Receive? && Enabled(s, a) && Counted(answer, s, a.fd, p)
    requires forall q :: q in s.peers[a.fd].inbox ==> answer(q) == p
    ensures Counted(answer, Apply(answer, s, a), a.fd, p)
  {
    var before, after := InFlight(answer, s), InFlight(answer, Apply(answer, s, a));
    hide InFlight, Tokens;
    var items := Tokens(answer, WorkItems(a.fd, s.peers[a.fd].inbox));
    StepFlow(answer, s, a);
    SameTokens(answer, a.fd, s.peers[a.fd].inbox, p);
    AddNothing(after);
    assert after == before + items;
  }

  lemma SendFlight(answer: Query -> Bytes, s: Sys, a: Action)
    requires a.Send? && Enabled(s, a)
    ensures InFlight(answer, s)[s.server.resultsQueue[0]] ==
              InFlight(answer, Apply(answer, s, a))[s.server.resultsQueue[0]] + 1
  {
    hide InFlight, Apply, Enabled;
    StepFlow(answer, s, a);
    AddNothing(InFlight(answer, s));
  }

  lemma CountedSend(answer: Query -> Bytes, s: Sys, a: Action, p: Bytes)
    requires a.Send? && Enabled(s, a) && s.server.resultsQueue[0].res == p
    requires Counted(answer, s, s.server.resultsQueue[0].fd, p)
    ensures Counted(answer, Apply(answer, s, a), s.server.resultsQueue[0].fd, p)
  {
    hide InFlight;
    SendFlight(answer, s, a);
    SendTables(PopResult(s.server), s.server.resultsQueue[0], a.outcome);
    hide SendStep;
  }

  lemma CountedConnect(answer: Query -> Bytes, s: Sys, a: Action, p: Bytes)
    requires a.Connect? && Enabled(s, a) && Idle(s, a.fd)
    ensures Counted(answer, Apply(answer, s, a), a.fd, p)
  {
    SameFlight(answer, s, a);
    IdleItems(answer, s, a.fd);
    hide InFlight;
    assert ResultItem(a.fd, p) !in InFlight(answer, s);
  }

  lemma CountedElse(answer: Query -> Bytes, s: Sys, a: Action, p: Bytes)
    requires Enabled(s, a) && (a.Ask? || a.Write? || a.ReadAnswer?)
    requires Counted(answer, s, a.fd, p)
    ensures Counted(answer, Apply(answer, s, a), a.fd, p)
  {
    SameFlight(answer, s, a);
    if a.Write? {
      WriteTables(s.server, a.fd, a.accepted);
    }
    hide InFlight, WriteStep, Unread, FrameReady;
  }

  lemma CountedOther(answer: Query -> Bytes, s: Sys, a: Action, fd: int, p: Bytes)
    requires Enabled(s, a) && Counted(answer, s, fd, p) && Subject(s, a) != Some(fd)
    ensures Counted(answer, Apply(answer, s, a), fd, p)
  {
    hide InFlight, Apply;
    OtherItems(answer, s, a, ResultItem(fd, p));
    OtherViews(answer, s, a, fd);
    hide Enabled, Subject;
    assert ViewOf(Apply(answer, s, a), fd) == ViewOf(s, fd);
  }

  /** What the steps of a run find, for these answers. */
  ghost predicate Settles(answer: Query -> Bytes, d: Discipline, p: Bytes, s: Sys) {
    OnlyAskable(d, s) && Carries(s, p) && Grounded(answer, s) && AllCounted(answer, s, p)
  }

  lemma CountedSubject(answer: Query -> Bytes, d: Discipline, p: Bytes, s: Sys, a: Action)
    requires Enabled(s, a) && Obeys(d, s, a) && d.quiet && AllAnswer(answer, d, p) && Settles(answer, d, p, s)
    requires Subject(s, a).Some?
    ensures Counted(answer, Apply(answer, s, a), Subject(s, a).value, p)
  {
    hide InFlight, Apply, Counted, MayAsk;
    match a {
      case Connect(_) => CountedConnect(answer, s, a, p);
      case Receive(_, _) => CountedReceive(answer, s, a, p);
      case Send(_) =>
        HeadInFlight(answer, s);
        CountedSend(answer, s, a, p);
      case _ => CountedElse(answer, s, a, p);
    }
  }

  lemma StepSettles(answer: Query -> Bytes, d: Discipline, p: Bytes, s: Sys, a: Action)
    requires Enabled(s, a) && Obeys(d, s, a) && d.quiet && AllAnswer(answer, d, p) && Settles(answer, d, p, s)
    ensures Settles(answer, d, p, Apply(answer, s, a))
  {
    hide InFlight, Apply, Counted, OnlyAskable, Carries, Grounded, AllAnswer;
    StepAskable(answer, d, s, a);
    StepCarries(answer, d, p, s, a);
    StepGrounded(answer, s, a);
    forall fd | fd in Apply(answer, s, a).peers
      ensures Counted(answer, Apply(answer, s, a), fd, p)
    {
      if Subject(s, a) == Some(fd) {
        CountedSubject(answer, d, p, s, a);
      } else {
        PeersOnlyGrow(answer, s, a, fd);
        CountedOther(answer, s, a, fd, p);
      }
    }
  }

  lemma {:induction false} RunSettles(answer: Query -> Bytes, d: Discipline, p: Bytes, s: Sys, acts: seq<Action>,
                                      t: Sys)
    requires Run(answer, d, s, acts, t) && d.quiet && AllAnswer(answer, d, p) && Settles(answer, d, p, s)
    ensures Settles(answer, d, p, t)
    decreases |acts|
  {
    hide AllAnswer, Settles, Apply;
    if acts != [] {
      StepSettles(answer, d, p, s, acts[0]);
      RunSettles(answer, d, p, Apply(answer, s, acts[0]), acts[1..], t);
    }
  }

  lemma ReachableCounted(answer: Query -> Bytes, d: Discipline, p: Bytes, t: Sys)
    requires d.quiet && AllAnswer(answer, d, p) && Reachable(answer, d, t)
    ensures AllCounted(answer, t, p)
  {
    hide Run, AllAnswer, MayAsk;
    var s, acts :| Init(s) && Run(answer, d, s, acts, t);
    NobodyBusy(s.workers);
    RunSettles(answer, d, p, s, acts, t);
  }

  // ---------------------------------------------------------------------
  // Frames of one byte

  predicate OneByte(c: Byte, bs: Bytes) {
    forall i :: 0 <= i < |bs| ==> bs[i] == c
  }

  /** What handle_write is still to send. */
  function Due(v: View): int {
    if v.watched && v.pending.Some? then |v.pending.value.buffer| - v.pending.value.sent else 0
  }

  /** The length of k frames. */
  function Room(k: nat, p: Bytes): nat {
    k * |Frame(p)|
  }

  lemma RoomNext(k: nat, p: Bytes)
    ensures Room(k + 1, p) == Room(k, p) + 4 + |p|
  {
  }

  lemma RoomMonotone(j: nat, k: nat, p: Bytes)
    requires j <= k
    ensures Room(j, p) <= Room(k, p)
  {
    assert (k - j) * |Frame(p)| >= 0;
  }

  /** All bytes are c, and no more than one frame for each answer, or for each question after a close. */
  ghost predicate Within(c: Byte, p: Bytes, v: View) {
    && OneByte(c, v.wire)
    && (v.pending.Some? ==> v.pending.value.buffer == p && v.pending.value.sent <= |p|)
    && (v.watched ==> v.open)
    && (if v.open then |v.wire| + Due(v) <= Room(|v.handed|, p) && |v.handed| <= |v.peer.asked|
        else |v.wire| <= Room(|v.peer.asked|, p))
  }

  ghost predicate AllWithin(c: Byte, p: Bytes, s: Sys) {
    forall fd :: fd in s.peers ==> Made(s, fd) && Within(c, p, ViewOf(s, fd))
  }

  lemma WithinPeer(c: Byte, p: Bytes, v: View, peer: Peer)
    requires Within(c, p, v) && |v.peer.asked| <= |peer.asked|
    ensures Within(c, p, v.(peer := peer))
  {
    RoomMonotone(|v.peer.asked|, |peer.asked|, p);
  }

  lemma WithinClosed(c: Byte, p: Bytes, v: View, pending: Option<OutBuffer>)
    requires Within(c, p, v) && (pending == None || pending == v.pending)
    ensures Within(c, p, v.(open := false, watched := false, pending := pending))
  {
    hide Room;
    if v.open {
      RoomMonotone(|v.handed|, |v.peer.asked|, p);
    }
  }

  lemma OneByteJoin(c: Byte, a: Bytes, b: Bytes)
    requires OneByte(c, a) && OneByte(c, b)
    ensures OneByte(c, a + b)
  {
  }

  lemma OneBytePart(c: Byte, p: Bytes, i: nat, j: nat)
    requires OneByte(c, Frame(p)) && i <= j <= |p|
    ensures OneByte(c, CountBytes(|p|)) && OneByte(c, p[i..j]) && OneByte(c, p[..j])
  {
    assert forall x :: 0 <= x < 4 ==> CountBytes(|p|)[x] == Frame(p)[x];
    assert forall x :: 0 <= x < |p| ==> p[x] == Frame(p)[4 + x];
  }

  lemma WithinSent(c: Byte, p: Bytes, v: View, o: SendOutcome)
    requires Within(c, p, v) && OneByte(c, Frame(p)) && (v.open ==> |v.handed| < |v.peer.asked|)
    ensures Within(c, p, SentView(v, p, o))
  {
    hide Room, OneByte;
    RoomNext(|v.handed|, p);
    if v.open {
      RoomMonotone(|v.handed| + 1, |v.peer.asked|, p);
      var sent := if o.Accepts? then Least(o.n, |p|) else 0;
      OneBytePart(c, p, 0, sent);
      OneByteJoin(c, v.wire, CountBytes(|p|));
      OneByteJoin(c, v.wire + CountBytes(|p|), p[..sent]);
    }
  }

  lemma WithinWritten(c: Byte, p: Bytes, v: View, o: Option<nat>)
    requires Within(c, p, v) && OneByte(c, Frame(p)) && v.watched && v.pending.Some?
    ensures Within(c, p, WrittenView(v, o))
  {
    hide Room, OneByte;
    if o.Some? {
      var ob := v.pending.value;
      var sent := ob.sent + Least(o.value, |p| - ob.sent);
      OneBytePart(c, p, ob.sent, sent);
      OneByteJoin(c, v.wire, p[ob.sent..sent]);
    } else {
      WithinClosed(c, p, v, None);
    }
  }

  lemma WithinConnect(answer: Query -> Bytes, c: Byte, p: Bytes, s: Sys, a: Action)
    requires a.Connect? && Enabled(s, a) && Carries(s, p)
    ensures Made(Apply(answer, s, a), a.fd) && Within(c, p, ViewOf(Apply(answer, s, a), a.fd))
  {
  }

  lemma WithinReceive(answer: Query -> Bytes, c: Byte, p: Bytes, s: Sys, a: Action)
    requires a.Receive? && Enabled(s, a) && Made(s, a.fd) && Within(c, p, ViewOf(s, a.fd))
    ensures Made(Apply(answer, s, a), a.fd) && Within(c, p, ViewOf(Apply(answer, s, a), a.fd))
  {
    hide Within;
    var v := ViewOf(s, a.fd);
    var w := v.(peer := v.peer.(inbox := []));
    WithinPeer(c, p, v, v.peer.(inbox := []));
    WithinClosed(c, p, w, None);
    assert ViewOf(Apply(answer, s, a), a.fd)
        == if a.end == WouldBlock then w else w.(open := false, watched := false, pending := None);
  }

  lemma WithinSend(answer: Query -> Bytes, c: Byte, p: Bytes, s: Sys, a: Action)
    requires a.Send? && Enabled(s, a) && s.server.resultsQueue[0].res == p && OneByte(c, Frame(p))
    requires var fd := s.server.resultsQueue[0].fd;
             Made(s, fd) && Within(c, p, ViewOf(s, fd)) && Counted(answer, s, fd, p)
    ensures var fd := s.server.resultsQueue[0].fd;
            Made(Apply(answer, s, a), fd) && Within(c, p, ViewOf(Apply(answer, s, a), fd))
  {
    hide Within, InFlight, OneByte;
    var fd := s.server.resultsQueue[0].fd;
    SendFlight(answer, s, a);
    WithinSent(c, p, ViewOf(s, fd), a.outcome);
    SendViews(answer, s, a);
  }

  lemma WithinWrite(answer: Query -> Bytes, c: Byte, p: Bytes, s: Sys, a: Action)
    requires a.Write? && Enabled(s, a) && OneByte(c, Frame(p)) && Made(s, a.fd) && Within(c, p, ViewOf(s, a.fd))
    ensures Made(Apply(answer, s, a), a.fd) && Within(c, p, ViewOf(Apply(answer, s, a), a.fd))
  {
    var v := ViewOf(s, a.fd);
    if a.fd in s.server.writeBuffers {
      WriteViews(answer, s, a);
      WithinWritten(c, p, v, a.accepted);
      hide Within, WrittenView, WriteStep;
    } else {
      assert ViewOf(Apply(answer, s, a), a.fd) == v;
    }
  }

  lemma WithinElse(answer: Query -> Bytes, c: Byte, p: Bytes, s: Sys, a: Action)
    requires (a.Ask? || a.ReadAnswer?) && Enabled(s, a) && Made(s, a.fd) && Within(c, p, ViewOf(s, a.fd))
    ensures Made(Apply(answer, s, a), a.fd) && Within(c, p, ViewOf(Apply(answer, s, a), a.fd))
  {
    hide Within;
    var v, t := ViewOf(s, a.fd), Apply(answer, s, a);
    WithinPeer(c, p, v, t.peers[a.fd]);
    assert ViewOf(t, a.fd) == v.(peer := t.peers[a.fd]);
  }

  lemma WithinSubject(answer: Query -> Bytes, d: Discipline, c: Byte, p: Bytes, s: Sys, a: Action)
    requires Enabled(s, a) && OneByte(c, Frame(p)) && Settles(answer, d, p, s) && AllWithin(c, p, s)
    requires Subject(s, a).Some?
    ensures var fd := Subject(s, a).value;
            Made(Apply(answer, s, a), fd) && Within(c, p, ViewOf(Apply(answer, s, a), fd))
  {
    hide InFlight, Apply, Counted, Within, ViewOf, OneByte, OnlyAskable;
    match a {
      case Connect(_) => WithinConnect(answer, c, p, s, a);
      case Receive(_, _) => WithinReceive(answer, c, p, s, a);
      case Send(_) =>
        HeadInFlight(answer, s);
        WithinSend(answer, c, p, s, a);
      case Write(_, _) => WithinWrite(answer, c, p, s, a);
      case _ => WithinElse(answer, c, p, s, a);
    }
  }

  lemma StepWithin(answer: Query -> Bytes, d: Discipline, c: Byte, p: Bytes, s: Sys, a: Action)
    requires Enabled(s, a) && OneByte(c, Frame(p)) && Settles(answer, d, p, s) && AllWithin(c, p, s)
    ensures AllWithin(c, p, Apply(answer, s, a))
  {
    hide Apply, Within, ViewOf, OneByte, Settles;
    forall fd | fd in Apply(answer, s, a).peers
      ensures Made(Apply(answer, s, a), fd) && Within(c, p, ViewOf(Apply(answer, s, a), fd))
    {
      if Subject(s, a) == Some(fd) {
        WithinSubject(answer, d, c, p, s, a);
      } else {
        PeersOnlyGrow(answer, s, a, fd);
        OtherViews(answer, s, a, fd);
      }
    }
  }

  lemma {:induction false} RunWithin(answer: Query -> Bytes, d: Discipline, c: Byte, p: Bytes, s: Sys,
                                     acts: seq<Action>, t: Sys)
    requires Run(answer, d, s, acts, t) && d.quiet && AllAnswer(answer, d, p) && OneByte(c, Frame(p))
    requires Settles(answer, d, p, s) && AllWithin(c, p, s)
    ensures AllWithin(c, p, t)
    decreases |acts|
  {
    hide AllAnswer, Settles, AllWithin, Apply, OneByte;
    if acts != [] {
      StepSettles(answer, d, p, s, acts[0]);
      StepWithin(answer, d, c, p, s, acts[0]);
      RunWithin(answer, d, c, p, Apply(answer, s, acts[0]), acts[1..], t);
    }
  }

  lemma NoBytes(c: Byte)
    ensures OneByte(c, [])
  {
  }

  lemma {:induction false} OneByteFrames(c: Byte, p: Bytes, ps: seq<Bytes>)
    requires OneByte(c, Frame(p)) && forall i :: 0 <= i < |ps| ==> ps[i] == p
    ensures OneByte(c, Frames(ps)) && |Frames(ps)| == Room(|ps|, p)
  {
    hide OneByte, Frame;
    if ps == [] {
      NoBytes(c);
    } else {
      var init := ps[..|ps| - 1];
      OneByteFrames(c, p, init);
      OneByteJoin(c, Frames(init), Frame(p));
      RoomNext(|init|, p);
    }
  }

  lemma OneBytePrefix(c: Byte, a: Bytes, b: Bytes)
    requires OneByte(c, a) && OneByte(c, b) && |a| <= |b|
    ensures a <= b
  {
  }

  /** Then it cannot be told which frame a byte belongs to, and the wire is always a prefix. */
  lemma UniformPrefix(answer: Query -> Bytes, d: Discipline, c: Byte, p: Bytes, t: Sys, fd: int)
    requires d.quiet && AllAnswer(answer, d, p) && OneByte(c, Frame(p)) && Reachable(answer, d, t) && fd in t.peers
    ensures fd in t.server.wire && t.server.wire[fd] <= Frames(AnswersOf(answer, t.peers[fd].asked))
  {
    hide Run, MayAsk, OneByte, Frames, Room;
    var s, acts :| Init(s) && Run(answer, d, s, acts, t);
    NobodyBusy(s.workers);
    RunWithin(answer, d, c, p, s, acts, t);
    ReachableAskable(answer, d, t);
    hide InFlight;
    assert Within(c, p, ViewOf(t, fd));
    var asked := t.peers[fd].asked;
    OneByteFrames(c, p, AnswersOf(answer, asked));
    if fd in t.server.interest {
      RoomMonotone(|t.served[fd]|, |asked|, p);
    }
    OneBytePrefix(c, t.server.wire[fd], Frames(AnswersOf(answer, asked)));
  }
}
