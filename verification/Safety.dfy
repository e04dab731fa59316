// Safety of every run of the system with request/response clients.
module Safety {
  import opened Types
  import opened Server
  import opened Pipeline
  import opened Conservation
  import opened Connections

  ghost predicate Made(s: Sys, fd: int) {
    fd in s.peers && fd in s.server.wire && fd in s.served
  }

  ghost function ViewOf(s: Sys, fd: int): View
    requires Made(s, fd)
  {
    var v := s.server;
    View(s.peers[fd],
         s.served[fd],
         fd in v.interest,
         fd in v.interest && v.interest[fd],
         if fd in v.writeBuffers then Some(v.writeBuffers[fd]) else None,
         v.wire[fd])
  }

  ghost predicate Tables(s: Sys) {
    && s.server.wire.Keys == s.served.Keys == s.peers.Keys
    && s.server.interest.Keys <= s.peers.Keys
    && s.server.writeBuffers.Keys <= s.peers.Keys
  }

  /** Every item and every table entry belongs to a connection that was made. */
  ghost predicate Grounded(answer: Query -> Bytes, s: Sys) {
    && Tables(s)
    && (forall x :: x in InFlight(answer, s) ==> x.fd in s.peers)
  }

  ghost predicate AllOk(answer: Query -> Bytes, s: Sys)
    requires Tables(s)
  {
    forall fd :: fd in s.peers ==> ConnOk(answer, fd, InFlight(answer, s), ViewOf(s, fd))
  }

  ghost predicate Inv(answer: Query -> Bytes, s: Sys) {
    Grounded(answer, s) && AllOk(answer, s)
  }

  /** The descriptor a step is about, if any. */
  ghost function Subject(s: Sys, a: Action): Option<int>
    requires Enabled(s, a)
  {
    match a
    case Connect(fd) => Some(fd)
    case Ask(fd, _) => Some(fd)
    case Receive(fd, _) => Some(fd)
    case Send(_) => Some(s.server.resultsQueue[0].fd)
    case Write(fd, _) => Some(fd)
    case ReadAnswer(fd) => Some(fd)
    case _ => None
  }

  /** A step changes nothing in the view of any other connection. */
  lemma OtherViews(answer: Query -> Bytes, s: Sys, a: Action, fd: int)
    requires Enabled(s, a) && Made(s, fd) && Subject(s, a) != Some(fd)
    ensures Made(Apply(answer, s, a), fd)
    ensures ViewOf(Apply(answer, s, a), fd) == ViewOf(s, fd)
  {
  }

  lemma {:induction false} WorkItemsFd(fd: int, qs: seq<Query>)
    ensures forall i :: 0 <= i < |qs| ==> WorkItems(fd, qs)[i] == WorkItem(fd, qs[i])
  {
    if qs != [] {
      WorkItemsFd(fd, qs[1..]);
    }
  }

  lemma {:induction false} TokensOfItems(answer: Query -> Bytes, fd: int, qs: seq<Query>)
    ensures forall x :: x in Tokens(answer, WorkItems(fd, qs)) ==> x.fd == fd
    ensures |qs| == 1 ==> Tokens(answer, WorkItems(fd, qs)) == multiset{ResultItem(fd, answer(qs[0]))}
    ensures qs == [] ==> Tokens(answer, WorkItems(fd, qs)) == multiset{}
  {
    WorkItemsFd(fd, qs);
    if |qs| == 1 {
      assert Results(answer, WorkItems(fd, qs)) == [ResultItem(fd, answer(qs[0]))];
    }
  }

  /** What moves in or out of flight in a step is the subject's. */
  lemma OtherItems(answer: Query -> Bytes, s: Sys, a: Action, x: ResultItem)
    requires Enabled(s, a) && Subject(s, a) != Some(x.fd)
    ensures InFlight(answer, s)[x] == InFlight(answer, Apply(answer, s, a))[x]
  {
    hide InFlight, Apply, Tokens;
    StepFlow(answer, s, a);
    if a.Receive? {
      TokensOfItems(answer, a.fd, s.peers[a.fd].inbox);
    }
    assert (InFlight(answer, s) + Flow(answer, s, a).0)[x]
        == (InFlight(answer, Apply(answer, s, a)) + Flow(answer, s, a).1)[x];
  }

  lemma StepOthersOk(answer: Query -> Bytes, s: Sys, a: Action, fd: int)
    requires Enabled(s, a) && Made(s, fd) && Subject(s, a) != Some(fd)
    requires ConnOk(answer, fd, InFlight(answer, s), ViewOf(s, fd))
    ensures Made(Apply(answer, s, a), fd)
    ensures ConnOk(answer, fd, InFlight(answer, Apply(answer, s, a)), ViewOf(Apply(answer, s, a), fd))
  {
    hide ConnOk, InFlight, Apply, ViewOf;
    OtherViews(answer, s, a, fd);
    forall x: ResultItem | x.fd == fd
      ensures InFlight(answer, s)[x] == InFlight(answer, Apply(answer, s, a))[x]
    {
      OtherItems(answer, s, a, x);
    }
    Unaffected(answer, fd, InFlight(answer, s), InFlight(answer, Apply(answer, s, a)), ViewOf(s, fd));
  }

  lemma SendTables(s: ServerState, r: ResultItem, o: SendOutcome)
    ensures var t := SendStep(s, r, o);
            && s.wire.Keys <= t.wire.Keys <= s.wire.Keys + {r.fd}
            && t.interest.Keys <= s.interest.Keys
            && t.writeBuffers.Keys <= s.writeBuffers.Keys + {r.fd}
  {
  }

  lemma WriteTables(s: ServerState, fd: int, o: Option<nat>)
    ensures var t := WriteStep(s, fd, o);
            && s.wire.Keys <= t.wire.Keys <= s.wire.Keys + {fd}
            && t.interest.Keys <= s.interest.Keys
            && t.writeBuffers.Keys <= s.writeBuffers.Keys
  {
  }

  lemma StepTables(answer: Query -> Bytes, s: Sys, a: Action)
    requires Enabled(s, a) && Tables(s)
    requires a.Send? ==> s.server.resultsQueue[0].fd in s.peers
    ensures var t := Apply(answer, s, a);
            && Tables(t)
            && s.peers.Keys <= t.peers.Keys
            && (Subject(s, a).Some? ==> Subject(s, a).value in t.peers)
  {
    if a.Send? {
      SendTables(PopResult(s.server), s.server.resultsQueue[0], a.outcome);
    } else if a.Write? {
      WriteTables(s.server, a.fd, a.accepted);
    }
    hide Token, SendStep, WriteStep, Unread, FrameReady, WorkItems;
  }

  lemma StepItems(answer: Query -> Bytes, s: Sys, a: Action)
    requires Enabled(s, a)
    ensures forall x :: x in InFlight(answer, Apply(answer, s, a)) ==>
              x in InFlight(answer, s) || Subject(s, a) == Some(x.fd)
  {
    hide InFlight, Tokens, Apply;
    StepFlow(answer, s, a);
    if a.Receive? {
      TokensOfItems(answer, a.fd, s.peers[a.fd].inbox);
    }
    forall x | x in InFlight(answer, Apply(answer, s, a))
      ensures x in InFlight(answer, s) || Subject(s, a) == Some(x.fd)
    {
      assert x in InFlight(answer, s) + Flow(answer, s, a).0;
    }
  }

  lemma HeadInFlight(answer: Query -> Bytes, s: Sys)
    requires s.server.resultsQueue != []
    ensures s.server.resultsQueue[0] in InFlight(answer, s)
  {
    HeadTail(s.server.resultsQueue);
  }

  lemma StepGrounded(answer: Query -> Bytes, s: Sys, a: Action)
    requires Enabled(s, a) && Grounded(answer, s)
    ensures Grounded(answer, Apply(answer, s, a))
  {
    hide InFlight, Apply;
    if a.Send? {
      HeadInFlight(answer, s);
    }
    StepTables(answer, s, a);
    StepItems(answer, s, a);
  }

  // ---------------------------------------------------------------------
  // The step's own connection

  lemma InvAt(answer: Query -> Bytes, s: Sys, fd: int)
    requires Inv(answer, s) && fd in s.peers
    ensures Made(s, fd)
    ensures ConnOk(answer, fd, InFlight(answer, s), ViewOf(s, fd))
  {
    hide ConnOk, InFlight, ViewOf;
  }

  lemma AddNothing<T>(x: multiset<T>)
    ensures x + multiset{} == x
  {
  }

  /** Steps that neither receive nor send leave the items in flight as they are. */
  lemma SameFlight(answer: Query -> Bytes, s: Sys, a: Action)
    requires Enabled(s, a) && !a.Receive? && !a.Send?
    ensures InFlight(answer, Apply(answer, s, a)) == InFlight(answer, s)
  {
    hide InFlight, Apply;
    StepFlow(answer, s, a);
    AddNothing(InFlight(answer, s));
    AddNothing(InFlight(answer, Apply(answer, s, a)));
  }

  ghost predicate Stands(answer: Query -> Bytes, t: Sys, fd: int) {
    Made(t, fd) && ConnOk(answer, fd, InFlight(answer, t), ViewOf(t, fd))
  }

  const FRESH: View := View(Peer([], [], [], 0), [], true, false, None, [])

  lemma FreshOk(answer: Query -> Bytes, fd: int, inFlight: multiset<ResultItem>)
    requires forall x :: x in inFlight ==> x.fd != fd
    ensures ConnOk(answer, fd, inFlight, FRESH)
  {
  }

  lemma {:induction false} BusyFrom(ws: seq<Option<WorkItem>>)
    ensures forall w :: w in BusyItems(ws) ==> Some(w) in ws
  {
    if ws != [] {
      BusyFrom(ws[1..]);
      assert ws[0] in ws && forall w :: w in ws[1..] ==> w in ws;
    }
  }

  lemma TokensFrom(answer: Query -> Bytes, ws: seq<WorkItem>, fd: int)
    requires forall w :: w in ws ==> w.fd != fd
    ensures forall x :: x in Tokens(answer, ws) ==> x.fd != fd
  {
    forall x | x in Tokens(answer, ws)
      ensures x.fd != fd
    {
      var i :| 0 <= i < |ws| && Results(answer, ws)[i] == x;
      assert ws[i] in ws;
    }
  }

  /** An idle number has no item in flight. */
  lemma IdleItems(answer: Query -> Bytes, s: Sys, fd: int)
    requires Idle(s, fd)
    ensures forall x :: x in InFlight(answer, s) ==> x.fd != fd
  {
    BusyFrom(s.workers);
    hide BusyItems, Tokens;
    TokensFrom(answer, s.server.workQueue, fd);
    TokensFrom(answer, BusyItems(s.workers), fd);
  }

  /** No payload is kept for a connection that is not open. */
  lemma ClosedKeepsNothing(answer: Query -> Bytes, s: Sys, fd: int)
    requires Inv(answer, s) && fd !in s.server.interest
    ensures fd !in s.server.writeBuffers
  {
    hide InFlight, PeerOk, FlightOk, PendingOk, Frames;
    if fd in s.peers {
      InvAt(answer, s, fd);
    }
  }

  /** A new connection starts afresh, also under a number used before. */
  lemma ConnectOk(answer: Query -> Bytes, d: Discipline, s: Sys, a: Action)
    requires a.Connect? && Enabled(s, a) && d.quiet && Obeys(d, s, a) && Inv(answer, s)
    ensures Stands(answer, Apply(answer, s, a), a.fd)
  {
    hide InFlight, ConnOk;
    SameFlight(answer, s, a);
    IdleItems(answer, s, a.fd);
    ClosedKeepsNothing(answer, s, a.fd);
    assert ViewOf(Apply(answer, s, a), a.fd) == FRESH;
    FreshOk(answer, a.fd, InFlight(answer, s));
  }

  lemma AskOk(answer: Query -> Bytes, d: Discipline, s: Sys, a: Action)
    requires a.Ask? && Enabled(s, a) && RequestResponse(answer, d) && Obeys(d, s, a) && Inv(answer, s)
    ensures Stands(answer, Apply(answer, s, a), a.fd)
  {
    hide ConnOk, InFlight, Inv;
    SameFlight(answer, s, a);
    InvAt(answer, s, a.fd);
    QuestionAsked(answer, a.fd, InFlight(answer, s), ViewOf(s, a.fd), a.query);
  }

  lemma ReceiveFlight(answer: Query -> Bytes, s: Sys, a: Action)
    requires a.Receive? && Enabled(s, a) && |s.peers[a.fd].inbox| <= 1
    ensures var before, after := InFlight(answer, s), InFlight(answer, Apply(answer, s, a));
            && (s.peers[a.fd].inbox == [] ==> after == before)
            && (s.peers[a.fd].inbox != [] ==>
                  after == before + multiset{ResultItem(a.fd, answer(s.peers[a.fd].inbox[0]))})
  {
    hide InFlight, Apply, Tokens;
    StepFlow(answer, s, a);
    TokensOfItems(answer, a.fd, s.peers[a.fd].inbox);
    AddNothing(InFlight(answer, s));
    AddNothing(InFlight(answer, Apply(answer, s, a)));
  }

  lemma OneInInbox(answer: Query -> Bytes, fd: int, inFlight: multiset<ResultItem>, v: View)
    requires ConnOk(answer, fd, inFlight, v)
    ensures |v.peer.inbox| <= 1
  {
  }

  lemma ReceiveOk(answer: Query -> Bytes, s: Sys, a: Action)
    requires a.Receive? && Enabled(s, a) && Inv(answer, s)
    ensures Stands(answer, Apply(answer, s, a), a.fd)
  {
    hide ConnOk, InFlight, Inv;
    InvAt(answer, s, a.fd);
    OneInInbox(answer, a.fd, InFlight(answer, s), ViewOf(s, a.fd));
    ReceiveFlight(answer, s, a);
    var t := Apply(answer, s, a);
    InboxTaken(answer, a.fd, InFlight(answer, s), InFlight(answer, t), ViewOf(s, a.fd));
  }

  lemma SendViews(answer: Query -> Bytes, s: Sys, a: Action)
    requires a.Send? && Enabled(s, a)
    requires Made(s, s.server.resultsQueue[0].fd)
    ensures var r := s.server.resultsQueue[0]; var t := Apply(answer, s, a);
            && Made(t, r.fd)
            && ViewOf(t, r.fd) == SentView(ViewOf(s, r.fd), r.res, a.outcome)
  {
  }

  lemma SendOk(answer: Query -> Bytes, s: Sys, a: Action)
    requires a.Send? && Enabled(s, a) && Inv(answer, s)
    ensures s.server.resultsQueue[0].fd !in s.server.writeBuffers
    ensures Stands(answer, Apply(answer, s, a), s.server.resultsQueue[0].fd)
  {
    hide InFlight, ConnOk;
    StepFlow(answer, s, a);
    HeadInFlight(answer, s);
    var r, t := s.server.resultsQueue[0], Apply(answer, s, a);
    SentOk(answer, r.fd, InFlight(answer, s), InFlight(answer, t), ViewOf(s, r.fd), r, a.outcome);
    SendViews(answer, s, a);
  }

  lemma WatchedIsPending(answer: Query -> Bytes, fd: int, inFlight: multiset<ResultItem>, v: View)
    requires ConnOk(answer, fd, inFlight, v) && v.open && v.watched
    ensures v.pending.Some? && v.pending.value.sent < |v.pending.value.buffer|
  {
  }

  lemma WriteViews(answer: Query -> Bytes, s: Sys, a: Action)
    requires a.Write? && Enabled(s, a) && Made(s, a.fd)
    requires a.fd in s.server.writeBuffers
    requires s.server.writeBuffers[a.fd].sent <= |s.server.writeBuffers[a.fd].buffer|
    ensures Made(Apply(answer, s, a), a.fd)
    ensures ViewOf(Apply(answer, s, a), a.fd) == WrittenView(ViewOf(s, a.fd), a.accepted)
  {
  }

  lemma WriteOk(answer: Query -> Bytes, s: Sys, a: Action)
    requires a.Write? && Enabled(s, a) && Inv(answer, s)
    ensures a.fd in s.server.writeBuffers
    ensures Stands(answer, Apply(answer, s, a), a.fd)
  {
    hide ConnOk, InFlight;
    SameFlight(answer, s, a);
    InvAt(answer, s, a.fd);
    hide Inv;
    WatchedIsPending(answer, a.fd, InFlight(answer, s), ViewOf(s, a.fd));
    WrittenOk(answer, a.fd, InFlight(answer, s), ViewOf(s, a.fd), a.accepted);
    WriteViews(answer, s, a);
  }

  lemma ConsumedWithin(answer: Query -> Bytes, fd: int, inFlight: multiset<ResultItem>, v: View)
    requires ConnOk(answer, fd, inFlight, v)
    ensures v.peer.consumed <= |v.wire|
  {
  }

  lemma ReadAnswerOk(answer: Query -> Bytes, s: Sys, a: Action)
    requires a.ReadAnswer? && Enabled(s, a) && Inv(answer, s)
    ensures Stands(answer, Apply(answer, s, a), a.fd)
  {
    hide ConnOk, InFlight, Inv;
    SameFlight(answer, s, a);
    InvAt(answer, s, a.fd);
    ConsumedWithin(answer, a.fd, InFlight(answer, s), ViewOf(s, a.fd));
    ReadOk(answer, a.fd, InFlight(answer, s), ViewOf(s, a.fd));
  }

  lemma SubjectOk(answer: Query -> Bytes, d: Discipline, s: Sys, a: Action)
    requires Enabled(s, a) && RequestResponse(answer, d) && Obeys(d, s, a) && Inv(answer, s)
    requires Subject(s, a).Some?
    ensures Stands(answer, Apply(answer, s, a), Subject(s, a).value)
  {
    hide Stands, InFlight, Apply, ViewOf, ConnOk;
    match a {
      case Connect(_) => ConnectOk(answer, d, s, a);
      case Ask(_, _) => AskOk(answer, d, s, a);
      case Receive(_, _) => ReceiveOk(answer, s, a);
      case Send(_) => SendOk(answer, s, a);
      case Write(_, _) => WriteOk(answer, s, a);
      case ReadAnswer(_) => ReadAnswerOk(answer, s, a);
    }
  }

  lemma PeersOnlyGrow(answer: Query -> Bytes, s: Sys, a: Action, fd: int)
    requires Enabled(s, a) && fd in Apply(answer, s, a).peers && Subject(s, a) != Some(fd)
    ensures fd in s.peers
  {
  }

  /** One step of any kind keeps every connection in order. */
  lemma StepInv(answer: Query -> Bytes, d: Discipline, s: Sys, a: Action)
    requires Enabled(s, a) && RequestResponse(answer, d) && Obeys(d, s, a) && Inv(answer, s)
    ensures Inv(answer, Apply(answer, s, a))
  {
    hide ConnOk, InFlight, Apply, ViewOf;
    StepGrounded(answer, s, a);
    var t := Apply(answer, s, a);
    forall fd | fd in t.peers
      ensures ConnOk(answer, fd, InFlight(answer, t), ViewOf(t, fd))
    {
      if Subject(s, a) == Some(fd) {
        SubjectOk(answer, d, s, a);
      } else {
        PeersOnlyGrow(answer, s, a, fd);
        StepOthersOk(answer, s, a, fd);
      }
    }
  }

  lemma {:induction false} RunInv(answer: Query -> Bytes, d: Discipline, s: Sys, acts: seq<Action>, t: Sys)
    requires RequestResponse(answer, d) && Run(answer, d, s, acts, t) && Inv(answer, s)
    ensures Inv(answer, t)
    decreases |acts|
  {
    hide Inv, Apply, RequestResponse;
    if acts != [] {
      StepInv(answer, d, s, acts[0]);
      RunInv(answer, d, Apply(answer, s, acts[0]), acts[1..], t);
    }
  }

  lemma InitInv(answer: Query -> Bytes, s: Sys)
    requires Init(s)
    ensures Inv(answer, s)
  {
    NobodyBusy(s.workers);
  }

  lemma ReachableInv(answer: Query -> Bytes, d: Discipline, t: Sys)
    requires RequestResponse(answer, d) && Reachable(answer, d, t)
    ensures Inv(answer, t)
  {
    hide Run, Inv, Init, RequestResponse;
    var s, acts :| Init(s) && Run(answer, d, s, acts, t);
    InitInv(answer, s);
    RunInv(answer, d, s, acts, t);
  }
}
