// Every schedule runs out of useful steps, and then every client still connected has its answers.
module Progress {
  import opened Types
  import opened Client
  import opened Server
  import opened Pipeline
  import opened Conservation
  import opened Connections
  import opened Safety
  import opened Theorems

  // ---------------------------------------------------------------------
  // Steps that get the system further

  /**
   * A step of the server, a worker or a client's own reading that does something: new
   * connections and questions are left out, and so is a write that no byte is accepted in
   * and a receive that finds nothing and closes nothing.
   */
  predicate Effective(s: Sys, a: Action)
    requires Enabled(s, a)
  {
    match a
    case Connect(_) => false
    case Ask(_, _) => false
    case Receive(fd, end) => end != WouldBlock || s.peers[fd].inbox != []
    case Write(_, accepted) => accepted != Some(0)
    case _ => true
  }

  /** Those of them that the event loop, the workers and the clients take without any failure. */
  predicate Useful(s: Sys, a: Action) {
    && Enabled(s, a) && Effective(s, a)
    && match a
       case Receive(_, end) => end == WouldBlock
       case Send(outcome) => outcome.Accepts?
       case Write(_, accepted) => accepted.Some?
       case _ => true
  }

  /** No useful step is left. */
  ghost predicate Settled(s: Sys) {
    forall a :: !Useful(s, a)
  }

  /** Steps from s to t that all do something, in any order and with any failures. */
  ghost predicate EffectiveRun(answer: Query -> Bytes, s: Sys, acts: seq<Action>, t: Sys)
    decreases |acts|
  {
    if acts == [] then s == t
    else
      && Enabled(s, acts[0])
      && Effective(s, acts[0])
      && EffectiveRun(answer, Apply(answer, s, acts[0]), acts[1..], t)
  }

  // ---------------------------------------------------------------------
  // What is left to do, as a number

  function InboxWeight(answer: Query -> Bytes, qs: seq<Query>): nat {
    if qs == [] then 0 else 2 * |answer(qs[0])| + 8 + InboxWeight(answer, qs[1..])
  }

  function WorkWeight(answer: Query -> Bytes, ws: seq<WorkItem>): nat {
    if ws == [] then 0 else 2 * |answer(ws[0].query)| + 7 + WorkWeight(answer, ws[1..])
  }

  function WorkerWeight(answer: Query -> Bytes, ws: seq<Option<WorkItem>>): nat {
    if ws == [] then 0
    else (if ws[0].Some? then 2 * |answer(ws[0].value.query)| + 6 else 0) + WorkerWeight(answer, ws[1..])
  }

  function ResultWeight(rs: seq<ResultItem>): nat {
    if rs == [] then 0 else 2 * |rs[0].res| + 5 + ResultWeight(rs[1..])
  }

  function UnsentWeight(pending: Option<OutBuffer>): nat {
    if pending.Some? && pending.value.sent <= |pending.value.buffer|
    then 2 * (|pending.value.buffer| - pending.value.sent) else 0
  }

  /** One connection: its being open, its unreceived queries, its unsent and its unread bytes. */
  function ViewWeight(answer: Query -> Bytes, v: View): nat {
    (if v.open then 1 else 0)
    + InboxWeight(answer, v.peer.inbox)
    + UnsentWeight(v.pending)
    + (if v.peer.consumed <= |v.wire| then |v.wire| - v.peer.consumed else 0)
  }

  ghost predicate AllMade(s: Sys, fds: seq<int>) {
    forall i :: 0 <= i < |fds| ==> Made(s, fds[i])
  }

  ghost function ViewsWeight(answer: Query -> Bytes, s: Sys, fds: seq<int>): nat
    requires AllMade(s, fds)
  {
    if fds == [] then 0
    else
      assert AllMade(s, fds[1..]);
      ViewWeight(answer, ViewOf(s, fds[0])) + ViewsWeight(answer, s, fds[1..])
  }

  ghost function QueuesWeight(answer: Query -> Bytes, s: Sys): nat {
    WorkWeight(answer, s.server.workQueue) + WorkerWeight(answer, s.workers) + ResultWeight(s.server.resultsQueue)
  }

  /** The connections of s, each once. */
  ghost predicate Lists(fds: seq<int>, s: Sys) {
    && AllMade(s, fds)
    && (forall i, j :: 0 <= i < j < |fds| ==> fds[i] != fds[j])
    && (forall fd :: fd in s.peers ==> fd in fds)
  }

  ghost function Weight(answer: Query -> Bytes, s: Sys, fds: seq<int>): nat
    requires Lists(fds, s)
  {
    QueuesWeight(answer, s) + ViewsWeight(answer, s, fds)
  }

  lemma {:induction false} ListKeys(keys: set<int>) returns (fds: seq<int>)
    ensures forall i, j :: 0 <= i < j < |fds| ==> fds[i] != fds[j]
    ensures forall fd :: fd in keys <==> fd in fds
    decreases |keys|
  {
    if fd :| fd in keys {
      var rest := ListKeys(keys - {fd});
      fds := [fd] + rest;
    } else {
      fds := [];
    }
  }

  lemma ListExists(answer: Query -> Bytes, s: Sys) returns (fds: seq<int>)
    requires Inv(answer, s)
    ensures Lists(fds, s)
  {
    hide InFlight, AllOk;
    fds := ListKeys(s.peers.Keys);
    assert forall i :: 0 <= i < |fds| ==> fds[i] in fds;
  }

  // ---------------------------------------------------------------------
  // Every effective step lowers it

  lemma {:induction false} WorkWeightConcat(answer: Query -> Bytes, a: seq<WorkItem>, b: seq<WorkItem>)
    ensures WorkWeight(answer, a + b) == WorkWeight(answer, a) + WorkWeight(answer, b)
  {
    if a == [] {
      assert a + b == b;
    } else {
      assert (a + b)[1..] == a[1..] + b;
      WorkWeightConcat(answer, a[1..], b);
    }
  }

  lemma {:induction false} ItemsWeight(answer: Query -> Bytes, fd: int, qs: seq<Query>)
    ensures WorkWeight(answer, WorkItems(fd, qs)) + |qs| == InboxWeight(answer, qs)
  {
    if qs != [] {
      assert WorkItems(fd, qs)[1..] == WorkItems(fd, qs[1..]);
      ItemsWeight(answer, fd, qs[1..]);
    }
  }

  lemma {:induction false} WorkerWeightUpdate(answer: Query -> Bytes, ws: seq<Option<WorkItem>>, i: nat, w: WorkItem)
    requires i < |ws| && ws[i] == None
    ensures WorkerWeight(answer, ws[i := Some(w)]) == WorkerWeight(answer, ws) + 2 * |answer(w.query)| + 6
  {
    var us := ws[i := Some(w)];
    if i == 0 {
      assert us[1..] == ws[1..];
    } else {
      assert us[1..] == ws[1..][i - 1 := Some(w)];
      WorkerWeightUpdate(answer, ws[1..], i - 1, w);
    }
  }

  lemma {:induction false} ResultWeightSnoc(rs: seq<ResultItem>, r: ResultItem)
    ensures ResultWeight(rs + [r]) == ResultWeight(rs) + 2 * |r.res| + 5
  {
    if rs == [] {
      assert rs + [r] == [r] && [r][1..] == [];
    } else {
      assert (rs + [r])[1..] == rs[1..] + [r];
      ResultWeightSnoc(rs[1..], r);
    }
  }

  /** What a step adds to the weight of the queues and workers, negative when it takes away. */
  ghost function QueuesChange(answer: Query -> Bytes, s: Sys, a: Action): int
    requires Enabled(s, a)
  {
    match a
    case Receive(fd, _) => WorkWeight(answer, WorkItems(fd, s.peers[fd].inbox))
    case Take(_) => -1
    case Finish(_) => -1
    case Send(_) => -(2 * |s.server.resultsQueue[0].res| + 5)
    case _ => 0
  }

  lemma QueuesStep(answer: Query -> Bytes, s: Sys, a: Action)
    requires Enabled(s, a)
    ensures QueuesWeight(answer, Apply(answer, s, a)) == QueuesWeight(answer, s) + QueuesChange(answer, s, a)
  {
    match a {
      case Receive(fd, _) => WorkWeightConcat(answer, s.server.workQueue, WorkItems(fd, s.peers[fd].inbox));
      case Take(w) => WorkerWeightUpdate(answer, s.workers, w, s.server.workQueue[0]);
      case Finish(w) =>
        var idle, work := s.workers[w := None], s.workers[w].value;
        assert idle[w := Some(work)] == s.workers;
        WorkerWeightUpdate(answer, idle, w, work);
        ResultWeightSnoc(s.server.resultsQueue, Token(answer, work));
      case Send(o) => SendKeepsQueues(PopResult(s.server), s.server.resultsQueue[0], o);
      case _ =>
    }
  }

  lemma MadeStays(answer: Query -> Bytes, s: Sys, a: Action, fd: int)
    requires Enabled(s, a) && Made(s, fd)
    ensures Made(Apply(answer, s, a), fd)
  {
  }

  lemma AllMadeStays(answer: Query -> Bytes, s: Sys, a: Action, fds: seq<int>)
    requires Enabled(s, a) && AllMade(s, fds)
    ensures AllMade(Apply(answer, s, a), fds)
  {
    hide Apply, Enabled;
    forall i | 0 <= i < |fds|
      ensures Made(Apply(answer, s, a), fds[i])
    {
      MadeStays(answer, s, a, fds[i]);
    }
  }

  lemma {:induction false} OtherWeights(answer: Query -> Bytes, s: Sys, a: Action, fds: seq<int>)
    requires Enabled(s, a) && AllMade(s, fds) && AllMade(Apply(answer, s, a), fds)
    requires forall i :: 0 <= i < |fds| ==> Subject(s, a) != Some(fds[i])
    ensures ViewsWeight(answer, Apply(answer, s, a), fds) == ViewsWeight(answer, s, fds)
  {
    hide Apply, Enabled, Subject, ViewOf, ViewWeight;
    if fds != [] {
      OtherViews(answer, s, a, fds[0]);
      OtherWeights(answer, s, a, fds[1..]);
    }
  }

  /** The step's own connection accounts for the whole change. */
  lemma {:induction false} SubjectWeight(answer: Query -> Bytes, s: Sys, a: Action, fds: seq<int>, i: nat)
    requires Enabled(s, a) && AllMade(s, fds) && AllMade(Apply(answer, s, a), fds)
    requires forall j, k :: 0 <= j < k < |fds| ==> fds[j] != fds[k]
    requires i < |fds| && Subject(s, a) == Some(fds[i])
    ensures ViewsWeight(answer, Apply(answer, s, a), fds) + ViewWeight(answer, ViewOf(s, fds[i]))
         == ViewsWeight(answer, s, fds) + ViewWeight(answer, ViewOf(Apply(answer, s, a), fds[i]))
  {
    hide Apply, Enabled, Subject, ViewOf, ViewWeight;
    var rest := fds[1..];
    if i == 0 {
      OtherWeights(answer, s, a, rest);
    } else {
      OtherViews(answer, s, a, fds[0]);
      assert forall j, k :: 0 <= j < k < |rest| ==> rest[j] == fds[j + 1] && rest[k] == fds[k + 1];
      SubjectWeight(answer, s, a, rest, i - 1);
    }
  }

  lemma ReceiveLowers(answer: Query -> Bytes, s: Sys, a: Action)
    requires a.Receive? && Enabled(s, a) && Effective(s, a) && Made(s, a.fd) && Made(Apply(answer, s, a), a.fd)
    ensures ViewWeight(answer, ViewOf(Apply(answer, s, a), a.fd)) + QueuesChange(answer, s, a)
          < ViewWeight(answer, ViewOf(s, a.fd))
  {
    var v, t := ViewOf(s, a.fd), ViewOf(Apply(answer, s, a), a.fd);
    ItemsWeight(answer, a.fd, v.peer.inbox);
    assert t.peer == v.peer.(inbox := []) && t.wire == v.wire;
    assert UnsentWeight(t.pending) <= UnsentWeight(v.pending);
  }

  lemma SentLowers(answer: Query -> Bytes, v: View, payload: Bytes, o: SendOutcome)
    requires v.pending == None && v.peer.consumed <= |v.wire|
    ensures ViewWeight(answer, SentView(v, payload, o)) < ViewWeight(answer, v) + 2 * |payload| + 5
  {
  }

  lemma SendPending(s: Sys, fd: int)
    requires Made(s, fd) && fd !in s.server.writeBuffers
    ensures ViewOf(s, fd).pending == None
  {
  }

  lemma SendLowers(answer: Query -> Bytes, s: Sys, a: Action)
    requires a.Send? && Enabled(s, a) && Inv(answer, s)
    ensures var fd := s.server.resultsQueue[0].fd;
            && Made(s, fd) && Made(Apply(answer, s, a), fd)
            && ViewWeight(answer, ViewOf(Apply(answer, s, a), fd)) + QueuesChange(answer, s, a)
               < ViewWeight(answer, ViewOf(s, fd))
  {
    hide InFlight, ConnOk, ViewOf, Apply, ViewWeight, SentView;
    var r := s.server.resultsQueue[0];
    SendOk(answer, s, a);
    HeadInFlight(answer, s);
    InvAt(answer, s, r.fd);
    ConsumedWithin(answer, r.fd, InFlight(answer, s), ViewOf(s, r.fd));
    SendPending(s, r.fd);
    SendViews(answer, s, a);
    SentLowers(answer, ViewOf(s, r.fd), r.res, a.outcome);
  }

  lemma WrittenLowers(answer: Query -> Bytes, v: View, o: Option<nat>)
    requires v.open && v.pending.Some? && v.pending.value.sent < |v.pending.value.buffer|
    requires v.peer.consumed <= |v.wire| && o != Some(0)
    ensures ViewWeight(answer, WrittenView(v, o)) < ViewWeight(answer, v)
  {
  }

  lemma WriteLowers(answer: Query -> Bytes, s: Sys, a: Action)
    requires a.Write? && Enabled(s, a) && Effective(s, a) && Inv(answer, s)
    ensures Made(s, a.fd) && Made(Apply(answer, s, a), a.fd)
    ensures ViewWeight(answer, ViewOf(Apply(answer, s, a), a.fd)) < ViewWeight(answer, ViewOf(s, a.fd))
  {
    hide InFlight, ConnOk, ViewWeight, WrittenView;
    InvAt(answer, s, a.fd);
    ConsumedWithin(answer, a.fd, InFlight(answer, s), ViewOf(s, a.fd));
    WatchedIsPending(answer, a.fd, InFlight(answer, s), ViewOf(s, a.fd));
    WriteViews(answer, s, a);
    WrittenLowers(answer, ViewOf(s, a.fd), a.accepted);
  }

  lemma ReadLowers(answer: Query -> Bytes, s: Sys, a: Action)
    requires a.ReadAnswer? && Enabled(s, a) && Made(s, a.fd) && Made(Apply(answer, s, a), a.fd)
    ensures ViewWeight(answer, ViewOf(Apply(answer, s, a), a.fd)) < ViewWeight(answer, ViewOf(s, a.fd))
  {
  }

  lemma EffectiveLowers(answer: Query -> Bytes, s: Sys, a: Action)
    requires Enabled(s, a) && Effective(s, a) && Inv(answer, s)
    ensures Subject(s, a) == None ==> QueuesChange(answer, s, a) < 0
    ensures Subject(s, a).Some? ==>
              var fd := Subject(s, a).value;
              && fd in s.peers && Made(s, fd) && Made(Apply(answer, s, a), fd)
              && ViewWeight(answer, ViewOf(Apply(answer, s, a), fd)) + QueuesChange(answer, s, a)
                 < ViewWeight(answer, ViewOf(s, fd))
  {
    hide InFlight, ConnOk, ViewOf, Apply, ViewWeight;
    match a {
      case Receive(fd, _) =>
        InvAt(answer, s, fd);
        MadeStays(answer, s, a, fd);
        ReceiveLowers(answer, s, a);
      case Send(_) => SendLowers(answer, s, a);
      case Write(_, _) => WriteLowers(answer, s, a);
      case ReadAnswer(fd) =>
        InvAt(answer, s, fd);
        MadeStays(answer, s, a, fd);
        ReadLowers(answer, s, a);
      case _ =>
    }
  }

  lemma SamePeers(answer: Query -> Bytes, s: Sys, a: Action)
    requires Enabled(s, a) && Effective(s, a)
    ensures Apply(answer, s, a).peers.Keys == s.peers.Keys
    ensures |Apply(answer, s, a).workers| == |s.workers|
  {
  }

  lemma StepLowers(answer: Query -> Bytes, s: Sys, a: Action, fds: seq<int>)
    requires Enabled(s, a) && Effective(s, a) && Inv(answer, s) && Lists(fds, s)
    ensures Lists(fds, Apply(answer, s, a))
    ensures Weight(answer, Apply(answer, s, a), fds) < Weight(answer, s, fds)
  {
    hide Inv, Apply, Enabled, Effective, ViewOf, ViewWeight, QueuesWeight, QueuesChange, Subject;
    AllMadeStays(answer, s, a, fds);
    SamePeers(answer, s, a);
    QueuesStep(answer, s, a);
    EffectiveLowers(answer, s, a);
    if Subject(s, a) == None {
      OtherWeights(answer, s, a, fds);
    } else {
      var i :| 0 <= i < |fds| && fds[i] == Subject(s, a).value;
      SubjectWeight(answer, s, a, fds, i);
    }
  }

  // ---------------------------------------------------------------------
  // Where no useful step is left

  lemma SettledIsDrained(s: Sys)
    requires Settled(s) && s.workers != []
    ensures Drained(s)
  {
    forall i | 0 <= i < |s.workers|
      ensures s.workers[i] == None
    {
      assert !Useful(s, Finish(i));
    }
    assert !Useful(s, Take(0));
    assert !Useful(s, Send(Accepts(0)));
  }

  lemma SettledInbox(s: Sys, fd: int)
    requires Settled(s) && fd in s.peers && fd in s.server.interest
    ensures s.peers[fd].inbox == []
    ensures !s.server.interest[fd]
    ensures fd in s.server.wire ==> !FrameReady(Unread(s, fd))
  {
    assert !Useful(s, Receive(fd, WouldBlock));
    assert !Useful(s, Write(fd, Some(1)));
    assert !Useful(s, ReadAnswer(fd));
  }

  lemma WholeFrameIsReady(ps: seq<Bytes>, a: nat)
    requires a < |ps| && |ps[a]| < INT32_LIMIT
    ensures |Frames(ps[..a])| <= |Frames(ps)|
    ensures FrameReady(Frames(ps)[|Frames(ps[..a])|..])
  {
    FramesSplit(ps, a);
    var start, all := |Frames(ps[..a])|, Frames(ps);
    var upTo := Frames(ps[..a]) + Frame(ps[a]);
    assert all[start..][..4] == CountBytes(|ps[a]|) by {
      assert forall i :: 0 <= i < 4 ==> all[start..][i] == upTo[start + i];
    }
    CountRoundTrip(|ps[a]|);
  }

  /** All handed over and sent, and no frame to read: the client has read everything. */
  lemma NothingToRead(answer: Query -> Bytes, s: Sys, fd: int)
    requires Inv(answer, s) && fd in s.peers && fd in s.server.interest && !s.server.interest[fd]
    requires fd in s.served && |s.served[fd]| == |s.peers[fd].asked|
    requires fd in s.server.wire && !FrameReady(Unread(s, fd))
    ensures s.peers[fd].answers == AnswersOf(answer, s.peers[fd].asked)
  {
    hide Frames, InFlight, PendingOk, FrameReady;
    InvAt(answer, s, fd);
    var v := ViewOf(s, fd);
    assert v.peer.asked[..|v.peer.asked|] == v.peer.asked;
    if |v.peer.answers| < |v.handed| {
      WholeFrameIsReady(v.handed, |v.peer.answers|);
    } else {
      assert v.handed[..|v.handed|] == v.handed;
    }
  }

  lemma SettledMeansAnswered(answer: Query -> Bytes, s: Sys, fd: int)
    requires Inv(answer, s) && Settled(s) && s.workers != []
    requires fd in s.peers && fd in s.server.interest
    ensures s.peers[fd].answers == AnswersOf(answer, s.peers[fd].asked)
  {
    hide Inv, Drained, Settled, FrameReady;
    SettledIsDrained(s);
    SettledInbox(s, fd);
    DrainedMeansHanded(answer, s, fd);
    NothingToRead(answer, s, fd);
  }

  // ---------------------------------------------------------------------
  // Whole schedules

  lemma EffectiveObeys(d: Discipline, s: Sys, a: Action)
    requires Enabled(s, a) && Effective(s, a)
    ensures Obeys(d, s, a)
  {
  }

  lemma {:induction false} EffectiveRunLowers(answer: Query -> Bytes, d: Discipline, s: Sys, acts: seq<Action>, t: Sys,
                                              fds: seq<int>)
    requires RequestResponse(answer, d) && Inv(answer, s) && Lists(fds, s) && EffectiveRun(answer, s, acts, t)
    ensures Inv(answer, t) && Lists(fds, t) && |t.workers| == |s.workers|
    ensures Run(answer, d, s, acts, t)
    ensures |acts| + Weight(answer, t, fds) <= Weight(answer, s, fds)
    decreases |acts|
  {
    hide Inv, Lists, Apply, Enabled, Effective, Weight, RequestResponse, Obeys;
    if acts != [] {
      EffectiveObeys(d, s, acts[0]);
      StepInv(answer, d, s, acts[0]);
      StepLowers(answer, s, acts[0], fds);
      SamePeers(answer, s, acts[0]);
      EffectiveRunLowers(answer, d, Apply(answer, s, acts[0]), acts[1..], t, fds);
    }
  }

  /**
   * From any reachable state, whatever order the event loop, the workers and the clients
   * take their steps in and whatever fails on the way: the steps that do something number at
   * most the weight of the state, and where no useful one is left every client that is still
   * connected has read exactly the answers to all its questions.
   */
  lemma EveryScheduleAnswers(answer: Query -> Bytes, d: Discipline, s: Sys, fds: seq<int>, acts: seq<Action>, t: Sys)
    requires RequestResponse(answer, d) && Reachable(answer, d, s) && Lists(fds, s) && s.workers != []
    requires EffectiveRun(answer, s, acts, t)
    ensures Run(answer, d, s, acts, t)
    ensures |acts| <= Weight(answer, s, fds)
    ensures Settled(t) ==> forall fd :: fd in t.peers && fd in t.server.interest ==>
              t.peers[fd].answers == AnswersOf(answer, t.peers[fd].asked)
  {
    hide Inv, Lists, Weight, Settled, Reachable, EffectiveRun, RequestResponse;
    ReachableInv(answer, d, s);
    EffectiveRunLowers(answer, d, s, acts, t, fds);
    if Settled(t) {
      forall fd | fd in t.peers && fd in t.server.interest
        ensures t.peers[fd].answers == AnswersOf(answer, t.peers[fd].asked)
      {
        SettledMeansAnswered(answer, t, fd);
      }
    }
  }

  /** A useful step opens and closes nothing and asks nothing. */
  lemma UsefulKeepsOpen(answer: Query -> Bytes, s: Sys, a: Action, fd: int)
    requires Useful(s, a) && fd in s.peers && fd in s.server.interest
    requires a.Send? && s.server.resultsQueue[0].fd == fd ==> fd !in s.server.writeBuffers
    requires a.Write? && a.fd == fd ==>
               fd in s.server.writeBuffers && s.server.writeBuffers[fd].sent <= |s.server.writeBuffers[fd].buffer|
    ensures var t := Apply(answer, s, a);
            fd in t.peers && fd in t.server.interest && t.peers[fd].asked == s.peers[fd].asked
  {
  }

  lemma UsefulStep(answer: Query -> Bytes, s: Sys, a: Action, fd: int)
    requires Useful(s, a) && Inv(answer, s) && fd in s.peers && fd in s.server.interest
    ensures var t := Apply(answer, s, a);
            fd in t.peers && fd in t.server.interest && t.peers[fd].asked == s.peers[fd].asked
  {
    hide InFlight, ConnOk;
    InvAt(answer, s, fd);
    if a.Send? {
      SendOk(answer, s, a);
    } else if a.Write? && a.fd == fd {
      WatchedIsPending(answer, fd, InFlight(answer, s), ViewOf(s, fd));
    }
    hide Inv;
    UsefulKeepsOpen(answer, s, a, fd);
  }

  lemma {:induction false} UsefulStepsAnswer(answer: Query -> Bytes, d: Discipline, s: Sys, fds: seq<int>, fd: int)
    returns (acts: seq<Action>, t: Sys)
    requires RequestResponse(answer, d) && Inv(answer, s) && Lists(fds, s) && s.workers != []
    requires fd in s.peers && fd in s.server.interest
    ensures EffectiveRun(answer, s, acts, t) && fd in t.peers
    ensures t.peers[fd].asked == s.peers[fd].asked
    ensures t.peers[fd].answers == AnswersOf(answer, s.peers[fd].asked)
    decreases Weight(answer, s, fds)
  {
    if Settled(s) {
      SettledMeansAnswered(answer, s, fd);
      return [], s;
    }
    hide Inv, Lists, Apply, Weight, Effective, Enabled, RequestResponse;
    var a :| Useful(s, a);
    EffectiveObeys(d, s, a);
    StepInv(answer, d, s, a);
    StepLowers(answer, s, a, fds);
    SamePeers(answer, s, a);
    UsefulStep(answer, s, a, fd);
    acts, t := UsefulStepsAnswer(answer, d, Apply(answer, s, a), fds, fd);
    assert ([a] + acts)[1..] == acts;
    acts := [a] + acts;
  }

  /**
   * Wherever a run has got to, the steps of the server, the workers and the clients' own
   * reading suffice to give a connected client the rest of its answers.
   */
  lemma AnswerStillPossible(answer: Query -> Bytes, d: Discipline, s: Sys, fd: int) returns (acts: seq<Action>, t: Sys)
    requires RequestResponse(answer, d) && Reachable(answer, d, s) && s.workers != []
    requires fd in s.peers && fd in s.server.interest
    ensures EffectiveRun(answer, s, acts, t) && Run(answer, d, s, acts, t) && fd in t.peers
    ensures t.peers[fd].asked == s.peers[fd].asked
    ensures t.peers[fd].answers == AnswersOf(answer, s.peers[fd].asked)
  {
    hide Inv, Lists, Weight, Reachable, EffectiveRun, RequestResponse;
    ReachableInv(answer, d, s);
    var fds := ListExists(answer, s);
    acts, t := UsefulStepsAnswer(answer, d, s, fds, fd);
    EffectiveRunLowers(answer, d, s, acts, t, fds);
  }
}
