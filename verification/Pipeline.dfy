// The whole system: clients, the event loop, the two queues and any number of workers,
// taking one atomic step at a time in any order.
module Pipeline {
  import opened Types
  import opened Client
  import opened Server

  /** One client connection, from its far end. */
  datatype Peer = Peer(
    asked: seq<Query>,        // the queries it has sent, in order
    inbox: seq<Query>,        // those the server has not received yet
    answers: seq<Bytes>,      // the payloads it has read
    consumed: nat)            // how many bytes of the connection that took

  datatype Sys = Sys(
    server: ServerState,
    workers: seq<Option<WorkItem>>,
    peers: map<int, Peer>,
    // The payloads passed to send_result for each connection since it was made.
    served: map<int, seq<Bytes>>,
    // Histories: what was pushed to the work queue, taken from it, finished by a worker,
    // and passed to send_result.
    accepted: seq<WorkItem>,
    taken: seq<WorkItem>,
    finished: seq<WorkItem>,
    handed: seq<ResultItem>)

  datatype Action =
    | Connect(fd: int)
    | Ask(fd: int, query: Query)
    | Receive(fd: int, end: ReadEnd)
    | Take(worker: nat)
    | Finish(worker: nat)
    | Send(outcome: SendOutcome)
    | Write(fd: int, accepted: Option<nat>)
    | ReadAnswer(fd: int)

  function Initial(workers: seq<Option<WorkItem>>): Sys {
    Sys(ServerState([], [], map[], map[], map[]), workers, map[], map[], [], [], [], [])
  }

  ghost predicate Init(s: Sys) {
    s == Initial(s.workers) && forall i :: 0 <= i < |s.workers| ==> s.workers[i] == None
  }

  /** What has arrived at the client and not been read yet. */
  function Unread(s: Sys, fd: int): Bytes
    requires fd in s.peers && fd in s.server.wire
  {
    if s.peers[fd].consumed <= |s.server.wire[fd]|
    then s.server.wire[fd][s.peers[fd].consumed..] else []
  }

  /** A whole frame is there to be read. */
  predicate FrameReady(stream: Bytes) {
    |stream| >= 4 && 0 <= SignedCount(stream[..4]) <= |stream| - 4
  }

  predicate Enabled(s: Sys, a: Action) {
    match a
    case Connect(fd) => fd !in s.server.interest
    case Ask(fd, _) => fd in s.peers && fd in s.server.interest
    case Receive(fd, _) => fd in s.peers && fd in s.server.interest
    case Take(w) => w < |s.workers| && s.workers[w] == None && s.server.workQueue != []
    case Finish(w) => w < |s.workers| && s.workers[w].Some?
    case Send(_) => s.server.resultsQueue != []
    case Write(fd, _) => fd in s.server.interest && s.server.interest[fd]
    case ReadAnswer(fd) => fd in s.peers && fd in s.server.wire && FrameReady(Unread(s, fd))
  }

  /** A work item seen as the result it will become. */
  function Token(answer: Query -> Bytes, w: WorkItem): ResultItem {
    ResultItem(w.fd, answer(w.query))
  }

  /**
   * One step; answer is what a worker computes for a query. A connection is made under any
   * number that is not open, and what was known of an earlier one of that number is dropped.
   */
  ghost function Apply(answer: Query -> Bytes, s: Sys, a: Action): Sys
    requires Enabled(s, a)
  {
    match a
    case Connect(fd) =>
      s.(peers := s.peers[fd := Peer([], [], [], 0)],
         served := s.served[fd := []],
         server := s.server.(interest := s.server.interest[fd := false], wire := s.server.wire[fd := []]))
    case Ask(fd, q) =>
      var p := s.peers[fd];
      s.(peers := s.peers[fd := p.(asked := p.asked + [q], inbox := p.inbox + [q])])
    case Receive(fd, end) =>
      var p := s.peers[fd];
      s.(peers := s.peers[fd := p.(inbox := [])],
         server := ReadStep(s.server, fd, p.inbox, end),
         accepted := s.accepted + WorkItems(fd, p.inbox))
    case Take(w) =>
      s.(workers := s.workers[w := Some(s.server.workQueue[0])],
         server := s.server.(workQueue := s.server.workQueue[1..]),
         taken := s.taken + [s.server.workQueue[0]])
    case Finish(w) =>
      var work := s.workers[w].value;
      s.(workers := s.workers[w := None],
         server := s.server.(resultsQueue := s.server.resultsQueue + [Token(answer, work)]),
         finished := s.finished + [work])
    case Send(o) =>
      var r := s.server.resultsQueue[0];
      s.(server := SendStep(PopResult(s.server), r, o),
         served := s.served[r.fd := (if r.fd in s.served then s.served[r.fd] else []) + [r.res]],
         handed := s.handed + [r])
    case Write(fd, o) =>
      s.(server := WriteStep(s.server, fd, o))
    case ReadAnswer(fd) =>
      var p, stream := s.peers[fd], Unread(s, fd);
      var count := SignedCount(stream[..4]);
      s.(peers := s.peers[fd := p.(answers := p.answers + [stream[4..4 + count]],
                                   consumed := p.consumed + 4 + count)])
  }

  /** Nothing of this connection number is on its way from handle_read to send_result. */
  predicate Idle(s: Sys, fd: int) {
    && (forall w :: w in s.server.workQueue ==> w.fd != fd)
    && (forall w :: w in s.workers && w.Some? ==> w.value.fd != fd)
    && (forall r :: r in s.server.resultsQueue ==> r.fd != fd)
  }

  /** Nothing is on its way from handle_read to send_result. */
  ghost predicate Drained(s: Sys) {
    s.server.workQueue == [] && s.server.resultsQueue == []
    && forall i :: 0 <= i < |s.workers| ==> s.workers[i] == None
  }

  /** How clients and the operating system behave. */
  datatype Discipline = Discipline(
    limit: nat,               // how many of its queries a client leaves unanswered at most
    askable: Query -> bool,   // the queries that clients send
    quiet: bool)              // a number is given out only when nothing of it is in flight

  /** Some client may come to send this query. */
  predicate MayAsk(d: Discipline, q: Query) {
    d.limit > 0 && d.askable(q)
  }

  predicate Obeys(d: Discipline, s: Sys, a: Action)
    requires Enabled(s, a)
  {
    match a
    case Connect(fd) => d.quiet ==> Idle(s, fd)
    case Ask(fd, q) => MayAsk(d, q) && |s.peers[fd].asked| < |s.peers[fd].answers| + d.limit
    case _ => true
  }

  /** The answers to what clients send can be announced by an int32 count. */
  ghost predicate Sized(answer: Query -> Bytes, d: Discipline) {
    forall q :: MayAsk(d, q) ==> |answer(q)| < INT32_LIMIT
  }

  /**
   * The client program, which sends a query only after reading the whole answer to the one
   * before, and numbers that are not given out again too early.
   */
  ghost predicate RequestResponse(answer: Query -> Bytes, d: Discipline) {
    d.limit <= 1 && d.quiet && Sized(answer, d)
  }

  /** A run of enabled steps from s to t under a discipline. */
  ghost predicate Run(answer: Query -> Bytes, d: Discipline, s: Sys, acts: seq<Action>, t: Sys)
    decreases |acts|
  {
    if acts == [] then s == t
    else
      && Enabled(s, acts[0])
      && Obeys(d, s, acts[0])
      && Run(answer, d, Apply(answer, s, acts[0]), acts[1..], t)
  }

  /** Some run leads from the start to t, with any number of workers and any schedule. */
  ghost predicate Reachable(answer: Query -> Bytes, d: Discipline, t: Sys) {
    exists s, acts :: Init(s) && Run(answer, d, s, acts, t)
  }

  lemma {:induction false} RunLast(answer: Query -> Bytes, d: Discipline, s: Sys, acts: seq<Action>, t: Sys, a: Action)
    requires Run(answer, d, s, acts, t) && Enabled(t, a) && Obeys(d, t, a)
    ensures Run(answer, d, s, acts + [a], Apply(answer, t, a))
    decreases |acts|
  {
    hide Apply, Enabled, Obeys;
    var all := acts + [a];
    if acts == [] {
      assert all[1..] == [];
      assert Run(answer, d, Apply(answer, t, a), [], Apply(answer, t, a));
    } else {
      assert all[1..] == acts[1..] + [a];
      RunLast(answer, d, Apply(answer, s, acts[0]), acts[1..], t, a);
    }
  }

  lemma ReachableStep(answer: Query -> Bytes, d: Discipline, t: Sys, a: Action)
    requires Reachable(answer, d, t) && Enabled(t, a) && Obeys(d, t, a)
    ensures Reachable(answer, d, Apply(answer, t, a))
  {
    hide Run, Init, Apply, Enabled, Obeys;
    var s, acts :| Init(s) && Run(answer, d, s, acts, t);
    RunLast(answer, d, s, acts, t, a);
  }
}
