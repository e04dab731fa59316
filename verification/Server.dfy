// The epoll server: what each handler does to the queues, the pending write buffers, the
// epoll interest and the bytes on each connection, for every outcome of the socket calls.
module Server {
  import opened Types
  import opened Client
  import opened TsQueues

  datatype WorkItem = WorkItem(fd: int, query: Query)

  datatype ResultItem = ResultItem(fd: int, res: Bytes)

  /** A payload of which the first sent bytes have been accepted by the socket. */
  datatype OutBuffer = OutBuffer(buffer: Bytes, sent: nat)

  datatype ServerState = ServerState(
    workQueue: seq<WorkItem>,
    resultsQueue: seq<ResultItem>,
    writeBuffers: map<int, OutBuffer>,
    // The open connections, with whether EPOLLOUT is in their interest set.
    interest: map<int, bool>,
    // Every byte the socket of a connection has accepted.
    wire: map<int, Bytes>)

  /** How the receive loop ends. */
  datatype ReadEnd = WouldBlock | PeerClosed | RecvError

  /** How the two sends of send_result go: the payload send may take any prefix. */
  datatype SendOutcome = CountFails | PayloadFails | Accepts(n: nat)

  function Put(s: ServerState, fd: int, bytes: Bytes): ServerState {
    s.(wire := s.wire[fd := (if fd in s.wire then s.wire[fd] else []) + bytes])
  }

  function Close(s: ServerState, fd: int): ServerState {
    s.(interest := s.interest - {fd})
  }

  function WorkItems(fd: int, qs: seq<Query>): (r: seq<WorkItem>)
    ensures |r| == |qs|
  {
    if qs == [] then [] else [WorkItem(fd, qs[0])] + WorkItems(fd, qs[1..])
  }

  function ReadStep(s: ServerState, fd: int, arrivals: seq<Query>, end: ReadEnd): ServerState {
    var t := s.(workQueue := s.workQueue + WorkItems(fd, arrivals));
    if end == WouldBlock then t else Close(t.(writeBuffers := t.writeBuffers - {fd}), fd)
  }

  function SendStep(s: ServerState, r: ResultItem, o: SendOutcome): ServerState {
    // On a descriptor that is no longer open the first send fails.
    if r.fd !in s.interest || o == CountFails then Close(s, r.fd)
    else
      var t := Put(s, r.fd, CountBytes(|r.res|));
      match o
      case PayloadFails => Close(t, r.fd)
      case Accepts(n) =>
        var sent := Least(n, |r.res|);
        var u := Put(t, r.fd, r.res[..sent]);
        if sent < |r.res|
        then u.(writeBuffers := u.writeBuffers[r.fd := OutBuffer(r.res, sent)],
                interest := u.interest[r.fd := true])
        else u
  }

  /** What send_result puts on an open connection, whatever the outcome: the start of the result's frame. */
  lemma SendPutsFrameStart(s: ServerState, r: ResultItem, o: SendOutcome)
    requires r.fd in s.interest && r.fd in s.wire
    ensures var k := if o == CountFails then 0 else if o == PayloadFails then 4 else 4 + Least(o.n, |r.res|);
            && r.fd in SendStep(s, r, o).wire
            && SendStep(s, r, o).wire[r.fd] == s.wire[r.fd] + Frame(r.res)[..k]
  {
    if o.Accepts? {
      var sent := Least(o.n, |r.res|);
      assert Frame(r.res)[..4 + sent] == CountBytes(|r.res|) + r.res[..sent];
    } else if o == PayloadFails {
      assert Frame(r.res)[..4] == CountBytes(|r.res|);
    }
  }

  /** None stands for a failed send. */
  function WriteStep(s: ServerState, fd: int, o: Option<nat>): ServerState {
    if fd !in s.writeBuffers then s
    else
      var ob := s.writeBuffers[fd];
      if o.None? || fd !in s.interest || ob.sent > |ob.buffer|
      then Close(s.(writeBuffers := s.writeBuffers - {fd}), fd)
      else
        var sent := ob.sent + Least(o.value, |ob.buffer| - ob.sent);
        var t := Put(s, fd, ob.buffer[ob.sent..sent]);
        if sent == |ob.buffer|
        then t.(writeBuffers := t.writeBuffers - {fd}, interest := t.interest[fd := false])
        else t.(writeBuffers := t.writeBuffers[fd := OutBuffer(ob.buffer, sent)])
  }

  function PopResult(s: ServerState): ServerState
    requires s.resultsQueue != []
  {
    s.(resultsQueue := s.resultsQueue[1..])
  }

  /** The results loop: each waiting result in turn, with the outcome of its sends. */
  function DrainSteps(s: ServerState, outcomes: seq<SendOutcome>): ServerState
    requires |outcomes| >= |s.resultsQueue|
    decreases |s.resultsQueue|
  {
    if s.resultsQueue == [] then s
    else DrainSteps(SendStep(PopResult(s), s.resultsQueue[0], outcomes[0]), outcomes[1..])
  }

  class EpollServer {
    const workQueue: TsQueue<WorkItem>
    const resultsQueue: TsQueue<ResultItem>
    var writeBuffers: map<int, OutBuffer>
    var interest: map<int, bool>
    // The effect of the sends on the sockets.
    var wire: map<int, Bytes>

    ghost function State(): ServerState
      reads this, workQueue, resultsQueue
    {
      ServerState(workQueue.items, resultsQueue.items, writeBuffers, interest, wire)
    }

    constructor ()
      ensures State() == ServerState([], [], map[], map[], map[])
    {
      workQueue := new TsQueue<WorkItem>();
      resultsQueue := new TsQueue<ResultItem>();
      writeBuffers, interest, wire := map[], map[], map[];
    }

    method Transmit(fd: int, bytes: Bytes)
      modifies this`wire
      ensures State() == Put(old(State()), fd, bytes)
    {
      wire := wire[fd := (if fd in wire then wire[fd] else []) + bytes];
    }

    /** The receive loop: every whole query that has arrived, then the end of the batch. */
    method HandleRead(clientFd: int, arrivals: seq<Query>, end: ReadEnd)
      modifies this, workQueue
      ensures State() == ReadStep(old(State()), clientFd, arrivals, end)
    {
      var i := 0;
      while i < |arrivals|
        invariant 0 <= i <= |arrivals|
        invariant workQueue.items + WorkItems(clientFd, arrivals[i..])
               == old(workQueue.items) + WorkItems(clientFd, arrivals)
        invariant unchanged(this) && unchanged(resultsQueue)
      {
        assert arrivals[i..][1..] == arrivals[i + 1..];
        workQueue.Push(WorkItem(clientFd, arrivals[i]));
        i := i + 1;
      }
      match end
      case WouldBlock =>
      case PeerClosed =>
        interest := interest - {clientFd};
        writeBuffers := writeBuffers - {clientFd};
      case RecvError =>
        interest := interest - {clientFd};
        writeBuffers := writeBuffers - {clientFd};
    }

    /** The count, then as much of the payload as the socket takes; the rest is kept. */
    method SendResult(result: ResultItem, outcome: SendOutcome)
      modifies this
      ensures State() == SendStep(old(State()), result, outcome)
    {
      var buffer := result.res;
      if result.fd !in interest || outcome == CountFails {
        interest := interest - {result.fd};
        return;
      }
      Transmit(result.fd, CountBytes(|buffer|));
      if outcome == PayloadFails {
        interest := interest - {result.fd};
        return;
      }
      var bytesSent := Least(outcome.n, |buffer|);
      Transmit(result.fd, buffer[..bytesSent]);
      if bytesSent < |buffer| {
        writeBuffers := writeBuffers[result.fd := OutBuffer(buffer, bytesSent)];
        interest := interest[result.fd := true];
      }
    }

    /** Resumes a kept payload from where the last send stopped. */
    method HandleWrite(clientFd: int, outcome: Option<nat>)
      modifies this
      ensures State() == WriteStep(old(State()), clientFd, outcome)
    {
      if clientFd !in writeBuffers {
        return;
      }
      var ob := writeBuffers[clientFd];
      if outcome.None? || clientFd !in interest || ob.sent > |ob.buffer| {
        interest := interest - {clientFd};
        writeBuffers := writeBuffers - {clientFd};
        return;
      }
      var sent := ob.sent + Least(outcome.value, |ob.buffer| - ob.sent);
      Transmit(clientFd, ob.buffer[ob.sent..sent]);
      if sent == |ob.buffer| {
        writeBuffers := writeBuffers - {clientFd};
        interest := interest[clientFd := false];
      } else {
        writeBuffers := writeBuffers[clientFd := OutBuffer(ob.buffer, sent)];
      }
    }

    /** Drains the results queue. */
    method ProcessResults(outcomes: seq<SendOutcome>)
      requires |outcomes| >= |resultsQueue.items|
      modifies this, resultsQueue
      ensures resultsQueue.items == []
      ensures State() == DrainSteps(old(State()), outcomes)
    {
      ghost var whole := DrainSteps(State(), outcomes);
      var rest := outcomes;
      while true
        invariant |rest| >= |resultsQueue.items|
        invariant DrainSteps(State(), rest) == whole
        decreases |resultsQueue.items|
      {
        ghost var before := State();
        var result := resultsQueue.TryPop();
        if result.None? {
          break;
        }
        assert State() == PopResult(before);
        assert before.resultsQueue[0] == result.value;
        SendResult(result.value, rest[0]);
        rest := rest[1..];
      }
    }
  }
}
