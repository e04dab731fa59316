// Every accepted query is in exactly one place until it is answered, for any clients.
module Conservation {
  import opened Types
  import opened Server
  import opened Pipeline

  function Results(answer: Query -> Bytes, ws: seq<WorkItem>): (rs: seq<ResultItem>)
    ensures |rs| == |ws| && forall i :: 0 <= i < |ws| ==> rs[i] == Token(answer, ws[i])
  {
    seq(|ws|, i requires 0 <= i < |ws| => Token(answer, ws[i]))
  }

  ghost function Tokens(answer: Query -> Bytes, ws: seq<WorkItem>): multiset<ResultItem> {
    multiset(Results(answer, ws))
  }

  /** The items that workers are busy with. */
  function BusyItems(ws: seq<Option<WorkItem>>): seq<WorkItem> {
    if ws == [] then []
    else (if ws[0].Some? then [ws[0].value] else []) + BusyItems(ws[1..])
  }

  /** Everything on its way from handle_read to send_result. */
  ghost function InFlight(answer: Query -> Bytes, s: Sys): multiset<ResultItem> {
    Tokens(answer, s.server.workQueue) + Tokens(answer, BusyItems(s.workers)) + multiset(s.server.resultsQueue)
  }

  lemma Regroup<T>(a: multiset<T>, b: multiset<T>, c: multiset<T>)
    ensures a + (b + c) == (a + b) + c
    ensures (a + b) + c == (a + c) + b
  {
  }

  lemma TokensConcat(answer: Query -> Bytes, a: seq<WorkItem>, b: seq<WorkItem>)
    ensures Tokens(answer, a + b) == Tokens(answer, a) + Tokens(answer, b)
  {
    assert Results(answer, a + b) == Results(answer, a) + Results(answer, b);
  }

  lemma TokensHead(answer: Query -> Bytes, ws: seq<WorkItem>)
    requires ws != []
    ensures Tokens(answer, ws) == multiset{Token(answer, ws[0])} + Tokens(answer, ws[1..])
  {
    assert Results(answer, ws) == [Token(answer, ws[0])] + Results(answer, ws[1..]);
  }

  /** A worker that becomes busy adds its item at one place. */
  lemma {:induction false} BusyUpdate(ws: seq<Option<WorkItem>>, i: nat, w: WorkItem)
    returns (before: seq<WorkItem>, after: seq<WorkItem>)
    requires i < |ws| && ws[i] == None
    ensures BusyItems(ws) == before + after
    ensures BusyItems(ws[i := Some(w)]) == before + [w] + after
  {
    var us := ws[i := Some(w)];
    if i == 0 {
      assert us[1..] == ws[1..];
      before, after := [], BusyItems(ws[1..]);
    } else {
      assert us[1..] == ws[1..][i - 1 := Some(w)];
      before, after := BusyUpdate(ws[1..], i - 1, w);
      before := (if ws[0].Some? then [ws[0].value] else []) + before;
    }
  }

  lemma BusyMultiset(ws: seq<Option<WorkItem>>, i: nat, w: WorkItem)
    requires i < |ws| && ws[i] == None
    ensures multiset(BusyItems(ws[i := Some(w)])) == multiset(BusyItems(ws)) + multiset{w}
  {
    var before, after := BusyUpdate(ws, i, w);
  }

  lemma BusyTokens(answer: Query -> Bytes, ws: seq<Option<WorkItem>>, i: nat, w: WorkItem)
    requires i < |ws| && ws[i] == None
    ensures Tokens(answer, BusyItems(ws[i := Some(w)])) == Tokens(answer, BusyItems(ws)) + multiset{Token(answer, w)}
  {
    var before, after := BusyUpdate(ws, i, w);
    TokensConcat(answer, before, after);
    TokensConcat(answer, before, [w]);
    TokensConcat(answer, before + [w], after);
    TokensHead(answer, [w]);
    Regroup(Tokens(answer, before), multiset{Token(answer, w)}, Tokens(answer, after));
  }

  lemma {:induction false} NobodyBusy(ws: seq<Option<WorkItem>>)
    requires forall i :: 0 <= i < |ws| ==> ws[i] == None
    ensures BusyItems(ws) == []
  {
    if ws != [] {
      NobodyBusy(ws[1..]);
    }
  }

  lemma HeadTail<T>(xs: seq<T>)
    requires xs != []
    ensures multiset(xs) == multiset{xs[0]} + multiset(xs[1..])
  {
    assert xs == [xs[0]] + xs[1..];
  }

  /** What a step does to the multiset in flight. */
  ghost function Flow(answer: Query -> Bytes, s: Sys, a: Action): (multiset<ResultItem>, multiset<ResultItem>)
    requires Enabled(s, a)
  {
    match a
    case Receive(fd, _) => (Tokens(answer, WorkItems(fd, s.peers[fd].inbox)), multiset{})
    case Send(_) => (multiset{}, multiset{s.server.resultsQueue[0]})
    case _ => (multiset{}, multiset{})
  }

  lemma ReceiveFlow(answer: Query -> Bytes, s: Sys, a: Action)
    requires a.Receive? && Enabled(s, a)
    ensures InFlight(answer, s) + Flow(answer, s, a).0 == InFlight(answer, Apply(answer, s, a))
  {
    var items := WorkItems(a.fd, s.peers[a.fd].inbox);
    TokensConcat(answer, s.server.workQueue, items);
    var q, w := Tokens(answer, s.server.workQueue), Tokens(answer, BusyItems(s.workers));
    var r := multiset(s.server.resultsQueue);
    Regroup(q + w, r, Tokens(answer, items));
    Regroup(q, w, Tokens(answer, items));
  }

  lemma TakeFlow(answer: Query -> Bytes, s: Sys, a: Action)
    requires a.Take? && Enabled(s, a)
    ensures InFlight(answer, s) == InFlight(answer, Apply(answer, s, a))
  {
    TokensHead(answer, s.server.workQueue);
    BusyTokens(answer, s.workers, a.worker, s.server.workQueue[0]);
  }

  lemma FinishFlow(answer: Query -> Bytes, s: Sys, a: Action)
    requires a.Finish? && Enabled(s, a)
    ensures InFlight(answer, s) == InFlight(answer, Apply(answer, s, a))
  {
    var idle := s.workers[a.worker := None];
    assert idle[a.worker := s.workers[a.worker]] == s.workers;
    BusyTokens(answer, idle, a.worker, s.workers[a.worker].value);
  }

  lemma SendKeepsQueues(s: ServerState, r: ResultItem, o: SendOutcome)
    ensures SendStep(s, r, o).workQueue == s.workQueue
    ensures SendStep(s, r, o).resultsQueue == s.resultsQueue
  {
  }

  lemma SendFlow(answer: Query -> Bytes, s: Sys, a: Action)
    requires a.Send? && Enabled(s, a)
    ensures InFlight(answer, s) == InFlight(answer, Apply(answer, s, a)) + Flow(answer, s, a).1
  {
    hide SendStep, Tokens, BusyItems;
    var head, tail := s.server.resultsQueue[0], s.server.resultsQueue[1..];
    SendKeepsQueues(PopResult(s.server), head, a.outcome);
    HeadTail(s.server.resultsQueue);
    var q := Tokens(answer, s.server.workQueue) + Tokens(answer, BusyItems(s.workers));
    Regroup(q, multiset{head}, multiset(tail));
    Regroup(q, multiset(tail), multiset{head});
  }

  /** The other steps move nothing. */
  lemma ElseFlow(answer: Query -> Bytes, s: Sys, a: Action)
    requires (a.Connect? || a.Ask? || a.Write? || a.ReadAnswer?) && Enabled(s, a)
    ensures InFlight(answer, s) == InFlight(answer, Apply(answer, s, a))
  {
    hide Tokens, BusyItems;
  }

  /** Only receiving adds to what is in flight and only sending takes from it. */
  lemma StepFlow(answer: Query -> Bytes, s: Sys, a: Action)
    requires Enabled(s, a)
    ensures InFlight(answer, s) + Flow(answer, s, a).0 ==
              InFlight(answer, Apply(answer, s, a)) + Flow(answer, s, a).1
  {
    hide InFlight, Apply, Tokens, Enabled;
    match a {
      case Receive(_, _) => ReceiveFlow(answer, s, a);
      case Take(_) => TakeFlow(answer, s, a);
      case Finish(_) => FinishFlow(answer, s, a);
      case Send(_) => SendFlow(answer, s, a);
      case _ => ElseFlow(answer, s, a);
    }
  }

  // ---------------------------------------------------------------------
  // The accepted queries themselves

  /**
   * Queries leave the work queue in the order they were accepted; each one taken is with a
   * worker or finished; and the results handed over or waiting are those of the finished
   * queries, in that order, each with its descriptor and its own answer.
   */
  ghost predicate Conserved(answer: Query -> Bytes, s: Sys) {
    && s.accepted == s.taken + s.server.workQueue
    && multiset(s.taken) == multiset(BusyItems(s.workers)) + multiset(s.finished)
    && Results(answer, s.finished) == s.handed + s.server.resultsQueue
  }

  lemma TakenItem(taken: seq<WorkItem>, head: WorkItem, busy: multiset<WorkItem>, finished: multiset<WorkItem>)
    requires multiset(taken) == busy + finished
    ensures multiset(taken + [head]) == (busy + multiset{head}) + finished
  {
    Regroup(busy, multiset{head}, finished);
    Regroup(busy, finished, multiset{head});
  }

  lemma TakeConserves(answer: Query -> Bytes, s: Sys, a: Action)
    requires a.Take? && Enabled(s, a) && Conserved(answer, s)
    ensures Conserved(answer, Apply(answer, s, a))
  {
    var head, tail := s.server.workQueue[0], s.server.workQueue[1..];
    assert s.server.workQueue == [head] + tail;
    assert s.taken + ([head] + tail) == (s.taken + [head]) + tail;
    BusyMultiset(s.workers, a.worker, head);
    hide BusyItems, Results;
    TakenItem(s.taken, head, multiset(BusyItems(s.workers)), multiset(s.finished));
  }

  lemma FinishConserves(answer: Query -> Bytes, s: Sys, a: Action)
    requires a.Finish? && Enabled(s, a) && Conserved(answer, s)
    ensures Conserved(answer, Apply(answer, s, a))
  {
    var idle, work := s.workers[a.worker := None], s.workers[a.worker].value;
    assert idle[a.worker := Some(work)] == s.workers;
    BusyMultiset(idle, a.worker, work);
    Regroup(multiset(BusyItems(idle)), multiset{work}, multiset(s.finished));
    Regroup(multiset(BusyItems(idle)), multiset(s.finished), multiset{work});
    assert multiset(s.finished + [work]) == multiset(s.finished) + multiset{work};
    assert Results(answer, s.finished + [work]) == Results(answer, s.finished) + [Token(answer, work)];
  }

  lemma SendConserves(answer: Query -> Bytes, s: Sys, a: Action)
    requires a.Send? && Enabled(s, a) && Conserved(answer, s)
    ensures Conserved(answer, Apply(answer, s, a))
  {
    hide SendStep, BusyItems, Results;
    var head, tail := s.server.resultsQueue[0], s.server.resultsQueue[1..];
    SendKeepsQueues(PopResult(s.server), head, a.outcome);
    assert s.server.resultsQueue == [head] + tail;
  }

  lemma StepConserves(answer: Query -> Bytes, s: Sys, a: Action)
    requires Enabled(s, a) && Conserved(answer, s)
    ensures Conserved(answer, Apply(answer, s, a))
  {
    match a {
      case Take(_) => TakeConserves(answer, s, a);
      case Finish(_) => FinishConserves(answer, s, a);
      case Send(_) => SendConserves(answer, s, a);
      case _ =>
    }
  }

  lemma {:induction false} RunConserves(answer: Query -> Bytes, d: Discipline, s: Sys, acts: seq<Action>, t: Sys)
    requires Run(answer, d, s, acts, t) && Conserved(answer, s)
    ensures Conserved(answer, t)
    decreases |acts|
  {
    hide Conserved, Apply;
    if acts != [] {
      StepConserves(answer, s, acts[0]);
      RunConserves(answer, d, Apply(answer, s, acts[0]), acts[1..], t);
    }
  }

  /**
   * Over every run, with any clients and any schedule of any number of workers: each accepted
   * query is as often in the work queue, with a worker and finished, together, as it was
   * accepted, and the finished ones are answered in order, each with its own answer.
   */
  lemma EveryQueryInOnePlace(answer: Query -> Bytes, d: Discipline, s: Sys, acts: seq<Action>, t: Sys)
    requires Init(s) && Run(answer, d, s, acts, t)
    ensures Conserved(answer, t)
    ensures multiset(t.server.workQueue) + multiset(BusyItems(t.workers)) + multiset(t.finished) == multiset(t.accepted)
    ensures t.handed + t.server.resultsQueue == Results(answer, t.finished)
  {
    NobodyBusy(s.workers);
    RunConserves(answer, d, s, acts, t);
    Regroup(multiset(t.server.workQueue), multiset(BusyItems(t.workers)), multiset(t.finished));
  }
}
