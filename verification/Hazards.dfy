// What the discipline is needed for: for each promise, exactly which clients and which reuse
// of connection numbers keep it, over all runs with any positive number of workers.
module Hazards {
  import opened Types
  import opened Client
  import opened Server
  import opened Pipeline
  import opened Conservation
  import opened Connections
  import opened Safety
  import opened Theorems
  import opened Uniform
  import opened Scenes

  /** No client ever asks for a payload. */
  ghost predicate NoPayload(answer: Query -> Bytes, d: Discipline) {
    AllAnswer(answer, d, [])
  }

  ghost predicate NobodyAsks(d: Discipline) {
    forall q :: !MayAsk(d, q)
  }

  // ---------------------------------------------------------------------
  // Overwriting a kept payload

  /** The result that send_result takes next never finds a kept payload in its way. */
  ghost predicate NeverOverwrites(answer: Query -> Bytes, d: Discipline, n: nat) {
    forall t :: Reachable(answer, d, t) && |t.workers| == n && t.server.resultsQueue != [] ==>
      t.server.resultsQueue[0].fd !in t.server.writeBuffers
  }

  /** Nothing is kept and all waiting results are empty. */
  ghost predicate Blank(s: Sys) {
    s.server.writeBuffers == map[] && forall r :: r in s.server.resultsQueue ==> r.res == []
  }

  lemma StepBlank(answer: Query -> Bytes, d: Discipline, s: Sys, a: Action)
    requires NoPayload(answer, d) && OnlyAskable(d, s) && Blank(s) && Enabled(s, a)
    ensures Blank(Apply(answer, s, a))
  {
    hide MayAsk;
  }

  lemma {:induction false} RunBlank(answer: Query -> Bytes, d: Discipline, s: Sys, acts: seq<Action>, t: Sys)
    requires NoPayload(answer, d) && Run(answer, d, s, acts, t) && OnlyAskable(d, s) && Blank(s)
    ensures Blank(t)
    decreases |acts|
  {
    hide NoPayload, OnlyAskable, Blank, Apply;
    if acts != [] {
      StepAskable(answer, d, s, acts[0]);
      StepBlank(answer, d, s, acts[0]);
      RunBlank(answer, d, Apply(answer, s, acts[0]), acts[1..], t);
    }
  }

  lemma ReachableBlank(answer: Query -> Bytes, d: Discipline, t: Sys)
    requires NoPayload(answer, d) && Reachable(answer, d, t)
    ensures Blank(t)
  {
    hide Run, NoPayload;
    var s, acts :| Init(s) && Run(answer, d, s, acts, t);
    RunBlank(answer, d, s, acts, t);
  }

  lemma OverwritesOtherwise(answer: Query -> Bytes, d: Discipline, n: nat, q: Query)
    requires n > 0 && MayAsk(d, q) && answer(q) != [] && (d.limit >= 2 || !d.quiet)
    ensures !NeverOverwrites(answer, d, n)
  {
    hide Reachable;
    var asked := HeadIsHeld(answer, d, n, q, 0, q);
    var t :| Reachable(answer, d, t) && Shows(t, n, HeadHeld(asked, answer(q), 0, answer(q)));
  }

  /**
   * A kept payload is never overwritten exactly if every client waits for its answer and no
   * number is reused too early, or no client ever asks for a payload.
   */
  lemma NeverOverwritesExactly(answer: Query -> Bytes, d: Discipline, n: nat)
    requires n > 0 && Sized(answer, d)
    ensures NeverOverwrites(answer, d, n) <==> (d.limit <= 1 && d.quiet) || NoPayload(answer, d)
  {
    hide Reachable;
    if NoPayload(answer, d) {
      forall t | Reachable(answer, d, t)
        ensures t.server.writeBuffers == map[]
      {
        ReachableBlank(answer, d, t);
      }
    } else if d.limit <= 1 && d.quiet {
      forall t | Reachable(answer, d, t) && t.server.resultsQueue != []
        ensures t.server.resultsQueue[0].fd !in t.server.writeBuffers
      {
        SendNeverOverwrites(answer, d, t);
      }
    } else {
      var q :| MayAsk(d, q) && answer(q) != [];
      OverwritesOtherwise(answer, d, n, q);
    }
  }

  // ---------------------------------------------------------------------
  // Losing bytes

  /** Everything this open connection has asked for is received, worked off and sent. */
  ghost predicate Resting(t: Sys, fd: int) {
    && Drained(t)
    && fd in t.peers && t.peers[fd].inbox == []
    && fd in t.server.interest && fd !in t.server.writeBuffers
  }

  /** Then it has carried the frames of the answers to its client's questions, all and whole. */
  ghost predicate WireComplete(answer: Query -> Bytes, d: Discipline, n: nat) {
    forall t, fd :: Reachable(answer, d, t) && |t.workers| == n && Resting(t, fd) ==>
      fd in t.server.wire && t.server.wire[fd] == Frames(AnswersOf(answer, t.peers[fd].asked))
  }

  lemma WaitingIsComplete(answer: Query -> Bytes, d: Discipline, t: Sys, fd: int)
    requires RequestResponse(answer, d) && Reachable(answer, d, t) && Resting(t, fd)
    ensures fd in t.server.wire && t.server.wire[fd] == Frames(AnswersOf(answer, t.peers[fd].asked))
  {
    hide Reachable, Frames, InFlight, PendingOk, Drained;
    ReachableInv(answer, d, t);
    DrainedMeansHanded(answer, t, fd);
    InvAt(answer, t, fd);
    var p := t.peers[fd];
    assert p.asked[..|p.asked|] == p.asked;
  }

  // All payloads empty: then what is served is on the wire.

  ghost predicate Framed(s: Sys, fd: int) {
    Made(s, fd) && (fd in s.server.interest ==> s.server.wire[fd] == Frames(s.served[fd]))
  }

  ghost predicate AllFramed(s: Sys) {
    forall fd :: fd in s.peers ==> Framed(s, fd)
  }

  lemma EmptySent(s: Sys, o: SendOutcome)
    requires s.server.resultsQueue != [] && s.server.resultsQueue[0].res == []
    requires s.server.resultsQueue[0].fd in s.server.wire
    ensures var fd := s.server.resultsQueue[0].fd;
            var t := SendStep(PopResult(s.server), s.server.resultsQueue[0], o);
            && fd in t.wire
            && (fd in t.interest ==> fd in s.server.interest && t.wire[fd] == s.server.wire[fd] + Frame([]))
  {
    var wire := s.server.wire[s.server.resultsQueue[0].fd];
    assert wire + CountBytes(0) + [] == wire + Frame([]);
  }

  lemma FramedSend(answer: Query -> Bytes, s: Sys, a: Action)
    requires a.Send? && Enabled(s, a) && s.server.resultsQueue[0].res == []
    requires Framed(s, s.server.resultsQueue[0].fd)
    ensures Framed(Apply(answer, s, a), s.server.resultsQueue[0].fd)
  {
    hide Frames, SendStep;
    EmptySent(s, a.outcome);
    FramesSnoc(s.served[s.server.resultsQueue[0].fd], []);
  }

  lemma FramedElse(answer: Query -> Bytes, s: Sys, a: Action)
    requires Enabled(s, a) && !a.Send? && Subject(s, a).Some? && s.server.writeBuffers == map[]
    requires !a.Connect? ==> Framed(s, Subject(s, a).value)
    ensures Framed(Apply(answer, s, a), Subject(s, a).value)
  {
  }

  lemma FramedOther(answer: Query -> Bytes, s: Sys, a: Action, fd: int)
    requires Enabled(s, a) && Framed(s, fd) && Subject(s, a) != Some(fd)
    ensures Framed(Apply(answer, s, a), fd)
  {
    hide Frames, Apply, Enabled, Subject;
    OtherViews(answer, s, a, fd);
    assert ViewOf(Apply(answer, s, a), fd) == ViewOf(s, fd);
  }

  lemma StepFramed(answer: Query -> Bytes, s: Sys, a: Action)
    requires Enabled(s, a) && Blank(s) && Grounded(answer, s) && AllFramed(s)
    ensures AllFramed(Apply(answer, s, a))
  {
    hide InFlight, Apply, Framed;
    forall fd | fd in Apply(answer, s, a).peers
      ensures Framed(Apply(answer, s, a), fd)
    {
      if Subject(s, a) != Some(fd) {
        PeersOnlyGrow(answer, s, a, fd);
        FramedOther(answer, s, a, fd);
      } else if a.Send? {
        HeadInFlight(answer, s);
        FramedSend(answer, s, a);
      } else {
        FramedElse(answer, s, a);
      }
    }
  }

  lemma {:induction false} RunFramed(answer: Query -> Bytes, d: Discipline, s: Sys, acts: seq<Action>, t: Sys)
    requires Run(answer, d, s, acts, t) && NoPayload(answer, d)
    requires OnlyAskable(d, s) && Blank(s) && Grounded(answer, s) && AllFramed(s)
    ensures AllFramed(t)
    decreases |acts|
  {
    hide NoPayload, OnlyAskable, Blank, Grounded, AllFramed, Apply;
    if acts != [] {
      StepAskable(answer, d, s, acts[0]);
      StepBlank(answer, d, s, acts[0]);
      StepGrounded(answer, s, acts[0]);
      StepFramed(answer, s, acts[0]);
      RunFramed(answer, d, Apply(answer, s, acts[0]), acts[1..], t);
    }
  }

  lemma ReachableFramed(answer: Query -> Bytes, d: Discipline, t: Sys)
    requires NoPayload(answer, d) && Reachable(answer, d, t)
    ensures AllFramed(t)
  {
    hide Run, Frames, MayAsk;
    var s, acts :| Init(s) && Run(answer, d, s, acts, t);
    NobodyBusy(s.workers);
    RunFramed(answer, d, s, acts, t);
  }

  lemma EmptyIsComplete(answer: Query -> Bytes, d: Discipline, t: Sys, fd: int)
    requires d.quiet && NoPayload(answer, d) && Reachable(answer, d, t) && Resting(t, fd)
    ensures fd in t.server.wire && t.server.wire[fd] == Frames(AnswersOf(answer, t.peers[fd].asked))
  {
    hide Reachable, Frames, MayAsk;
    ReachableFramed(answer, d, t);
    ReachableCounted(answer, d, [], t);
    ReachableAskable(answer, d, t);
    DrainedIsEmpty(answer, t);
    assert Framed(t, fd) && Counted(answer, t, fd, []);
    hide InFlight;
    assert t.served[fd] == AnswersOf(answer, t.peers[fd].asked);
  }

  // Nobody asks anything: then it does not matter how numbers are reused.

  /** No question anywhere. */
  ghost predicate Silent(s: Sys) {
    Drained(s) && forall fd :: fd in s.peers ==> s.peers[fd].inbox == []
  }

  lemma SilentStep(answer: Query -> Bytes, d: Discipline, s: Sys, a: Action)
    requires NobodyAsks(d) && Enabled(s, a) && Obeys(d, s, a) && Silent(s)
    ensures Obeys(Discipline(0, d.askable, true), s, a)
    ensures Silent(Apply(answer, s, a))
  {
  }

  lemma {:induction false} SilentRun(answer: Query -> Bytes, d: Discipline, s: Sys, acts: seq<Action>, t: Sys)
    requires NobodyAsks(d) && Run(answer, d, s, acts, t) && Silent(s)
    ensures Run(answer, Discipline(0, d.askable, true), s, acts, t)
    decreases |acts|
  {
    hide NobodyAsks, Silent, Apply, Obeys;
    if acts != [] {
      SilentStep(answer, d, s, acts[0]);
      SilentRun(answer, d, Apply(answer, s, acts[0]), acts[1..], t);
    }
  }

  lemma SilentReachable(answer: Query -> Bytes, d: Discipline, t: Sys)
    requires NobodyAsks(d) && Reachable(answer, d, t)
    ensures Reachable(answer, Discipline(0, d.askable, true), t)
    ensures RequestResponse(answer, Discipline(0, d.askable, true))
  {
    hide Run, NobodyAsks;
    var s, acts :| Init(s) && Run(answer, d, s, acts, t);
    SilentRun(answer, d, s, acts, t);
  }

  lemma CrewIdle(s: Sys, n: nat, c: Scene)
    requires Shows(s, n, c) && c.workQueue == [] && c.worker == None && c.results == []
    requires c.open && c.kept == None && c.peer.inbox == []
    ensures |s.workers| == n && Resting(s, 1)
  {
  }

  /** Every connection carries only its own client's answers, in order. */
  ghost predicate PrefixAlways(answer: Query -> Bytes, d: Discipline, n: nat) {
    forall t, fd :: Reachable(answer, d, t) && |t.workers| == n && fd in t.peers ==>
      fd in t.server.wire && t.server.wire[fd] <= Frames(AnswersOf(answer, t.peers[fd].asked))
  }

  lemma ReuseIsIncomplete(answer: Query -> Bytes, d: Discipline, n: nat, q: Query)
    requires n > 0 && !d.quiet && MayAsk(d, q)
    ensures !WireComplete(answer, d, n) && !PrefixAlways(answer, d, n)
  {
    hide Reachable;
    ForeignBytes(answer, d, n, q);
    var c := Waiting([], [], []).(wire := Frame(answer(q)), served := [answer(q)]);
    var t :| Reachable(answer, d, t) && Shows(t, n, c);
    CrewIdle(t, n, c);
    assert Frames(AnswersOf(answer, [])) == [];
  }

  lemma HurryIsIncomplete(answer: Query -> Bytes, d: Discipline, n: nat, q: Query)
    requires n > 0 && d.limit >= 2 && MayAsk(d, q) && answer(q) != []
    ensures !WireComplete(answer, d, n)
  {
    hide Reachable, Frames;
    var c := BytesLost(answer, d, n, q);
    var t :| Reachable(answer, d, t) && Shows(t, n, c);
    CrewIdle(t, n, c);
  }

  lemma RestingIsMade(t: Sys, fd: int)
    requires Resting(t, fd)
    ensures fd in t.peers
  {
  }

  /**
   * Connections at rest have carried their answers whole exactly if nobody asks, or no number
   * is reused too early and either every client waits or no client asks for a payload.
   */
  lemma WireCompleteExactly(answer: Query -> Bytes, d: Discipline, n: nat)
    requires n > 0 && Sized(answer, d)
    ensures WireComplete(answer, d, n)
       <==> NobodyAsks(d) || (d.quiet && (d.limit <= 1 || NoPayload(answer, d)))
  {
    hide Reachable, Resting, Frames;
    if NobodyAsks(d) {
      forall t, fd | Reachable(answer, d, t) && Resting(t, fd)
        ensures fd in t.peers && fd in t.server.wire
        ensures t.server.wire[fd] == Frames(AnswersOf(answer, t.peers[fd].asked))
      {
        SilentReachable(answer, d, t);
        WaitingIsComplete(answer, Discipline(0, d.askable, true), t, fd);
        RestingIsMade(t, fd);
      }
    } else if !d.quiet {
      var q :| MayAsk(d, q);
      ReuseIsIncomplete(answer, d, n, q);
    } else if d.limit <= 1 {
      forall t, fd | Reachable(answer, d, t) && Resting(t, fd)
        ensures fd in t.peers && fd in t.server.wire
        ensures t.server.wire[fd] == Frames(AnswersOf(answer, t.peers[fd].asked))
      {
        WaitingIsComplete(answer, d, t, fd);
        RestingIsMade(t, fd);
      }
    } else if NoPayload(answer, d) {
      forall t, fd | Reachable(answer, d, t) && Resting(t, fd)
        ensures fd in t.peers && fd in t.server.wire
        ensures t.server.wire[fd] == Frames(AnswersOf(answer, t.peers[fd].asked))
      {
        EmptyIsComplete(answer, d, t, fd);
        RestingIsMade(t, fd);
      }
    } else {
      var q :| MayAsk(d, q) && answer(q) != [];
      HurryIsIncomplete(answer, d, n, q);
    }
  }

  // ---------------------------------------------------------------------
  // Another client's answer

  /** All answers are the same, and count and payload of it are all of the same byte. */
  ghost predicate OneByteAnswers(answer: Query -> Bytes, d: Discipline) {
    exists c: Byte, p: Bytes :: AllAnswer(answer, d, p) && OneByte(c, Frame(p))
  }

  // With clients that do not wait, a count can follow anywhere inside a payload.

  /** The count follows k bytes of the first payload, and the wire is a prefix still. */
  ghost predicate CountFits(p1: Bytes, k: nat, p2: Bytes)
    requires k <= |p1|
  {
    CountBytes(|p1|) + p1[..k] + CountBytes(|p2|) <= Frame(p1) + Frame(p2)
  }

  lemma NoFrames()
    ensures Frames([]) == []
  {
  }

  lemma HurriedCountFits(answer: Query -> Bytes, d: Discipline, n: nat, q1: Query, k: nat, q2: Query)
    requires n > 0 && d.limit >= 2 && MayAsk(d, q1) && MayAsk(d, q2) && k < |answer(q1)|
    requires PrefixAlways(answer, d, n)
    ensures CountFits(answer(q1), k, answer(q2))
  {
    hide Reachable, Frames;
    var c := CountInTheMiddle(answer, d, n, q1, k, q2);
    var t :| Reachable(answer, d, t) && Shows(t, n, c);
    assert |t.workers| == n && t.server.wire[1] == c.wire;
    var p1, p2 := answer(q1), answer(q2);
    assert AnswersOf(answer, [q1, q2]) == [p1] + [p2] && [p1] == [] + [p1];
    FramesSnoc([p1], p2);
    FramesSnoc([], p1);
    assert Frames([]) + Frame(p1) == Frame(p1) by {
      NoFrames();
    }
  }

  /** The bytes of a payload's count, wherever it fits. */
  lemma CountThere(p1: Bytes, k: nat, p2: Bytes, i: nat)
    requires k <= |p1| && i < 4 && CountFits(p1, k, p2)
    ensures (Frame(p1) + Frame(p2))[4 + k + i] == CountBytes(|p2|)[i]
  {
    var wire := CountBytes(|p1|) + p1[..k] + CountBytes(|p2|);
    assert wire[4 + k + i] == CountBytes(|p2|)[i];
  }

  lemma CountByte(p: Bytes, k: nat, i: nat)
    requires k <= |p| && i < 4 && forall j :: 0 <= j < |p| ==> CountFits(p, j, p)
    ensures (Frame(p) + Frame(p))[4 + k + i] == CountBytes(|p|)[i]
  {
    if k < |p| {
      CountThere(p, k, p, i);
    }
  }

  /** A count that fits everywhere in two frames of one payload makes them all one byte. */
  lemma FitsEverywhere(p: Bytes)
    requires p != [] && forall k :: 0 <= k < |p| ==> CountFits(p, k, p)
    ensures OneByte(CountBytes(|p|)[0], Frame(p))
  {
    hide CountFits;
    var count, n := CountBytes(|p|), |p|;
    forall i: nat | i < 3
      ensures count[i] == count[i + 1]
    {
      CountByte(p, n, i);
      CountByte(p, n - 1, i + 1);
    }
    assert count[0] == count[1] == count[2] == count[3];
    forall j | 0 <= j < |Frame(p)|
      ensures Frame(p)[j] == count[0]
    {
      if j >= 4 {
        CountByte(p, j - 4, 0);
      }
    }
  }

  /** A frame of one byte, read as a number, is much longer than a count. */
  lemma OneByteFrameIsLong(c: Byte, p: Bytes)
    requires OneByte(c, Frame(p)) && p != [] && |p| < INT32_LIMIT
    ensures 0 < c < 0x80 && |p| == c * 0x101_0101
  {
    CountRoundTrip(|p|);
    assert Frame(p)[..4] == CountBytes(|p|);
    assert forall i :: 0 <= i < 4 ==> CountBytes(|p|)[i] == Frame(p)[i] == c;
  }

  lemma CountDetermines(p1: Bytes, p2: Bytes)
    requires |p1| < INT32_LIMIT && |p2| < INT32_LIMIT && CountBytes(|p1|) == CountBytes(|p2|)
    ensures |p1| == |p2|
  {
    CountRoundTrip(|p1|);
    CountRoundTrip(|p2|);
  }

  lemma SameOneByte(c: Byte, p1: Bytes, p2: Bytes)
    requires OneByte(c, Frame(p1)) && OneByte(c, Frame(p2)) && |p1| == |p2|
    ensures p1 == p2
  {
    assert forall i :: 0 <= i < |p1| ==> p1[i] == Frame(p1)[4 + i] && p2[i] == Frame(p2)[4 + i];
  }

  lemma CountIsSame(c: Byte, p1: Bytes, p2: Bytes)
    requires p1 != [] && |p1| < INT32_LIMIT && OneByte(c, Frame(p1)) && CountFits(p1, 0, p2)
    ensures CountBytes(|p1|) == CountBytes(|p2|)
  {
    OneByteFrameIsLong(c, p1);
    forall i | 0 <= i < 4
      ensures CountBytes(|p1|)[i] == c == CountBytes(|p2|)[i]
    {
      CountThere(p1, 0, p2, i);
      assert Frame(p1)[i] == c && Frame(p1)[4 + i] == c;
    }
  }

  lemma HurriedAnswersAgree(answer: Query -> Bytes, d: Discipline, n: nat, q1: Query, q2: Query)
    requires n > 0 && d.limit >= 2 && MayAsk(d, q1) && MayAsk(d, q2) && Sized(answer, d)
    requires PrefixAlways(answer, d, n) && answer(q1) != []
    requires OneByte(CountBytes(|answer(q1)|)[0], Frame(answer(q1)))
    ensures answer(q2) == answer(q1)
  {
    hide PrefixAlways, OneByte, CountFits;
    var p1, p2 := answer(q1), answer(q2);
    var c := CountBytes(|p1|)[0];
    HurriedCountFits(answer, d, n, q1, 0, q2);
    CountIsSame(c, p1, p2);
    CountDetermines(p1, p2);
    forall k | 0 <= k < |p2|
      ensures CountFits(p2, k, p2)
    {
      HurriedCountFits(answer, d, n, q2, k, q2);
    }
    FitsEverywhere(p2);
    SameOneByte(c, p1, p2);
  }

  lemma EmptyFrame()
    ensures OneByte(0, Frame([]))
  {
  }

  lemma HurryNeedsOneByte(answer: Query -> Bytes, d: Discipline, n: nat)
    requires n > 0 && d.limit >= 2 && Sized(answer, d) && PrefixAlways(answer, d, n)
    ensures OneByteAnswers(answer, d)
  {
    hide PrefixAlways, OneByte, CountFits;
    if q :| MayAsk(d, q) && answer(q) != [] {
      var p := answer(q);
      forall k | 0 <= k < |p|
        ensures CountFits(p, k, p)
      {
        HurriedCountFits(answer, d, n, q, k, q);
      }
      FitsEverywhere(p);
      forall other | MayAsk(d, other)
        ensures answer(other) == p
      {
        HurriedAnswersAgree(answer, d, n, q, other);
      }
      assert AllAnswer(answer, d, p);
    } else {
      EmptyFrame();
      assert AllAnswer(answer, d, []);
    }
  }

  /**
   * Connections always carry only their own clients' answers, in order, exactly if nobody asks,
   * or no number is reused too early and either every client waits or there is but one
   * answer and its frame is one byte repeated.
   */
  lemma PrefixAlwaysExactly(answer: Query -> Bytes, d: Discipline, n: nat)
    requires n > 0 && Sized(answer, d)
    ensures PrefixAlways(answer, d, n)
       <==> NobodyAsks(d) || (d.quiet && (d.limit <= 1 || OneByteAnswers(answer, d)))
  {
    hide Reachable, Frames, OneByte;
    if NobodyAsks(d) {
      forall t, fd | Reachable(answer, d, t) && fd in t.peers
        ensures fd in t.server.wire && t.server.wire[fd] <= Frames(AnswersOf(answer, t.peers[fd].asked))
      {
        SilentReachable(answer, d, t);
        WireIsPrefixOfFrames(answer, Discipline(0, d.askable, true), t, fd);
      }
    } else if !d.quiet {
      var q :| MayAsk(d, q);
      ReuseIsIncomplete(answer, d, n, q);
    } else if d.limit <= 1 {
      forall t, fd | Reachable(answer, d, t) && fd in t.peers
        ensures fd in t.server.wire && t.server.wire[fd] <= Frames(AnswersOf(answer, t.peers[fd].asked))
      {
        WireIsPrefixOfFrames(answer, d, t, fd);
      }
    } else if OneByteAnswers(answer, d) {
      var c: Byte, p: Bytes :| AllAnswer(answer, d, p) && OneByte(c, Frame(p));
      forall t, fd | Reachable(answer, d, t) && fd in t.peers
        ensures fd in t.server.wire && t.server.wire[fd] <= Frames(AnswersOf(answer, t.peers[fd].asked))
      {
        UniformPrefix(answer, d, c, p, t, fd);
      }
    } else if PrefixAlways(answer, d, n) {
      HurryNeedsOneByte(answer, d, n);
    }
  }

  /** A run in which the second client of a number reads the answer to the first one's question. */
  lemma WrongClient(answer: Query -> Bytes, d: Discipline, n: nat, q1: Query, q2: Query) returns (t: Sys)
    requires n > 0 && Sized(answer, d) && !d.quiet && MayAsk(d, q1) && MayAsk(d, q2)
    ensures Reachable(answer, d, t) && |t.workers| == n && 1 in t.peers
    ensures t.peers[1].asked == [q2] && t.peers[1].answers == [answer(q1)]
  {
    hide Reachable;
    var c := ForeignAnswerRead(answer, d, n, q1, q2);
    t :| Reachable(answer, d, t) && Shows(t, n, c);
  }

  // ---------------------------------------------------------------------
  // Reading after a close

  /** A closed connection whose client is still owed an answer, and has its count to read. */
  ghost predicate CutOff(t: Sys, fd: int) {
    && fd in t.peers && fd !in t.server.interest && fd in t.server.wire
    && |t.peers[fd].answers| < |t.peers[fd].asked| && |Unread(t, fd)| >= 4
  }

  /** Whenever a count has come, read_struct gets the answer right, though the connection was closed. */
  ghost predicate ClosedReadsRight(answer: Query -> Bytes, d: Discipline, n: nat) {
    forall t, fd :: Reachable(answer, d, t) && |t.workers| == n && CutOff(t, fd) ==>
      ReadFrame(Unread(t, fd)) == Output(answer(t.peers[fd].asked[|t.peers[fd].answers|]))
  }

  ghost predicate AllZero(p: Bytes) {
    forall i :: 0 <= i < |p| ==> p[i] == 0
  }

  lemma CutOffReadsZeros(answer: Query -> Bytes, d: Discipline, n: nat, q: Query)
    requires n > 0 && Sized(answer, d) && MayAsk(d, q) && !AllZero(answer(q))
    ensures !ClosedReadsRight(answer, d, n)
  {
    hide Reachable;
    var c := ClosedInMidAnswer(answer, d, n, q);
    var t :| Reachable(answer, d, t) && Shows(t, n, c);
    var p := answer(q);
    assert c.wire[0..] == c.wire == Frame(p)[..4 + 0];
    TruncatedFrame(p, 0);
    assert CutOff(t, 1);
  }

  /** With clients that wait, exactly if all their answers are zeros throughout. */
  lemma ClosedReadsRightExactly(answer: Query -> Bytes, d: Discipline, n: nat)
    requires n > 0 && RequestResponse(answer, d)
    ensures ClosedReadsRight(answer, d, n) <==> forall q :: MayAsk(d, q) ==> AllZero(answer(q))
  {
    hide Reachable, MayAsk;
    if q :| MayAsk(d, q) && !AllZero(answer(q)) {
      CutOffReadsZeros(answer, d, n, q);
    } else {
      forall t, fd | Reachable(answer, d, t) && CutOff(t, fd)
        ensures CutOff(t, fd)
        ensures ReadFrame(Unread(t, fd)) == Output(answer(t.peers[fd].asked[|t.peers[fd].answers|]))
      {
        ReachableAskable(answer, d, t);
        var q := t.peers[fd].asked[|t.peers[fd].answers|];
        assert q in t.peers[fd].asked;
        assert AllZero(answer(q));
        ReadingAfterClose(answer, d, t, fd);
      }
    }
  }
}
