/** The invariant every interleaving of one call keeps. */
module CallInvariant {
  import opened Prelude
  import opened CallTypes
  import opened CallProtocol

  /** Inside Finish, called from a callback that goes on to `after`. */
  predicate Finishing(net: NetPc, after: After) {
    match net
    case ClaimOutcome(_, a) => a == after
    case EndBody(_, a) => a == after
    case WriteOutcome(_, a) => a == after
    case StoreDone(a) => a == after
    case SignalFinished(a) => a == after
    case SignalDone(a) => a == after
    case _ => false
  }

  /** Running the Destroy task, or past it. */
  predicate TearingDown(net: NetPc) {
    || Finishing(net, ThenOnDestroyed) || Finishing(net, ThenUnregister)
    || net.Unregister? || net.ClearRequest? || net.SignalReleased? || net.Gone?
  }

  /** Between receiving a redirect or a response and having published it. */
  predicate HeaderWork(net: NetPc) {
    net.WriteUrl? || net.IssueFollow? || net.WriteHead? || net.StoreHeaders?
  }

  /** Between publishing the headers and re-issuing the read or ending the call. */
  predicate BodyWork(net: NetPc) {
    net.SignalHeaders? || net.WriteCount? || net.IssueRead? || net.TakeData? || (net.SignalData? && net.keep)
  }

  // The flow-control token, and the places it can be.

  predicate Queued(s: State) {
    s.sh.queue != [] && !s.sh.queue[0].DestroyTask?
  }

  predicate InFlight(s: State) {
    !s.flight.Nothing?
  }

  /** Held by a callback that will re-issue the request's work or end it. */
  predicate WithNetwork(s: State) {
    HeaderWork(s.net) || BodyWork(s.net) || Finishing(s.net, ThenDestroy) || s.net.IssueDestroy?
  }

  function Bit(b: bool): nat {
    if b then 1 else 0
  }

  function Tokens(s: State): nat {
    Bit(Queued(s)) + Bit(InFlight(s)) + Bit(WithNetwork(s)) + Bit(s.sh.paused) + Bit(s.owner.Resuming?) + s.peers
  }

  predicate TokenInv(s: State) {
    && Tokens(s) <= 1
    && (s.alive && !s.sh.destroyRequested ==> Tokens(s) == 1)
  }

  /** At most one Destroy, and nothing behind it. */
  predicate QueueInv(s: State) {
    var q := s.sh.queue;
    && |q| <= 2
    && (|q| == 2 ==> !q[0].DestroyTask? && q[1].DestroyTask?)
    && (s.sh.destroyRequested <==> !s.alive || (q != [] && q[|q| - 1].DestroyTask?))
    && (!s.alive ==> q == [] && s.flight.Nothing?)
    && (s.alive <==> !TearingDown(s.net))
    && (s.sh.attached <==> !(s.net.SignalReleased? || s.net.Gone?))
    && (s.registered <==> !(s.net.ClearRequest? || s.net.SignalReleased? || s.net.Gone?))
    && (s.sh.released <==> s.net.Gone?)
  }

  /** Whether the token stands for a response head or for body bytes. */
  predicate HeadToken(s: State) {
    || (Queued(s) && !s.sh.queue[0].ReadTask?) || s.flight.HeaderFlight?
  }

  predicate BodyToken(s: State) {
    || (Queued(s) && s.sh.queue[0].ReadTask?) || s.flight.ReadFlight?
  }

  predicate PhaseInv(s: State) {
    && (HeadToken(s) || HeaderWork(s.net) ==>
          s.sh.phase.Started? && !s.sh.claimed && s.received == [] && !s.sh.paused)
    && (s.sh.phase.Started? ==> s.received == [] && !s.sh.paused && !s.owner.Resuming? && s.peers == 0)
    && (BodyToken(s) || BodyWork(s.net) || s.net.SignalData? ==> s.sh.phase.Headers? && !s.sh.claimed)
    && (HeadToken(s) || s.net.WriteUrl? || s.net.IssueFollow? || s.net.WriteHead? ==> !s.sh.headersPublished)
    && (s.net.WriteUrl? ==> s.redirects > 0)
    && s.redirects <= s.limit
    && (s.sh.headersPublished <==>
          s.net.StoreHeaders? || !s.sh.phase.Started? || s.net.StoreDone?)
    && (s.net.TakeData? ==> 1 <= |s.net.data| <= READ_BUFFER)
    && (s.sh.counter <= COUNTER_MAX)
  }

  /** Which writes of the claimed outcome have happened. */
  predicate OutcomeInv(s: State) {
    && (s.sh.claimed <==> s.outcome.Some?)
    && (s.sh.complete ==> s.sh.claimed && !s.sh.paused)
    && (!s.sh.claimed ==> s.sh.response.error == NO_ERROR && !s.sh.phase.Done? && !s.sh.finished)
    && (s.sh.claimed ==>
          && s.flight.Nothing? && !Queued(s)
          && (match s.net
              case EndBody(o, _) => s.outcome == Some(o) && !s.sh.complete && s.sh.response.error == NO_ERROR
              case WriteOutcome(o, _) => s.outcome == Some(o) && s.sh.complete && s.sh.response.error == NO_ERROR
              case _ => s.sh.complete && s.outcome == Some(s.sh.response.error))
          && (s.sh.phase.Done? <==> !(s.net.EndBody? || s.net.WriteOutcome? || s.net.StoreDone?))
          && (s.sh.finished <==> s.sh.phase.Done? && !s.net.SignalFinished?))
    && (s.net.EndBody? || s.net.WriteOutcome? || s.net.StoreDone? || s.net.SignalFinished? || s.net.SignalDone?
          || s.net.IssueDestroy? || s.net.Unregister? || s.net.ClearRequest? || s.net.SignalReleased? || s.net.Gone?
        ==> s.sh.claimed)
    && (Finishing(s.net, ThenDestroy) && s.net.ClaimOutcome? ==> !s.sh.claimed)
    && (s.sh.claimed && s.alive ==>
          Finishing(s.net, ThenDestroy) || s.net.IssueDestroy? || s.sh.destroyRequested)
  }

  predicate BodyInv(s: State) {
    && s.delivered + s.sh.pending == s.received
    && (s.sh.paused ==> |s.sh.pending| > LOW_WATER)
    && |s.sh.pending| < HIGH_WATER + READ_BUFFER
    && (BodyToken(s) || BodyWork(s.net) || s.owner.Resuming? || s.peers > 0 ==> |s.sh.pending| < HIGH_WATER)
    && (s.sawEof ==> s.sh.complete && s.sh.pending == [])
    && (s.sawDone ==> s.sh.phase.Done?)
  }

  /** The network thread has changed something and will signal it. */
  predicate WillSignal(net: NetPc) {
    || net.SignalHeaders? || net.SignalData? || net.WriteOutcome? || net.StoreDone?
    || net.SignalFinished? || net.SignalDone?
  }

  /** A peer that has taken the owner's wakeup may have left it none. */
  predicate WakeInv(s: State) {
    && (!s.robbed && s.owner.PollHeaders? && !s.sh.phase.Started? ==> s.sh.counter > 0 || WillSignal(s.net))
    && (!s.robbed && s.owner.PollBody? && (s.sh.pending != [] || s.sh.complete) ==> s.sh.counter > 0 || WillSignal(s.net))
    && (s.owner.AwaitRelease? ==> s.sh.destroyRequested)
    && (s.owner.Freed? ==> s.sh.released)
  }

  predicate Inv(s: State) {
    && QueueInv(s) && TokenInv(s) && PhaseInv(s) && OutcomeInv(s) && BodyInv(s) && WakeInv(s)
  }

  lemma InitialInv(url: string, limit: nat)
    ensures Inv(Initial(url, limit))
  {
  }

  // One short lemma for each group of steps: every one of them assumes the whole
  // invariant and re-establishes the whole invariant.

  lemma RunWorkKeepsInv(s: State, reportCancel: bool)
    requires Inv(s) && Enabled(s, RunTask(reportCancel)) && !s.sh.queue[0].DestroyTask?
    ensures Inv(RunNext(s, reportCancel))
  {
  }

  lemma RunDestroyKeepsInv(s: State, reportCancel: bool)
    requires Inv(s) && Enabled(s, RunTask(reportCancel)) && s.sh.queue[0].DestroyTask?
    ensures Inv(RunNext(s, reportCancel))
  {
  }

  lemma HeaderCallbackKeepsInv(s: State, a: Action)
    requires Inv(s) && Enabled(s, a) && (a.ReceivedRedirect? || a.ResponseStarted?)
    ensures Inv(CallbackStep(s, a))
  {
  }

  lemma BodyCallbackKeepsInv(s: State, a: Action)
    requires Inv(s) && Enabled(s, a) && (a.ReadCompleted? || a.Succeeded? || a.Failed?)
    ensures Inv(CallbackStep(s, a))
  {
  }

  lemma MetricsKeepsInv(s: State, a: Action)
    requires Inv(s) && Enabled(s, a) && a.MetricsCollected?
    ensures Inv(CallbackStep(s, a))
  {
    assert CallbackStep(s, a) == s.(sh := PutMetrics(s.sh, a.metrics), metricsDone := true);
  }

  lemma WriteUrlKeepsInv(s: State)
    requires Inv(s) && s.net.WriteUrl?
    ensures Inv(Advance(s))
  {
  }

  lemma IssueFollowKeepsInv(s: State)
    requires Inv(s) && s.net.IssueFollow?
    ensures Inv(Advance(s))
  {
    if MayPost(s.sh) {
      assert s.sh.queue == [];
      assert Advance(s) == s.(sh := s.sh.(queue := [FollowTask]), net := Idle);
    } else {
      assert Advance(s) == s.(net := Idle);
    }
  }

  lemma WriteHeadKeepsInv(s: State)
    requires Inv(s) && s.net.WriteHead?
    ensures Inv(Advance(s))
  {
    assert Advance(s) == s.(sh := PutHead(s.sh, s.net.head), net := StoreHeaders(s.net.verdict));
  }

  lemma StoreHeadersKeepsInv(s: State)
    requires Inv(s) && s.net.StoreHeaders?
    ensures Inv(Advance(s))
  {
    assert Advance(s) == s.(sh := s.sh.(phase := Headers), net := SignalHeaders(s.net.verdict));
  }

  lemma SignalHeadersKeepsInv(s: State)
    requires Inv(s) && s.net.SignalHeaders?
    ensures Inv(Advance(s))
  {
    assert Advance(s) == s.(sh := Signal(s.sh), net := WriteCount(s.net.verdict));
  }

  lemma WriteCountKeepsInv(s: State)
    requires Inv(s) && s.net.WriteCount?
    ensures Inv(Advance(s))
  {
    var v := s.net.verdict;
    assert Advance(s) == s.(sh := PutCount(s.sh, s.redirects),
                            net := if v.Proceed? then IssueRead else ClaimOutcome(v.outcome, ThenDestroy));
  }

  lemma IssueReadKeepsInv(s: State)
    requires Inv(s) && s.net.IssueRead?
    ensures Inv(Advance(s))
  {
    if MayPost(s.sh) {
      assert s.sh.queue == [];
      assert Advance(s) == s.(sh := s.sh.(queue := [ReadTask]), net := Idle);
    } else {
      assert Advance(s) == s.(net := Idle);
    }
  }

  lemma TakeDataKeepsInv(s: State)
    requires Inv(s) && s.net.TakeData?
    ensures Inv(Advance(s))
  {
    var sh := AppendBody(s.sh, s.net.data);
    assert Advance(s) == s.(sh := sh, net := SignalData(!sh.paused), received := s.received + s.net.data);
    assert s.delivered + sh.pending == s.delivered + s.sh.pending + s.net.data;
  }

  lemma SignalDataKeepsInv(s: State)
    requires Inv(s) && s.net.SignalData?
    ensures Inv(Advance(s))
  {
    assert Advance(s) == s.(sh := Signal(s.sh), net := if s.net.keep then IssueRead else Idle);
  }

  lemma ClaimKeepsInv(s: State)
    requires Inv(s) && s.net.ClaimOutcome? && !s.sh.claimed
    ensures Inv(Advance(s))
  {
  }

  lemma LaterClaimKeepsInv(s: State)
    requires Inv(s) && s.net.ClaimOutcome? && s.sh.claimed
    ensures Inv(Advance(s))
  {
  }

  lemma EndBodyKeepsInv(s: State)
    requires Inv(s) && s.net.EndBody?
    ensures Inv(Advance(s))
  {
    assert Advance(s) == s.(sh := CompleteBody(s.sh), net := WriteOutcome(s.net.outcome, s.net.after));
  }

  lemma WriteOutcomeKeepsInv(s: State)
    requires Inv(s) && s.net.WriteOutcome?
    ensures Inv(Advance(s))
  {
    assert Advance(s) == s.(sh := PutOutcome(s.sh, s.net.outcome), net := StoreDone(s.net.after));
  }

  lemma StoreDoneKeepsInv(s: State)
    requires Inv(s) && s.net.StoreDone?
    ensures Inv(Advance(s))
  {
    assert Advance(s) == s.(sh := s.sh.(phase := Done), net := SignalFinished(s.net.after));
  }

  lemma SignalFinishedKeepsInv(s: State)
    requires Inv(s) && s.net.SignalFinished?
    ensures Inv(Advance(s))
  {
    assert Advance(s) == s.(sh := s.sh.(finished := true), net := SignalDone(s.net.after));
  }

  lemma SignalDoneKeepsInv(s: State)
    requires Inv(s) && s.net.SignalDone?
    ensures Inv(Advance(s))
  {
    assert Advance(s) == s.(sh := Signal(s.sh), net := Resume(s.net.after));
  }

  lemma IssueDestroyKeepsInv(s: State)
    requires Inv(s) && s.net.IssueDestroy?
    ensures Inv(Advance(s))
  {
  }

  lemma TeardownKeepsInv(s: State)
    requires Inv(s) && (s.net.Unregister? || s.net.ClearRequest? || s.net.SignalReleased?)
    ensures Inv(Advance(s))
  {
  }

  lemma FinishKeepsInv(s: State)
    requires Inv(s)
    requires s.net.ClaimOutcome? || s.net.EndBody? || s.net.WriteOutcome? || s.net.StoreDone?
             || s.net.SignalFinished? || s.net.SignalDone?
    ensures Inv(Advance(s))
  {
    if s.net.EndBody? { EndBodyKeepsInv(s); }
    else if s.net.WriteOutcome? { WriteOutcomeKeepsInv(s); }
    else if s.net.StoreDone? { StoreDoneKeepsInv(s); }
    else if s.net.SignalFinished? { SignalFinishedKeepsInv(s); }
    else if s.net.SignalDone? { SignalDoneKeepsInv(s); }
    else if s.sh.claimed { LaterClaimKeepsInv(s); }
    else { ClaimKeepsInv(s); }
  }

  lemma PublishKeepsInv(s: State)
    requires Inv(s)
    requires s.net.WriteUrl? || s.net.IssueFollow? || s.net.WriteHead? || s.net.StoreHeaders?
             || s.net.SignalHeaders? || s.net.WriteCount?
    ensures Inv(Advance(s))
  {
    if s.net.WriteUrl? { WriteUrlKeepsInv(s); }
    else if s.net.IssueFollow? { IssueFollowKeepsInv(s); }
    else if s.net.WriteHead? { WriteHeadKeepsInv(s); }
    else if s.net.StoreHeaders? { StoreHeadersKeepsInv(s); }
    else if s.net.SignalHeaders? { SignalHeadersKeepsInv(s); }
    else { WriteCountKeepsInv(s); }
  }

  lemma AdvanceKeepsInv(s: State)
    requires Inv(s) && Enabled(s, NetAdvance)
    ensures Inv(Advance(s))
  {
    match s.net
    case IssueRead => IssueReadKeepsInv(s);
    case TakeData(_) => TakeDataKeepsInv(s);
    case SignalData(_) => SignalDataKeepsInv(s);
    case ClaimOutcome(_, _) => FinishKeepsInv(s);
    case EndBody(_, _) => FinishKeepsInv(s);
    case WriteOutcome(_, _) => FinishKeepsInv(s);
    case StoreDone(_) => FinishKeepsInv(s);
    case SignalFinished(_) => FinishKeepsInv(s);
    case SignalDone(_) => FinishKeepsInv(s);
    case IssueDestroy => IssueDestroyKeepsInv(s);
    case Unregister => TeardownKeepsInv(s);
    case ClearRequest => TeardownKeepsInv(s);
    case SignalReleased => TeardownKeepsInv(s);
    case _ => PublishKeepsInv(s);
  }

  // The caller's threads. A step that takes no bytes, posts nothing and asks for no
  // teardown moves the owner, and the descriptor's counter at most.

  predicate Moves(s: State, a: Action) {
    !IsNetwork(a) && !Takes(s, a) && !a.ResumeStep? && !a.PeerResume? && !a.Cancel? && !a.BeginFree?
  }

  /** Nothing but what a move may change differs. */
  predicate Moved(s: State, t: State) {
    && t.net == s.net && t.flight == s.flight && t.alive == s.alive && t.registered == s.registered
    && t.redirects == s.redirects && t.limit == s.limit && t.peers == s.peers
    && t.received == s.received && t.delivered == s.delivered && t.outcome == s.outcome
    && t.sh == s.sh.(counter := t.sh.counter)
    && (t.owner.Resuming? <==> s.owner.Resuming?)
    && t.sh.counter <= s.sh.counter
    && (t.sawEof ==> s.sawEof || (s.sh.complete && s.sh.pending == []))
    && (t.sawDone ==> s.sawDone || s.sh.phase.Done? || s.sh.finished)
  }

  lemma NothingRead(sh: Shared, capacity: nat)
    requires sh.pending == [] && capacity > 0
    ensures ReadBody(sh, capacity) == ReadResult(sh, if sh.complete then EOF else 0, [], false)
  {
  }

  lemma OwnerReadsNothing(s: State, a: Action)
    requires Enabled(s, a) && a.ReadStep? && s.sh.pending == []
    ensures Moved(s, Step(s, a))
  {
    NothingRead(s.sh, a.capacity);
  }

  lemma PeerReadsNothing(s: State, a: Action)
    requires Enabled(s, a) && a.PeerRead? && s.sh.pending == []
    ensures Moved(s, Step(s, a))
  {
    NothingRead(s.sh, a.capacity);
  }

  lemma BeginMoves(s: State, a: Action)
    requires Enabled(s, a) && (a.BeginHeaders? || a.BeginBody? || a.BeginWait?)
    ensures Moved(s, Step(s, a))
  {
  }

  lemma DrainMoves(s: State, a: Action)
    requires Enabled(s, a) && (a.DrainStep? || a.PeerDrain?)
    ensures Moved(s, Step(s, a))
  {
  }

  lemma LoadMoves(s: State, a: Action)
    requires Enabled(s, a) && (a.LoadStep? || a.GiveUp?)
    ensures Moved(s, Step(s, a))
  {
  }

  lemma WakeMoves(s: State)
    requires Enabled(s, Wake)
    ensures Moved(s, Step(s, Wake))
  {
    assert OwnerNext(s.sh, s.owner, Wake) != Resuming;
  }

  lemma MoveWakes(s: State, a: Action)
    requires WakeInv(s) && Enabled(s, a) && Moves(s, a)
    ensures WakeInv(Step(s, a))
  {
  }

  lemma MovedKeepsInv(s: State, t: State)
    requires Inv(s) && Moved(s, t) && WakeInv(t)
    ensures Inv(t)
  {
  }

  lemma MoveMoves(s: State, a: Action)
    requires Enabled(s, a) && Moves(s, a)
    ensures Moved(s, Step(s, a))
  {
    if a.ReadStep? { OwnerReadsNothing(s, a); }
    else if a.PeerRead? { PeerReadsNothing(s, a); }
    else if a.BeginHeaders? || a.BeginBody? || a.BeginWait? { BeginMoves(s, a); }
    else if a.DrainStep? || a.PeerDrain? { DrainMoves(s, a); }
    else if a.LoadStep? || a.GiveUp? { LoadMoves(s, a); }
    else { WakeMoves(s); }
  }

  lemma MoveKeepsInv(s: State, a: Action)
    requires Inv(s) && Enabled(s, a) && Moves(s, a)
    ensures Inv(Step(s, a))
  {
    MoveMoves(s, a);
    MoveWakes(s, a);
    MovedKeepsInv(s, Step(s, a));
  }

  /** Some bytes go from the buffer to a reader, who may now owe a resume. */
  predicate Took(s: State, t: State, capacity: nat) {
    var r := ReadBody(s.sh, capacity);
    && t == s.(sh := r.sh, owner := t.owner, peers := t.peers, robbed := t.robbed, delivered := s.delivered + r.out)
    && OwesResume(s, t, r)
  }

  predicate OwesResume(s: State, t: State, r: ReadResult) {
    && Bit(t.owner.Resuming?) + t.peers == Bit(s.owner.Resuming?) + s.peers + Bit(r.resume)
    && (t.owner == s.owner || t.owner.Reading? || t.owner.Resuming?)
    && (s.robbed && Polling(t.owner) ==> t.robbed)
  }

  lemma OwnerTakes(s: State, a: Action)
    requires Enabled(s, a) && Takes(s, a) && a.ReadStep?
    ensures Took(s, Step(s, a), a.capacity)
  {
    var r := ReadBody(s.sh, a.capacity);
    assert r.count != EOF && r.count != 0;
    assert Step(s, a) == s.(sh := r.sh, owner := if r.resume then Resuming else Reading, robbed := false,
                            delivered := s.delivered + r.out);
  }

  lemma PeerTakes(s: State, a: Action)
    requires Enabled(s, a) && Takes(s, a) && a.PeerRead?
    ensures Took(s, Step(s, a), a.capacity)
  {
    var r := ReadBody(s.sh, a.capacity);
    assert r.count != EOF;
    assert Step(s, a) == s.(sh := r.sh, peers := if r.resume then s.peers + 1 else s.peers,
                            robbed := Polling(s.owner) && s.robbed, delivered := s.delivered + r.out);
  }

  lemma TookKeepsTokens(s: State, t: State, capacity: nat)
    requires Inv(s) && s.sh.pending != [] && Took(s, t, capacity) && capacity > 0
    ensures QueueInv(t) && TokenInv(t) && OutcomeInv(t)
  {
  }

  lemma TookKeepsBody(s: State, t: State, capacity: nat)
    requires Inv(s) && s.sh.pending != [] && Took(s, t, capacity) && capacity > 0
    ensures PhaseInv(t) && BodyInv(t) && WakeInv(t)
  {
    var r := ReadBody(s.sh, capacity);
    assert s.sh.pending == r.out + r.sh.pending;
    assert s.delivered + r.out + r.sh.pending == s.delivered + s.sh.pending;
  }

  lemma TakeKeepsInv(s: State, a: Action)
    requires Inv(s) && Enabled(s, a) && Takes(s, a)
    ensures Inv(Step(s, a))
  {
    if a.ReadStep? {
      OwnerTakes(s, a);
    } else {
      PeerTakes(s, a);
    }
    TookKeepsTokens(s, Step(s, a), a.capacity);
    TookKeepsBody(s, Step(s, a), a.capacity);
  }

  /** A reader that owes a resume posts it, and owes it no more. */
  lemma PostKeepsInv(s: State, owner: OwnerPc, peers: nat)
    requires Inv(s) && (s.owner.Resuming? || s.peers > 0)
    requires owner == s.owner || (s.owner.Resuming? && owner.Reading?)
    requires Bit(owner.Resuming?) + peers + 1 == Bit(s.owner.Resuming?) + s.peers
    ensures Inv(s.(sh := Post(s.sh, ReadTask), owner := owner, peers := peers))
  {
    if MayPost(s.sh) {
      assert s.sh.queue == [];
    }
  }

  lemma ResumeKeepsInv(s: State, a: Action)
    requires Inv(s) && Enabled(s, a) && (a.ResumeStep? || a.PeerResume?)
    ensures Inv(Step(s, a))
  {
    var owner, peers := if a.ResumeStep? then Reading else s.owner, if a.PeerResume? then s.peers - 1 else s.peers;
    PostKeepsInv(s, owner, peers);
    ResumeMoves(s, a);
    NotRobbedKeepsInv(s.(sh := Post(s.sh, ReadTask), owner := owner, peers := peers));
  }

  lemma ResumeMoves(s: State, a: Action)
    requires Enabled(s, a) && (a.ResumeStep? || a.PeerResume?)
    ensures var owner := if a.ResumeStep? then Reading else s.owner;
            var peers := if a.PeerResume? then s.peers - 1 else s.peers;
            Step(s, a) == s.(sh := Post(s.sh, ReadTask), owner := owner, peers := peers,
                             robbed := Polling(owner) && s.robbed)
  {
  }

  lemma NotRobbedKeepsInv(s: State)
    requires Inv(s)
    ensures Inv(s.(robbed := Polling(s.owner) && s.robbed))
  {
  }

  /** A request that has been let go of has been asked to go. */
  lemma UnpostableIsDestroyed(s: State)
    requires Inv(s) && !MayPost(s.sh)
    ensures s.sh.destroyRequested
  {
  }

  lemma CancelKeepsInv(s: State)
    requires Inv(s) && MayPost(s.sh)
    ensures Inv(s.(sh := RequestDestroy(s.sh, true)))
  {
  }

  lemma RequestKeepsInv(s: State)
    requires Inv(s)
    ensures Inv(s.(sh := RequestDestroy(s.sh, true))) && RequestDestroy(s.sh, true).destroyRequested
  {
    if MayPost(s.sh) {
      CancelKeepsInv(s);
    } else {
      UnpostableIsDestroyed(s);
      assert s.(sh := RequestDestroy(s.sh, true)) == s;
    }
  }

  lemma RequestMoves(s: State, a: Action)
    requires Enabled(s, a) && (a.Cancel? || a.BeginFree?)
    ensures Moved(s.(sh := RequestDestroy(s.sh, true)), Step(s, a))
  {
    var t := s.(sh := RequestDestroy(s.sh, true));
    if a.Cancel? {
      assert Step(s, a) == t.(robbed := Polling(s.owner) && s.robbed);
    } else {
      assert Step(s, a) == t.(owner := AwaitRelease, robbed := false);
    }
  }

  lemma RequestWakes(s: State, a: Action)
    requires WakeInv(s) && Enabled(s, a) && (a.Cancel? || a.BeginFree?)
    requires RequestDestroy(s.sh, true).destroyRequested
    ensures WakeInv(Step(s, a))
  {
  }

  lemma TeardownRequestKeepsInv(s: State, a: Action)
    requires Inv(s) && Enabled(s, a) && (a.Cancel? || a.BeginFree?)
    ensures Inv(Step(s, a))
  {
    RequestKeepsInv(s);
    RequestMoves(s, a);
    RequestWakes(s, a);
    MovedKeepsInv(s.(sh := RequestDestroy(s.sh, true)), Step(s, a));
  }

  lemma OwnerKeepsInv(s: State, a: Action)
    requires Inv(s) && Enabled(s, a) && !IsNetwork(a)
    ensures Inv(Step(s, a))
  {
    if Moves(s, a) {
      MoveKeepsInv(s, a);
    } else if Takes(s, a) {
      TakeKeepsInv(s, a);
    } else if a.ResumeStep? || a.PeerResume? {
      ResumeKeepsInv(s, a);
    } else {
      TeardownRequestKeepsInv(s, a);
    }
  }

  lemma RunTaskKeepsInv(s: State, reportCancel: bool)
    requires Inv(s) && Enabled(s, RunTask(reportCancel))
    ensures Inv(RunNext(s, reportCancel))
  {
    if s.sh.queue[0].DestroyTask? {
      RunDestroyKeepsInv(s, reportCancel);
    } else {
      RunWorkKeepsInv(s, reportCancel);
    }
  }

  lemma CallbackKeepsInv(s: State, a: Action)
    requires Inv(s) && Enabled(s, a) && IsNetwork(a) && !a.RunTask? && !a.NetAdvance?
    ensures Inv(CallbackStep(s, a))
  {
    if a.ReceivedRedirect? || a.ResponseStarted? {
      HeaderCallbackKeepsInv(s, a);
    } else if a.MetricsCollected? {
      MetricsKeepsInv(s, a);
    } else {
      BodyCallbackKeepsInv(s, a);
    }
  }

  lemma NetworkKeepsInv(s: State, a: Action)
    requires Inv(s) && Enabled(s, a) && IsNetwork(a)
    ensures Inv(Step(s, a))
  {
    if a.RunTask? {
      RunTaskKeepsInv(s, a.reportCancel);
    } else if a.NetAdvance? {
      AdvanceKeepsInv(s);
    } else {
      CallbackKeepsInv(s, a);
    }
  }

  lemma StepKeepsInv(s: State, a: Action)
    requires Inv(s) && Enabled(s, a)
    ensures Inv(Step(s, a))
  {
    if IsNetwork(a) { NetworkKeepsInv(s, a); } else { OwnerKeepsInv(s, a); }
  }

  lemma {:induction false} RunKeepsInv(s: State, run: seq<Action>)
    requires Inv(s) && Runs(s, run)
    ensures Inv(Final(s, run))
    decreases run
  {
    if run != [] {
      StepKeepsInv(s, run[0]);
      RunKeepsInv(Step(s, run[0]), run[1..]);
    }
  }

  /** Every state any interleaving reaches satisfies the invariant. */
  lemma ReachableInv(s: State)
    requires Reachable(s)
    ensures Inv(s)
  {
    var url, limit, run :| Runs(Initial(url, limit), run) && Final(Initial(url, limit), run) == s;
    InitialInv(url, limit);
    RunKeepsInv(Initial(url, limit), run);
  }
}
