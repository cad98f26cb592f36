/** The network's part in progress: it works while it has anything to do, what it
    does between two moves of the owner is bounded, and a teardown completes. A
    waiter whose descriptor no other thread drains always has a wakeup pending or
    somebody at work for it; CallWakeup says what a drain by another costs. */
module CallProgress {
  import opened CallTypes
  import opened CallProtocol
  import opened CallInvariant
  import opened CallTheorems

  /** The network thread has nothing to run and the request owes no callback. */
  predicate Quiescent(s: State) {
    s.net.Gone? || (s.net.Idle? && s.sh.queue == [] && s.flight.Nothing?)
  }

  /** A network step other than collecting metrics is possible exactly when the
      network is not quiescent. */
  lemma QuiescentIffStuck(s: State)
    requires Inv(s)
    ensures Quiescent(s) <==> forall a | IsNetwork(a) && Enabled(s, a) :: a.MetricsCollected?
  {
    if s.net.Idle? && s.sh.queue != [] {
      assert Enabled(s, RunTask(false));
    } else if s.net.Idle? && !s.flight.Nothing? {
      assert Enabled(s, Failed(CANCELLED));
    } else if !Quiescent(s) {
      assert Enabled(s, NetAdvance);
    }
  }

  /** No stall. A thread in poll() on an unreadable descriptor, which no other has
      drained meanwhile, has a change about to be signalled, or nothing to wait
      for yet while the network, or a peer that owes it a resume, is at work. */
  lemma NoStall(s: State)
    requires Reachable(s) && Polling(s.owner) && s.sh.counter == 0 && !s.robbed
    ensures !Quiescent(s) || s.peers > 0
    ensures WillSignal(s.net)
            || (s.owner.PollBody? && s.sh.pending == [] && !s.sh.complete && !s.sh.paused)
            || (s.owner.PollHeaders? && s.sh.phase.Started?)
  {
    ReachableInv(s);
    assert Tokens(s) == 1 || s.sh.destroyRequested || !s.alive;
  }

  /** What is left to do for the step at hand, up to the next time the network
      thread posts or rests. */
  function Stage(net: NetPc): nat {
    match net
    case Idle => 0
    case WriteUrl(_) => 22
    case IssueFollow => 21
    case WriteHead(_, _) => 18
    case StoreHeaders(_) => 17
    case SignalHeaders(_) => 24
    case WriteCount(_) => 23
    case IssueRead => 21
    case TakeData(_) => 18
    case SignalData(keep) => if keep then 22 else 1
    case IssueDestroy => 1
    case SignalDone(after) => 2 + Tail(after)
    case SignalFinished(after) => 3 + Tail(after)
    case StoreDone(after) => 4 + Tail(after)
    case WriteOutcome(_, after) => 5 + Tail(after)
    case EndBody(_, after) => 6 + Tail(after)
    case ClaimOutcome(_, after) => 7 + Tail(after)
    case Unregister => 3
    case ClearRequest => 2
    case SignalReleased => 1
    case Gone => 0
  }

  function Tail(after: After): nat {
    match after
    case ThenDestroy => 0
    case ThenUnregister => 3
    case ThenOnDestroyed => 10
  }

  /** Redirects are paid for by the limit, headers by arriving once, bytes by the
      room left in the buffer, teardown by happening once. */
  function Work(s: State): int {
    100 * (s.limit - s.redirects)
    + (if s.sh.phase.Started? then 100 else 0)
    + 40 * (HIGH_WATER + READ_BUFFER - |s.sh.pending|)
    + (if Queued(s) then 20 else 0)
    + (if InFlight(s) then 19 else 0)
    + Stage(s.net)
    + (if !s.alive then 0 else if s.sh.destroyRequested then 18 else 19)
    + (if s.metricsDone then 0 else 1)
  }

  lemma WorkIsNatural(s: State)
    requires Inv(s)
    ensures Work(s) >= 0
  {
  }

  lemma RunTaskWorks(s: State, reportCancel: bool)
    requires Inv(s) && Enabled(s, RunTask(reportCancel))
    ensures Work(RunNext(s, reportCancel)) < Work(s)
  {
  }

  lemma CallbackWorks(s: State, a: Action)
    requires Inv(s) && Enabled(s, a) && IsNetwork(a) && !a.NetAdvance? && !a.RunTask?
    ensures Work(CallbackStep(s, a)) < Work(s)
  {
  }

  lemma HeaderStepWorks(s: State)
    requires Inv(s) && (HeaderWork(s.net) || s.net.SignalHeaders? || s.net.WriteCount?)
    ensures Work(Advance(s)) < Work(s)
  {
  }

  lemma BodyStepWorks(s: State)
    requires Inv(s) && (s.net.IssueRead? || s.net.TakeData? || s.net.SignalData?)
    ensures Work(Advance(s)) < Work(s)
  {
  }

  lemma FinishStepWorks(s: State)
    requires Inv(s) && (s.net.ClaimOutcome? || s.net.EndBody? || s.net.WriteOutcome?
                        || s.net.StoreDone? || s.net.SignalFinished? || s.net.SignalDone?)
    ensures Work(Advance(s)) < Work(s)
  {
  }

  lemma TeardownStepWorks(s: State)
    requires Inv(s) && (s.net.IssueDestroy? || s.net.Unregister? || s.net.ClearRequest? || s.net.SignalReleased?)
    ensures Work(Advance(s)) < Work(s)
  {
  }

  lemma NetworkWorks(s: State, a: Action)
    requires Inv(s) && Enabled(s, a) && IsNetwork(a)
    ensures Work(Step(s, a)) < Work(s)
  {
    if a.RunTask? { RunTaskWorks(s, a.reportCancel); }
    else if !a.NetAdvance? { CallbackWorks(s, a); }
    else if HeaderWork(s.net) || s.net.SignalHeaders? || s.net.WriteCount? { HeaderStepWorks(s); }
    else if s.net.IssueRead? || s.net.TakeData? || s.net.SignalData? { BodyStepWorks(s); }
    else if Finishing(s.net, ThenDestroy) || Finishing(s.net, ThenOnDestroyed) || Finishing(s.net, ThenUnregister) {
      FinishStepWorks(s);
    } else { TeardownStepWorks(s); }
  }

  predicate NetworkOnly(run: seq<Action>) {
    forall i | 0 <= i < |run| :: IsNetwork(run[i])
  }

  /** Backpressure: however the environment answers, the network thread takes a
      bounded number of steps between two moves of the owner. */
  lemma {:induction false} NetworkRunsAreBounded(s: State, run: seq<Action>)
    requires Inv(s) && Runs(s, run) && NetworkOnly(run)
    ensures |run| <= Work(s) - Work(Final(s, run)) && Inv(Final(s, run)) && Work(Final(s, run)) >= 0
    ensures Final(s, run).owner == s.owner && Final(s, run).delivered == s.delivered
    ensures Final(s, run).robbed == s.robbed && Final(s, run).peers == s.peers
    decreases run
  {
    WorkIsNatural(s);
    if run != [] {
      NetworkWorks(s, run[0]);
      NetworkLeaves(s, run[0]);
      StepKeepsInv(s, run[0]);
      NetworkRunsAreBounded(Step(s, run[0]), run[1..]);
    }
  }

  /** Once teardown has been asked for, the network alone brings the call to
      DONE, unregistered and released, so neither cronet_call_wait nor
      cronet_call_free waits for ever. */
  lemma TeardownCompletes(s: State, run: seq<Action>)
    requires Reachable(s) && s.sh.destroyRequested && Runs(s, run) && NetworkOnly(run)
    ensures |run| <= Work(s)
    ensures Quiescent(Final(s, run))
            ==> Final(s, run).sh.released && !Final(s, run).registered && Final(s, run).sh.finished
  {
    ReachableInv(s);
    NetworkRunsAreBounded(s, run);
    DestroyStays(s, run);
  }

  lemma AdvanceKeepsRequest(s: State)
    requires Inv(s) && Enabled(s, NetAdvance) && s.sh.destroyRequested
    ensures Advance(s).sh.destroyRequested
  {
  }

  lemma StepKeepsRequest(s: State, a: Action)
    requires Inv(s) && Enabled(s, a) && IsNetwork(a) && s.sh.destroyRequested
    ensures Step(s, a).sh.destroyRequested
  {
    if a.NetAdvance? {
      AdvanceKeepsRequest(s);
    } else if a.RunTask? {
      assert RunNext(s, a.reportCancel).sh.destroyRequested;
    } else {
      assert CallbackStep(s, a).sh.destroyRequested;
    }
  }

  lemma {:induction false} DestroyStays(s: State, run: seq<Action>)
    requires Inv(s) && Runs(s, run) && NetworkOnly(run) && s.sh.destroyRequested
    ensures Final(s, run).sh.destroyRequested
    decreases run
  {
    if run != [] {
      assert IsNetwork(run[0]);
      StepKeepsRequest(s, run[0]);
      StepKeepsInv(s, run[0]);
      DestroyStays(Step(s, run[0]), run[1..]);
    }
  }
}
