/** When the wakeup of a thread in poll() comes, and when a drain by another thread
    has cost it. */
module CallWakeup {
  import opened CallTypes
  import opened CallProtocol
  import opened CallInvariant
  import opened CallTheorems
  import opened CallProgress

  /** The network thread will signal the descriptor without the owner or a peer doing
      anything: it is about to; or there is no outcome yet, and either a teardown was
      asked for or the token is neither parked in a full buffer nor with a peer. */
  predicate Owes(s: State) {
    || WillSignal(s.net) || s.net.EndBody?
    || (!s.sh.claimed && (s.sh.destroyRequested || (!s.sh.paused && s.peers == 0)))
  }

  predicate Comes(s: State) {
    s.sh.counter > 0 || Owes(s)
  }

  lemma AdvanceOwes(s: State)
    requires Inv(s) && Polling(s.owner) && Enabled(s, NetAdvance)
    ensures Comes(Advance(s)) <==> Comes(s)
  {
  }

  lemma RunOwes(s: State, reportCancel: bool)
    requires Inv(s) && Polling(s.owner) && Enabled(s, RunTask(reportCancel))
    ensures Comes(RunNext(s, reportCancel)) <==> Comes(s)
  {
  }

  lemma CallbackOwes(s: State, a: Action)
    requires Inv(s) && Polling(s.owner) && Enabled(s, a) && IsNetwork(a) && !a.NetAdvance? && !a.RunTask?
    ensures Comes(CallbackStep(s, a)) <==> Comes(s)
  {
  }

  lemma QuiescentOwesNothing(s: State)
    requires Inv(s) && Polling(s.owner) && Quiescent(s)
    ensures !Owes(s)
  {
    assert s.alive && !s.sh.destroyRequested ==> Tokens(s) == 1;
  }

  lemma NetworkStepOwes(s: State, a: Action)
    requires Inv(s) && Polling(s.owner) && Enabled(s, a) && IsNetwork(a)
    ensures Step(s, a).owner == s.owner && (Comes(Step(s, a)) <==> Comes(s))
  {
    NetworkLeaves(s, a);
    if a.NetAdvance? { AdvanceOwes(s); }
    else if a.RunTask? { RunOwes(s, a.reportCancel); }
    else { CallbackOwes(s, a); }
  }

  lemma {:induction false} NetworkRunOwes(s: State, run: seq<Action>)
    requires Inv(s) && Polling(s.owner) && Runs(s, run) && NetworkOnly(run)
    ensures Inv(Final(s, run)) && Final(s, run).owner == s.owner
    ensures Comes(Final(s, run)) <==> Comes(s)
    decreases run
  {
    if run != [] {
      assert IsNetwork(run[0]);
      NetworkStepOwes(s, run[0]);
      StepKeepsInv(s, run[0]);
      NetworkRunOwes(Step(s, run[0]), run[1..]);
    }
  }

  /** Let a thread be in poll(). Any run of the network alone stops within Work(s)
      steps; where it stops, the descriptor is readable exactly if it was, or the
      network owed a signal, to begin with. */
  lemma WaiterIsWoken(s: State, run: seq<Action>)
    requires Reachable(s) && Polling(s.owner) && Runs(s, run) && NetworkOnly(run)
    ensures |run| <= Work(s)
    ensures Quiescent(Final(s, run)) ==> (Enabled(Final(s, run), Wake) <==> s.sh.counter > 0 || Owes(s))
  {
    ReachableInv(s);
    NetworkRunsAreBounded(s, run);
    NetworkRunOwes(s, run);
    if Quiescent(Final(s, run)) {
      QuiescentOwesNothing(Final(s, run));
    }
  }

  /** No wakeup is lost to a thread whose descriptor no other has drained since it
      began to poll: one is there, or the network or a peer owes it. */
  lemma UndisturbedWaiterIsWoken(s: State, run: seq<Action>)
    requires Reachable(s) && Polling(s.owner) && !s.robbed && Runs(s, run) && NetworkOnly(run)
    ensures Quiescent(Final(s, run)) ==> Enabled(Final(s, run), Wake) || s.peers > 0
  {
    ReachableInv(s);
    WaiterIsWoken(s, run);
    if s.peers == 0 {
      UndisturbedIsOwed(s);
    }
  }

  lemma UndisturbedIsOwed(s: State)
    requires Inv(s) && Polling(s.owner) && !s.robbed && s.peers == 0
    ensures s.sh.counter > 0 || Owes(s)
  {
  }

  /** The network owes nothing exactly when DONE has been signalled, or the call has
      no outcome, nobody asked for a teardown, nothing is about to be signalled and
      the read waits for a full buffer to be drained or for a peer to restart it. */
  lemma OwesNothing(s: State)
    requires Inv(s) && Polling(s.owner)
    ensures !Owes(s) <==>
              || (s.sh.phase.Done? && !s.net.SignalFinished? && !s.net.SignalDone?)
              || (!s.sh.claimed && !s.sh.destroyRequested && !WillSignal(s.net) && (s.sh.paused || s.peers > 0))
  {
  }

  /** What a drain by another thread costs a thread in poll(): its wakeup, exactly when
      at the drain the network owed nothing. */
  lemma DrainIsFatal(s: State, run: seq<Action>)
    requires Reachable(s) && Polling(s.owner) && Enabled(s, PeerDrain)
    requires Runs(Step(s, PeerDrain), run) && NetworkOnly(run) && Quiescent(Final(Step(s, PeerDrain), run))
    ensures Enabled(Final(Step(s, PeerDrain), run), Wake) <==> Owes(s)
  {
    ReachableStep(s, PeerDrain);
    DrainLeaves(s);
    WaiterIsWoken(Step(s, PeerDrain), run);
  }

  lemma DrainLeaves(s: State)
    requires Enabled(s, PeerDrain) && Polling(s.owner)
    ensures var t := Step(s, PeerDrain);
            t.sh.counter == 0 && t.owner == s.owner && (Owes(t) <==> Owes(s))
  {
  }

  // Such a drain: the call is at its end.

  lemma OwnerAfter(s: State, a: Action)
    requires Enabled(s, a) && !IsNetwork(a)
    ensures Step(s, a).owner == OwnerNext(s.sh, s.owner, a)
  {
  }

  lemma RobbedAfter(s: State)
    requires Enabled(s, PeerDrain) && Polling(s.owner)
    ensures Step(s, PeerDrain).robbed && Step(s, PeerDrain).sh.counter == 0
  {
  }

  lemma MoveReached(s: State, a: Action) returns (t: State)
    requires Reachable(s) && Enabled(s, a) && Moves(s, a)
    ensures Reachable(t) && t.owner == OwnerNext(s.sh, s.owner, a)
    ensures t.net == s.net && t.peers == s.peers && t.sh == s.sh.(counter := t.sh.counter)
    ensures a.PeerDrain? && Polling(s.owner) ==> t.robbed && t.sh.counter == 0
  {
    ReachableStep(s, a);
    MoveMoves(s, a);
    OwnerAfter(s, a);
    if a.PeerDrain? && Polling(s.owner) {
      RobbedAfter(s);
    }
    t := Step(s, a);
  }

  /** A free owner polls for headers that are not there yet. */
  lemma OwnerPolls(s: State) returns (t: State)
    requires Reachable(s) && s.owner.Free? && s.sh.phase.Started?
    ensures Reachable(t) && t.owner.PollHeaders? && t.net == s.net && t.peers == s.peers
    ensures t.sh == s.sh.(counter := t.sh.counter)
  {
    var begun := MoveReached(s, BeginHeaders);
    var drained := MoveReached(begun, DrainStep);
    t := MoveReached(drained, LoadStep);
  }

  lemma CancelSteps(s: State)
    requires s.net.Idle? && s.sh.queue == [StartTask] && MayPost(s.sh) && s.owner.PollHeaders?
    ensures Enabled(s, Cancel)
    ensures var t := Step(s, Cancel);
            Enabled(t, RunTask(false)) && t.sh.queue == [StartTask, DestroyTask(true)]
            && t.owner == s.owner && t.peers == s.peers && t.sh.claimed == s.sh.claimed
  {
  }

  lemma RunSteps(s: State)
    requires s.net.Idle? && s.sh.queue == [StartTask, DestroyTask(true)]
    ensures Enabled(s, RunTask(false))
    ensures var t := Step(s, RunTask(false));
            Enabled(t, RunTask(false))
            && var u := Step(t, RunTask(false));
               u.net == ClaimOutcome(UNFINISHED, ThenUnregister)
               && u.owner == s.owner && u.peers == s.peers && u.sh.claimed == s.sh.claimed
  {
    var t := Step(s, RunTask(false));
    assert t.sh.queue == [DestroyTask(true)] && t.net.Idle?;
  }

  /** A peer cancels it, and the network thread gets to running the Destroy. */
  lemma PeerCancels(s: State) returns (t: State)
    requires Reachable(s) && s.net.Idle? && s.sh.queue == [StartTask] && MayPost(s.sh)
    requires s.owner.PollHeaders? && !s.sh.claimed
    ensures Reachable(t) && t.net == ClaimOutcome(UNFINISHED, ThenUnregister) && !t.sh.claimed
    ensures t.owner.PollHeaders? && t.peers == s.peers
  {
    CancelSteps(s);
    ReachableStep(s, Cancel);
    var s1 := Step(s, Cancel);
    RunSteps(s1);
    ReachableStep(s1, RunTask(false));
    ReachableStep(Step(s1, RunTask(false)), RunTask(false));
    t := Step(Step(s1, RunTask(false)), RunTask(false));
  }

  lemma AdvancesLeaveOwner(s: State, n: nat)
    ensures Advances(s, n).owner == s.owner && Advances(s, n).peers == s.peers
    decreases n
  {
    if n > 0 && !s.net.Idle? && !s.net.Gone? {
      AdvancesLeaveOwner(Advance(s), n - 1);
    }
  }

  /** A call whose owner polls for headers that never come. */
  lemma PolledCall() returns (t: State)
    ensures Reachable(t) && t.owner.PollHeaders? && t.net.Idle? && t.peers == 0
    ensures t.sh.queue == [StartTask] && MayPost(t.sh) && !t.sh.claimed
  {
    ReachableInitial("https://a/", 20);
    t := OwnerPolls(Initial("https://a/", 20));
  }

  lemma PolledCallEnds() returns (t: State)
    ensures Reachable(t) && t.net.Gone? && t.owner.PollHeaders? && t.peers == 0
  {
    var polls := PolledCall();
    var cancelled := PeerCancels(polls);
    t := CallEnds(cancelled);
  }

  /** So some run leaves a thread polling a call that is over, with nothing left to
      wake it. */
  lemma DrainedWaiterIsStuck()
    ensures exists s :: Reachable(s) && Polling(s.owner) && s.robbed && Quiescent(s) && s.peers == 0
                        && s.net.Gone? && !Enabled(s, Wake)
  {
    var over := PolledCallEnds();
    var stuck := MoveReached(over, PeerDrain);
    assert Reachable(stuck) && !Enabled(stuck, Wake);
  }

  /** The network thread finishes with the call. */
  lemma CallEnds(s: State) returns (t: State)
    requires Reachable(s) && s.net == ClaimOutcome(UNFINISHED, ThenUnregister) && !s.sh.claimed
    ensures Reachable(t) && t.net.Gone? && t.owner == s.owner && t.peers == s.peers
  {
    FinishAlone(s);
    AdvancesReachable(s, 6);
    AdvancesLeaveOwner(s, 6);
    var finished := Advances(s, 6);
    UnregisterAlone(finished);
    AdvancesReachable(finished, 3);
    AdvancesLeaveOwner(finished, 3);
    t := Advances(finished, 3);
  }

  lemma UnregisterAlone(s: State)
    requires s.net.Unregister?
    ensures Advances(s, 3).net.Gone?
  {
    ThreeAdvances(s, 3);
  }
}
