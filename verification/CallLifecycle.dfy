/** EngineShutdown sees a call as five flags. This ties the flags to the protocol
    of native/call.cc: every step of a call either leaves them alone or is one of
    the steps EngineShutdown gives a started call. */
module CallLifecycle {
  import opened CallTypes
  import P = CallProtocol
  import I = CallInvariant
  import E = EngineShutdown

  /** A call that StartCall has returned, as the engines see it. */
  function Flags(s: P.State): E.Call {
    E.Call(true, true, s.sh.destroyRequested, !s.registered, s.sh.released)
  }

  /** Cancel and Finish, Unregister, Release, or nothing. */
  predicate LifeStep(c: E.Call, d: E.Call) {
    || d == c
    || d == c.(destroyRequested := true)
    || (c.destroyRequested && !c.unregistered && d == c.(unregistered := true))
    || (c.unregistered && !c.released && d == c.(released := true))
  }

  lemma AdvanceIsLifeStep(s: P.State)
    requires I.Inv(s) && P.Enabled(s, P.NetAdvance)
    ensures LifeStep(Flags(s), Flags(P.Advance(s)))
  {
    I.AdvanceKeepsInv(s);
    if s.net.IssueDestroy? {
      I.IssueDestroyKeepsInv(s);
    }
  }

  lemma RunIsLifeStep(s: P.State, reportCancel: bool)
    requires I.Inv(s) && P.Enabled(s, P.RunTask(reportCancel))
    ensures Flags(P.RunNext(s, reportCancel)) == Flags(s)
  {
  }

  lemma CallbackIsLifeStep(s: P.State, a: P.Action)
    requires P.Enabled(s, a) && P.IsNetwork(a) && !a.NetAdvance? && !a.RunTask?
    ensures Flags(P.CallbackStep(s, a)) == Flags(s)
  {
  }

  lemma OwnerIsLifeStep(s: P.State, a: P.Action)
    requires P.Enabled(s, a) && !P.IsNetwork(a) && !a.Cancel? && !a.BeginFree?
    ensures Flags(P.Step(s, a)) == Flags(s)
  {
    if I.Moves(s, a) {
      I.MoveMoves(s, a);
    }
  }

  lemma RequestIsLifeStep(s: P.State, a: P.Action)
    requires I.Inv(s) && P.Enabled(s, a) && (a.Cancel? || a.BeginFree?)
    ensures Flags(P.Step(s, a)) == E.Cancelled(Flags(s))
  {
    if !MayPost(s.sh) {
      I.UnpostableIsDestroyed(s);
    }
    I.RequestMoves(s, a);
  }

  lemma StepIsLifeStep(s: P.State, a: P.Action)
    requires I.Inv(s) && P.Enabled(s, a)
    ensures LifeStep(Flags(s), Flags(P.Step(s, a)))
    ensures a.Cancel? ==> Flags(P.Step(s, a)) == E.Cancelled(Flags(s))
  {
    if a.NetAdvance? { AdvanceIsLifeStep(s); }
    else if a.RunTask? { RunIsLifeStep(s, a.reportCancel); }
    else if P.IsNetwork(a) { CallbackIsLifeStep(s, a); }
    else if a.Cancel? || a.BeginFree? { RequestIsLifeStep(s, a); }
    else { OwnerIsLifeStep(s, a); }
  }

  lemma CallRefinesLifecycle(s: P.State, a: P.Action)
    requires P.Reachable(s) && P.Enabled(s, a)
    ensures LifeStep(Flags(s), Flags(P.Step(s, a)))
    ensures a.Cancel? ==> Flags(P.Step(s, a)) == E.Cancelled(Flags(s))
  {
    I.ReachableInv(s);
    StepIsLifeStep(s, a);
  }
}
