/** close() comes to an end: every step of the composed engines that changes
    anything brings it nearer, and where nothing more can happen it waits for
    nobody but owners who have not closed their calls. */
module EngineProgress {
  import opened EngineShutdown

  /** Every thread moves forward through its operation. */
  function PcLeft(pc: Pc): nat {
    match pc
    case Idle => 10
    case Claimed => 9
    case Registered => 8
    case Attached => 7
    case Launched => 6
    case Returned(_) => 5
    case Owned(_) => 4
    case Dropped(_) => 3
    case Freeing(_) => 2
    case Logging => 2
    case Closing => 3
    case Destroying => 2
    case Draining => 1
    case Leaving => 1
    case Over => 0
  }

  /** Every call is asked to go, unregistered and released once. */
  function CallLeft(c: Call): nat {
    (if c.destroyRequested then 0 else 1) + (if c.unregistered then 0 else 1) + (if c.released then 0 else 1)
  }

  function Weight(s: System, t: Thread): nat
    requires t in s.pc
  {
    PcLeft(s.pc[t]) + if t in s.calls then CallLeft(s.calls[t]) else 3
  }

  function Weights(s: System): map<Thread, nat> {
    map t | t in s.pc :: Weight(s, t)
  }

  ghost function Sum(w: map<Thread, nat>): nat
    decreases |w|
  {
    if w == map[] then 0
    else
      var t :| t in w;
      w[t] + Sum(w - {t})
  }

  lemma {:induction false} SumAt(w: map<Thread, nat>, t: Thread)
    requires t in w
    ensures Sum(w) == w[t] + Sum(w - {t})
    decreases |w|
  {
    var u :| u in w && Sum(w) == w[u] + Sum(w - {u});
    if u != t {
      SumAt(w - {u}, t);
      SumAt(w - {t}, u);
      assert w - {u} - {t} == w - {t} - {u};
    }
  }

  lemma {:induction false} SumGrows(v: map<Thread, nat>, w: map<Thread, nat>)
    requires v.Keys == w.Keys && forall t :: t in v ==> v[t] <= w[t]
    ensures Sum(v) <= Sum(w)
    decreases |v|
  {
    if v != map[] {
      var t :| t in v;
      SumAt(v, t);
      SumAt(w, t);
      SumGrows(v - {t}, w - {t});
    } else {
      assert w == map[];
    }
  }

  lemma SumLess(v: map<Thread, nat>, w: map<Thread, nat>, t: Thread)
    requires v.Keys == w.Keys && forall u :: u in v ==> v[u] <= w[u]
    requires t in v && v[t] < w[t]
    ensures Sum(v) < Sum(w)
  {
    SumAt(v, t);
    SumAt(w, t);
    SumGrows(v - {t}, w - {t});
  }

  ghost function Left(s: System): nat {
    Sum(Weights(s))
  }

  // --- Every change lowers it -------------------------------------------------------

  /** No call takes anything back. */
  lemma CallsKeepGoing(s: System, a: Action, t: Thread)
    requires Inv(s) && Enabled(s, a) && t in s.calls
    ensures t in CallsAfter(s, a) && CallLeft(CallsAfter(s, a)[t]) <= CallLeft(s.calls[t])
  {
    assert a.Register? ==> t != a.t;
  }

  lemma PcMoves(s: System, a: Action)
    requires Enabled(s, a)
    ensures PcLeft(PcAfter(s, a)) <= PcLeft(s.pc[a.t])
    ensures !a.Cancel? && !a.Finish? && !a.Unregister? && !a.Release? ==> PcLeft(PcAfter(s, a)) < PcLeft(s.pc[a.t])
  {
  }

  lemma WeightsFall(s: System, a: Action, t: Thread)
    requires Inv(s) && Enabled(s, a) && t in s.pc
    ensures t in Step(s, a).pc && Weight(Step(s, a), t) <= Weight(s, t)
  {
    PcMoves(s, a);
    if t in s.calls {
      CallsKeepGoing(s, a, t);
    }
  }

  /** The thread whose step it is gets nearer its end, or its call does. */
  lemma OwnWeightFalls(s: System, a: Action)
    requires Inv(s) && Enabled(s, a) && !a.Cancel? && !a.Finish?
    ensures Weight(Step(s, a), a.t) < Weight(s, a.t)
  {
    PcMoves(s, a);
    if a.t in s.calls {
      CallsKeepGoing(s, a, a.t);
    }
  }

  /** A cancel or the call's own end asks it to go, or finds it asked already. */
  lemma RequestCounts(s: System, a: Action)
    requires Inv(s) && Enabled(s, a) && (a.Cancel? || a.Finish?)
    ensures Step(s, a) == s || Weight(Step(s, a), a.t) < Weight(s, a.t)
  {
    assert CallOk(s, a.t);
    if a.Cancel? {
      CancelsOnlyOwn(s, a.t);
    }
    assert CallsAfter(s, a) == s.calls[a.t := s.calls[a.t].(destroyRequested := true)];
    assert s.pc[a.t := PcAfter(s, a)] == s.pc;
    if s.calls[a.t].destroyRequested {
      assert CallsAfter(s, a) == s.calls;
    }
  }

  /** A step changes nothing, or is one of at most Left(s). */
  lemma EveryStepCounts(s: System, a: Action)
    requires Inv(s) && Enabled(s, a)
    ensures Step(s, a) == s || Left(Step(s, a)) < Left(s)
  {
    forall t | t in s.pc
      ensures t in Step(s, a).pc && Weight(Step(s, a), t) <= Weight(s, t)
    {
      WeightsFall(s, a, t);
    }
    if a.Cancel? || a.Finish? {
      RequestCounts(s, a);
    } else {
      OwnWeightFalls(s, a);
    }
    WeightsLess(s, Step(s, a), a.t);
  }

  lemma WeightsLess(s: System, next: System, t: Thread)
    requires next.pc.Keys == s.pc.Keys && t in s.pc
    requires forall u :: u in s.pc ==> Weight(next, u) <= Weight(s, u)
    ensures Weight(next, t) < Weight(s, t) ==> Left(next) < Left(s)
  {
    if Weight(next, t) < Weight(s, t) {
      SumLess(Weights(next), Weights(s), t);
    }
  }

  // --- close() ----------------------------------------------------------------------

  /** Every step of the run changes something. */
  predicate Busy(s: System, run: seq<Action>)
    requires Runs(s, run)
    decreases run
  {
    run == [] || (Step(s, run[0]) != s && Busy(Step(s, run[0]), run[1..]))
  }

  lemma {:induction false} BusyRunsEnd(s: System, run: seq<Action>)
    requires Inv(s) && Runs(s, run) && Busy(s, run)
    ensures Inv(Final(s, run)) && |run| <= Left(s) - Left(Final(s, run))
    decreases run
  {
    if run != [] {
      EveryStepCounts(s, run[0]);
      StepKeepsInv(s, run[0]);
      BusyRunsEnd(Step(s, run[0]), run[1..]);
    }
  }

  /** What only its owner decides: to cancel a call, to close it. */
  predicate OwnersChoice(a: Action) {
    a.Cancel? || a.Drop?
  }

  /** Nothing more happens unless an owner acts. */
  ghost predicate Rests(s: System) {
    forall a :: Enabled(s, a) && !OwnersChoice(a) ==> Step(s, a) == s
  }

  /** What a claimant that is no owner does next, or the network thread for it. */
  ghost function NextOf(s: System, t: Thread): (a: Action)
    requires t in s.pc && (s.pc[t].Freeing? ==> t in s.calls)
    ensures a.t == t && !OwnersChoice(a) && !a.Refuse? && !a.Finish?
  {
    match s.pc[t]
    case Claimed => Register(t)
    case Logging => EndLog(t)
    case Registered => Attach(t)
    case Attached => Launch(t)
    case Launched => Allocate(t, Unused(s.heap.Keys))
    case Returned(_) => Add(t)
    case Dropped(_) => Free(t)
    case Freeing(_) =>
      if !s.calls[t].unregistered then Unregister(t)
      else if !s.calls[t].released then Release(t) else Collect(t)
    case _ => Leave(t)
  }

  lemma NextIsEnabled(s: System, t: Thread)
    requires Inv(s) && t in s.pc && Holds(s.pc[t]) && !s.pc[t].Owned?
    ensures (s.pc[t].Freeing? ==> t in s.calls) && Enabled(s, NextOf(s, t))
  {
    assert CallOk(s, t);
  }

  /** Whoever holds a claim and is not an owner goes on with what it was doing, or
      the network thread does for it; a starting thread by registering its call. */
  lemma ClaimantGoesOn(s: System, t: Thread)
    requires Inv(s) && t in s.pc && Holds(s.pc[t]) && !s.pc[t].Owned?
    ensures exists a: Action :: a.t == t && !OwnersChoice(a) && !a.Refuse? && Enabled(s, a) && Step(s, a) != s
  {
    NextIsEnabled(s, t);
    OwnWeightFalls(s, NextOf(s, t));
  }

  lemma RestingClaimsAreOwned(s: System)
    requires Inv(s) && Rests(s) && s.desk.inFlight != 0
    ensures exists t :: t in s.pc && s.pc[t].Owned?
  {
    assert Holders(s.pc) != {};
    var t :| t in Holders(s.pc);
    if !s.pc[t].Owned? {
      ClaimantGoesOn(s, t);
    }
  }

  /** close() ends: let a thread wait in it. However the others and the network move,
      no more than Left(s) steps change anything; and where nothing more happens
      unless an owner acts, its wait is over or some owner still has its call. */
  lemma CloseEnds(s: System, c: Thread, run: seq<Action>)
    requires Reachable(s) && c in s.pc && s.pc[c].Closing? && Runs(s, run) && Busy(s, run)
    ensures |run| <= Left(s)
    ensures var t := Final(s, run);
            Rests(t) ==> (exists u :: u in t.pc && t.pc[u].Owned?) || (c in t.pc && !t.pc[c].Closing?)
  {
    ReachableInv(s);
    BusyRunsEnd(s, run);
    ThreadsStay(s, run);
    var t := Final(s, run);
    if Rests(t) && t.pc[c].Closing? {
      if t.desk.inFlight == 0 {
        assert Enabled(t, Proceed(c));
        OwnWeightFalls(t, Proceed(c));
      } else {
        RestingClaimsAreOwned(t);
      }
    }
  }

  lemma {:induction false} ThreadsStay(s: System, run: seq<Action>)
    requires Runs(s, run)
    ensures Final(s, run).pc.Keys == s.pc.Keys
    decreases run
  {
    if run != [] {
      assert Step(s, run[0]).pc.Keys == s.pc.Keys;
      ThreadsStay(Step(s, run[0]), run[1..]);
    }
  }
}
