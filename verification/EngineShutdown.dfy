/** The Python engine over the native one, as a machine of atomic steps: any
    number of threads starting, owning, freeing calls, recording a NetLog and
    closing, and the network thread finishing calls, in any interleaving. A step
    is one region under one lock, one native call's atomic part, or one post. */
module EngineShutdown {
  import opened Prelude
  import opened Engines

  type Thread = nat

  /** One native call. It is identified by the thread that started it. */
  datatype Call = Call(attached: bool, started: bool, destroyRequested: bool, unregistered: bool, released: bool)

  const FRESH := Call(false, false, false, false, false)

  /** CallState::Cancel: nothing to act on before AttachRequest. */
  function Cancelled(c: Call): Call {
    if c.attached then c.(destroyRequested := true) else c
  }

  datatype Pc =
    | Idle
    // Engine.start
    | Claimed               // about to call cronet_call_start
    | Registered            // RegisterCall succeeded
    | Attached              // AttachRequest ran
    | Launched              // request->Start() ran
    | Returned(h: Handle)   // the handle exists, not yet in _live_calls
    | Owned(h: Handle)      // the Call is its owner's
    // Call.close
    | Dropped(h: Handle)    // discarded, about to call cronet_call_free
    | Freeing(h: Handle)    // cancelled, waiting for the release
    | Leaving               // about to give the claim back
    // start_net_log, stop_net_log
    | Logging
    // Engine.close
    | Closing               // waiting for the claims
    | Destroying            // about to call cronet_engine_destroy
    | Draining              // inside it, waiting for the native live set
    | Over

  datatype System = System(
    desk: Desk,
    engineAlive: bool, shuttingDown: bool, nativeLive: set<Thread>,
    heap: map<Handle, Thread>, calls: map<Thread, Call>,
    pc: map<Thread, Pc>,
    closer: Option<Thread>, destroys: nat)

  function Initial(threads: set<Thread>): System {
    System(Desk(true, {}, 0), true, false, {}, map[], map[],
           map t | t in threads :: Idle, None, 0)
  }

  datatype Action =
    | Claim(t: Thread)          // _claim, for a call
    | Refuse(t: Thread)         // an unusable URL
    | Register(t: Thread)       // Engine::RegisterCall
    | Attach(t: Thread)
    | Launch(t: Thread)
    | Allocate(t: Thread, h: Handle)
    | Add(t: Thread)            // _live_calls.add, and the late starter's cancel
    | Drop(t: Thread)           // _live_calls.discard
    | Cancel(t: Thread)         // cronet_call_cancel by the owner
    | Free(t: Thread)           // cronet_call_free's Cancel
    | Collect(t: Thread)        // its WaitForRelease and delete
    | Leave(t: Thread)          // _release
    | BeginLog(t: Thread)       // _claim, for a NetLog
    | EndLog(t: Thread)
    | Close(t: Thread)          // close() up to its wait
    | Proceed(t: Thread)        // its wait is over
    | Shutdown(t: Thread)       // Engine::Destroy up to its wait
    | Delete(t: Thread)         // its wait is over: delete context_
    | Finish(t: Thread)         // a call's own end: DestroyWithoutCancel
    | Unregister(t: Thread)     // OnDestroyed: Engine::UnregisterCall
    | Release(t: Thread)        // OnDestroyed: OnReleased

  predicate Enabled(s: System, a: Action) {
    && a.t in s.pc
    && var pc := s.pc[a.t];
    match a
    case Claim(t) => pc.Idle?
    case Refuse(t) => pc.Claimed?
    case Register(t) => pc.Claimed? && t !in s.calls
    case Attach(t) => pc.Registered? && t in s.calls
    case Launch(t) => pc.Attached? && t in s.calls
    case Allocate(t, h) => pc.Launched? && h !in s.heap
    case Add(t) => pc.Returned? && pc.h in s.heap
    case Drop(t) => pc.Owned?
    case Cancel(t) => pc.Owned? && pc.h in s.heap
    case Free(t) => pc.Dropped? && pc.h in s.heap
    case Collect(t) => pc.Freeing? && pc.h in s.heap && s.heap[pc.h] in s.calls && s.calls[s.heap[pc.h]].released
    case Leave(t) => pc.Leaving?
    case BeginLog(t) => pc.Idle?
    case EndLog(t) => pc.Logging?
    case Close(t) => pc.Idle?
    case Proceed(t) => pc.Closing? && s.desk.inFlight == 0
    case Shutdown(t) => pc.Destroying?
    case Delete(t) => pc.Draining? && s.nativeLive == {}
    case Finish(t) => t in s.calls && s.calls[t].started
    case Unregister(t) => t in s.calls && s.calls[t].started && s.calls[t].destroyRequested && !s.calls[t].unregistered
    case Release(t) => t in s.calls && s.calls[t].unregistered && !s.calls[t].released
  }

  /** cronet_call_cancel on every handle in `hs`. */
  function CancelHandles(s: System, hs: set<Handle>): map<Thread, Call> {
    map t | t in s.calls :: if exists h | h in hs :: h in s.heap && s.heap[h] == t then Cancelled(s.calls[t]) else s.calls[t]
  }

  /** Where a step leaves its thread. */
  function PcAfter(s: System, a: Action): Pc
    requires Enabled(s, a)
  {
    var pc := s.pc[a.t];
    match a
    case Claim(_) => if s.desk.open then Pc.Claimed else Over
    case Refuse(_) => Leaving
    case Register(_) => if s.shuttingDown then Leaving else Registered
    case Attach(_) => Attached
    case Launch(_) => Launched
    case Allocate(_, h) => Returned(h)
    case Add(_) => Owned(pc.h)
    case Drop(_) => Dropped(pc.h)
    case Free(_) => Freeing(pc.h)
    case Collect(_) => Leaving
    case Leave(_) => Over
    case BeginLog(_) => if s.desk.open then Logging else Over
    case EndLog(_) => Leaving
    case Close(_) => if s.desk.open then Closing else Over
    case Proceed(_) => Destroying
    case Shutdown(_) => Draining
    case Delete(_) => Over
    case _ => pc
  }

  function DeskAfter(s: System, a: Action): Desk
    requires Enabled(s, a)
  {
    match a
    case Claim(_) => Engines.Claimed(s.desk)
    case BeginLog(_) => Engines.Claimed(s.desk)
    case Add(t) => Added(s.desk, s.pc[t].h)
    case Drop(t) => Discarded(s.desk, s.pc[t].h)
    case Leave(_) => Left(s.desk)
    case Close(_) => Shut(s.desk)
    case _ => s.desk
  }

  function CallsAfter(s: System, a: Action): map<Thread, Call>
    requires Enabled(s, a)
  {
    match a
    case Register(t) => if s.shuttingDown then s.calls else s.calls[t := FRESH]
    case Attach(t) => s.calls[t := s.calls[t].(attached := true)]
    case Launch(t) => s.calls[t := s.calls[t].(started := true)]
    case Add(t) => if s.desk.open then s.calls else CancelHandles(s, {s.pc[t].h})
    case Cancel(t) => CancelHandles(s, {s.pc[t].h})
    case Free(t) => CancelHandles(s, {s.pc[t].h})
    case Close(_) => if s.desk.open then CancelHandles(s, s.desk.live) else s.calls
    case Shutdown(_) => map c | c in s.calls :: if c in s.nativeLive then Cancelled(s.calls[c]) else s.calls[c]
    case Finish(t) => s.calls[t := s.calls[t].(destroyRequested := true)]
    case Unregister(t) => s.calls[t := s.calls[t].(unregistered := true)]
    case Release(t) => s.calls[t := s.calls[t].(released := true)]
    case _ => s.calls
  }

  function Step(s: System, a: Action): System
    requires Enabled(s, a)
  {
    s.(desk := DeskAfter(s, a),
       calls := CallsAfter(s, a),
       pc := s.pc[a.t := PcAfter(s, a)],
       heap := if a.Allocate? then s.heap[a.h := a.t]
               else if a.Collect? then s.heap - {s.pc[a.t].h} else s.heap,
       nativeLive := if a.Register? && !s.shuttingDown then s.nativeLive + {a.t}
                     else if a.Unregister? then s.nativeLive - {a.t} else s.nativeLive,
       shuttingDown := s.shuttingDown || a.Shutdown?,
       engineAlive := s.engineAlive && !a.Delete?,
       closer := if a.Close? && s.desk.open then Some(a.t) else s.closer,
       destroys := if a.Shutdown? then s.destroys + 1 else s.destroys)
  }

  predicate Runs(s: System, run: seq<Action>)
    decreases run
  {
    run == [] || (Enabled(s, run[0]) && Runs(Step(s, run[0]), run[1..]))
  }

  function Final(s: System, run: seq<Action>): System
    requires Runs(s, run)
    decreases run
  {
    if run == [] then s else Final(Step(s, run[0]), run[1..])
  }

  // --- The invariant ----------------------------------------------------------

  /** Between _claim and _release. */
  predicate Holds(pc: Pc) {
    pc.Claimed? || pc.Logging? || HasCall(pc) || pc.Leaving?
  }

  /** Between RegisterCall and the deletion of the handle. */
  predicate HasCall(pc: Pc) {
    pc.Registered? || pc.Attached? || pc.Launched? || HasHandle(pc)
  }

  predicate HasHandle(pc: Pc) {
    pc.Returned? || pc.Owned? || pc.Dropped? || pc.Freeing?
  }

  predicate ClosingPc(pc: Pc) {
    pc.Closing? || pc.Destroying? || pc.Draining?
  }

  function Holders(pc: map<Thread, Pc>): set<Thread> {
    set t | t in pc && Holds(pc[t])
  }

  predicate CountInv(s: System) {
    s.desk.inFlight == |Holders(s.pc)|
  }

  /** The call of a thread is exactly as far as the thread has taken it. */
  predicate CallOk(s: System, t: Thread)
    requires t in s.pc
  {
    var pc := s.pc[t];
    && (HasCall(pc) ==> t in s.calls)
    && (pc.Idle? || pc.Claimed? || pc.Logging? || ClosingPc(pc) ==> t !in s.calls)
    && (t in s.calls ==>
          var c := s.calls[t];
          && (HasCall(pc) || pc.Leaving? || pc.Over?)
          && (t in s.nativeLive <==> !c.unregistered)
          && (c.attached <==> !pc.Registered?)
          && (c.started <==> !pc.Registered? && !pc.Attached?)
          && (c.destroyRequested ==> c.started)
          && (c.unregistered ==> c.destroyRequested)
          && (c.released ==> c.unregistered)
          && (pc.Leaving? || pc.Over? ==> c.released)
          && (pc.Freeing? ==> c.destroyRequested)
          && (pc.Owned? && !s.desk.open ==> c.destroyRequested))
    && (t !in s.calls ==> t !in s.nativeLive)
    && (HasHandle(pc) ==> pc.h in s.heap && s.heap[pc.h] == t)
  }

  predicate CallInv(s: System) {
    && (forall t :: t in s.pc ==> CallOk(s, t))
    && s.calls.Keys + s.nativeLive <= s.pc.Keys
  }

  /** A live handle is an allocated one, owned and not discarded. */
  predicate HandleInv(s: System) {
    && (forall h :: h in s.heap ==> s.heap[h] in s.pc && HasHandle(s.pc[s.heap[h]]) && s.pc[s.heap[h]].h == h)
    && (forall h :: h in s.desk.live ==> h in s.heap && s.pc[s.heap[h]].Owned?)
    && (forall t :: t in s.pc && s.pc[t].Owned? ==> s.pc[t].h in s.desk.live)
  }

  predicate CloseInv(s: System) {
    && (forall t :: t in s.pc && ClosingPc(s.pc[t]) ==> s.closer == Some(t))
    && (s.desk.open <==> s.closer.None?)
    && (s.closer.Some? ==> s.closer.value in s.pc && (ClosingPc(s.pc[s.closer.value]) || s.pc[s.closer.value].Over?))
    && (s.closer.Some? && !s.pc[s.closer.value].Closing? ==> s.desk.inFlight == 0)
    && s.destroys == (if s.closer.Some? && (s.pc[s.closer.value].Draining? || s.pc[s.closer.value].Over?) then 1 else 0)
    && (s.shuttingDown <==> s.destroys == 1)
    && (s.engineAlive <==> !(s.closer.Some? && s.pc[s.closer.value].Over?))
  }

  predicate Inv(s: System) {
    CountInv(s) && CallInv(s) && HandleInv(s) && CloseInv(s)
  }

  // --- Every step keeps it ------------------------------------------------------

  lemma HoldersAfter(pc: map<Thread, Pc>, t: Thread, next: Pc)
    requires t in pc
    ensures |Holders(pc[t := next])|
            == |Holders(pc)| + (if Holds(next) then 1 else 0) - (if Holds(pc[t]) then 1 else 0)
  {
    var before, after := Holders(pc), Holders(pc[t := next]);
    if Holds(pc[t]) == Holds(next) {
      assert after == before;
    } else if Holds(next) {
      assert after == before + {t};
    } else {
      assert after == before - {t};
    }
  }

  lemma CountKept(s: System, a: Action)
    requires Inv(s) && Enabled(s, a)
    ensures CountInv(Step(s, a))
  {
    HoldersAfter(s.pc, a.t, PcAfter(s, a));
    if Holds(s.pc[a.t]) {
      assert Holders(s.pc) >= {a.t};
      assert |Holders(s.pc) - {a.t}| == |Holders(s.pc)| - 1;
    }
    CountMoves(s, a);
  }

  /** The count moves with the thread that moves it. */
  lemma CountMoves(s: System, a: Action)
    requires Enabled(s, a) && (Holds(s.pc[a.t]) ==> s.desk.inFlight > 0)
    ensures DeskAfter(s, a).inFlight
            == s.desk.inFlight + (if Holds(PcAfter(s, a)) then 1 else 0) - (if Holds(s.pc[a.t]) then 1 else 0)
  {
  }

  /** With no claim left there is no native call left. */
  lemma NoClaimsNoCalls(s: System)
    requires Inv(s) && s.desk.inFlight == 0
    ensures s.nativeLive == {}
    ensures forall t :: t in s.pc ==> !Holds(s.pc[t])
  {
    forall t | t in s.pc
      ensures !Holds(s.pc[t]) && t !in s.nativeLive
    {
      assert t !in Holders(s.pc);
      assert CallOk(s, t);
    }
  }

  // Who closes, and how far.

  lemma QuietCloseKept(s: System, a: Action)
    requires CloseInv(s) && Enabled(s, a)
    requires a.Attach? || a.Launch? || a.Finish? || a.Unregister? || a.Release? || a.Cancel? || a.Free? || a.Collect? || a.Add? || a.Drop? || a.Allocate? || a.Refuse? || a.EndLog?
    ensures CloseInv(Step(s, a))
  {
  }

  lemma ClaimCloseKept(s: System, a: Action)
    requires Inv(s) && Enabled(s, a)
    requires a.Claim? || a.BeginLog? || a.Register?
    ensures CloseInv(Step(s, a))
  {
  }

  lemma LeaveCloseKept(s: System, a: Action)
    requires Inv(s) && Enabled(s, a)
    requires a.Leave?
    ensures CloseInv(Step(s, a))
  {
    if s.desk.inFlight == 0 { NoClaimsNoCalls(s); }
  }

  lemma BeginCloseKept(s: System, a: Action)
    requires Inv(s) && Enabled(s, a)
    requires a.Close? || a.Proceed?
    ensures CloseInv(Step(s, a))
  {
  }

  lemma TeardownCloseKept(s: System, a: Action)
    requires Inv(s) && Enabled(s, a)
    requires a.Shutdown? || a.Delete?
    ensures CloseInv(Step(s, a))
  {
  }

  lemma CloseKept(s: System, a: Action)
    requires Inv(s) && Enabled(s, a)
    ensures CloseInv(Step(s, a))
  {
    match a
    case Claim(_) => ClaimCloseKept(s, a);
    case BeginLog(_) => ClaimCloseKept(s, a);
    case Register(_) => ClaimCloseKept(s, a);
    case Leave(_) => LeaveCloseKept(s, a);
    case Close(_) => BeginCloseKept(s, a);
    case Proceed(_) => BeginCloseKept(s, a);
    case Shutdown(_) => TeardownCloseKept(s, a);
    case Delete(_) => TeardownCloseKept(s, a);
    case _ => QuietCloseKept(s, a);
  }

  // Handles.

  lemma QuietHandleKept(s: System, a: Action)
    requires HandleInv(s) && Enabled(s, a)
    requires !a.Allocate? && !a.Collect? && !a.Add? && !a.Drop? && !a.Free?
    ensures HandleInv(Step(s, a))
  {
  }

  lemma HeapKept(s: System, a: Action)
    requires Inv(s) && Enabled(s, a)
    requires a.Allocate? || a.Collect?
    ensures HandleInv(Step(s, a))
  {
  }

  lemma LiveKept(s: System, a: Action)
    requires Inv(s) && Enabled(s, a)
    requires a.Add? || a.Drop?
    ensures HandleInv(Step(s, a))
  {
  }

  lemma FreeHandleKept(s: System, a: Action)
    requires Inv(s) && Enabled(s, a)
    requires a.Free?
    ensures HandleInv(Step(s, a))
  {
  }

  lemma HandleKept(s: System, a: Action)
    requires Inv(s) && Enabled(s, a)
    ensures HandleInv(Step(s, a))
  {
    if a.Allocate? || a.Collect? { HeapKept(s, a); }
    else if a.Add? || a.Drop? { LiveKept(s, a); }
    else if a.Free? { FreeHandleKept(s, a); }
    else { QuietHandleKept(s, a); }
  }

  // Calls: the acting thread's own, and everyone else's.

  lemma OwnStartKept(s: System, a: Action)
    requires Inv(s) && Enabled(s, a)
    requires a.Register? || a.Attach? || a.Launch?
    ensures CallOk(Step(s, a), a.t)
  {
  }

  lemma OwnHandleKept(s: System, a: Action)
    requires Inv(s) && Enabled(s, a)
    requires a.Allocate? || a.Drop? || a.Collect?
    ensures CallOk(Step(s, a), a.t)
  {
  }

  lemma OwnAddKept(s: System, t: Thread)
    requires Inv(s) && Enabled(s, Add(t))
    ensures CallOk(Step(s, Add(t)), t)
  {
    assert CallOk(s, t);
    CancelsOnlyOwn(s, t);
  }

  lemma OwnCancelKept(s: System, t: Thread)
    requires Inv(s) && Enabled(s, Cancel(t))
    ensures CallOk(Step(s, Cancel(t)), t)
  {
    assert CallOk(s, t);
    CancelsOnlyOwn(s, t);
  }

  lemma OwnFreeKept(s: System, t: Thread)
    requires Inv(s) && Enabled(s, Free(t))
    ensures CallOk(Step(s, Free(t)), t)
  {
    assert CallOk(s, t);
    CancelsOnlyOwn(s, t);
  }

  lemma OwnNetworkKept(s: System, a: Action)
    requires Inv(s) && Enabled(s, a)
    requires a.Finish? || a.Unregister? || a.Release?
    ensures CallOk(Step(s, a), a.t)
  {
  }

  lemma OwnClaimKept(s: System, a: Action)
    requires Inv(s) && Enabled(s, a) && (a.Claim? || a.BeginLog?)
    ensures CallOk(Step(s, a), a.t)
  {
    assert CallOk(s, a.t);
  }

  lemma OwnWaitKept(s: System, a: Action)
    requires Inv(s) && Enabled(s, a) && (a.Proceed? || a.Delete?)
    ensures CallOk(Step(s, a), a.t)
  {
    assert CallOk(s, a.t);
  }

  lemma OwnLeaveKept(s: System, a: Action)
    requires Inv(s) && Enabled(s, a)
    requires a.Refuse? || a.EndLog? || a.Leave?
    ensures CallOk(Step(s, a), a.t)
  {
    assert CallOk(s, a.t);
  }

  lemma OwnCloseKept(s: System, a: Action)
    requires Inv(s) && Enabled(s, a) && a.Close?
    ensures CallOk(Step(s, a), a.t)
  {
    assert CallOk(s, a.t);
  }

  /** The native Destroy cancels nothing: there is nothing left to cancel. */
  lemma CallKeptByShutdown(s: System, a: Action, t: Thread)
    requires Inv(s) && Enabled(s, a) && a.Shutdown? && t in s.pc
    ensures CallOk(Step(s, a), t)
  {
    NoClaimsNoCalls(s);
    assert CallsAfter(s, a) == s.calls;
    assert CallOk(s, t);
  }

  lemma OwnCallKept(s: System, a: Action)
    requires Inv(s) && Enabled(s, a)
    ensures CallOk(Step(s, a), a.t)
  {
    if a.Register? || a.Attach? || a.Launch? { OwnStartKept(s, a); }
    else if a.Allocate? || a.Drop? || a.Collect? { OwnHandleKept(s, a); }
    else if a.Add? { OwnAddKept(s, a.t); }
    else if a.Cancel? { OwnCancelKept(s, a.t); }
    else if a.Free? { OwnFreeKept(s, a.t); }
    else if a.Finish? || a.Unregister? || a.Release? { OwnNetworkKept(s, a); }
    else if a.Close? { OwnCloseKept(s, a); }
    else if a.Shutdown? { CallKeptByShutdown(s, a, a.t); }
    else if a.Claim? || a.BeginLog? { OwnClaimKept(s, a); }
    else if a.Proceed? || a.Delete? { OwnWaitKept(s, a); }
    else { OwnLeaveKept(s, a); }
  }

  /** A cancel by handle reaches the call of the handle's owner and no other. */
  lemma CancelsOnlyOwn(s: System, t: Thread)
    requires Inv(s) && t in s.pc && HasHandle(s.pc[t])
    ensures CancelHandles(s, {s.pc[t].h}) == s.calls[t := Cancelled(s.calls[t])]
  {
    assert CallOk(s, t);
  }

  lemma OtherCallKept(s: System, a: Action, t: Thread)
    requires Inv(s) && Enabled(s, a) && !a.Close? && !a.Shutdown? && t in s.pc && t != a.t
    ensures CallOk(Step(s, a), t)
  {
    if a.Add? || a.Cancel? || a.Free? {
      OtherCallNotCancelled(s, a, t);
    } else {
      OtherCallUntouched(s, a, t);
      assert CallOk(s, t);
    }
  }

  lemma OtherCallUntouched(s: System, a: Action, t: Thread)
    requires Enabled(s, a) && t in s.pc && t != a.t
    requires !a.Close? && !a.Shutdown? && !a.Add? && !a.Cancel? && !a.Free?
    ensures var next := Step(s, a);
            && next.pc[t] == s.pc[t]
            && (t in next.calls <==> t in s.calls) && (t in s.calls ==> next.calls[t] == s.calls[t])
            && (t in next.nativeLive <==> t in s.nativeLive)
            && next.desk.open == s.desk.open
  {
  }

  lemma OtherCallNotCancelled(s: System, a: Action, t: Thread)
    requires Inv(s) && Enabled(s, a) && (a.Add? || a.Cancel? || a.Free?) && t in s.pc && t != a.t
    ensures CallOk(Step(s, a), t)
  {
    CancelsOnlyOwn(s, a.t);
    assert CallOk(s, t);
  }

  /** close() cancels every owned call: each was attached and started long ago. */
  lemma CallKeptByClose(s: System, a: Action, t: Thread)
    requires Inv(s) && Enabled(s, a) && a.Close? && t in s.pc && t != a.t
    ensures CallOk(Step(s, a), t)
  {
    assert CallOk(s, t);
    if s.pc[t].Owned? {
      assert s.pc[t].h in s.desk.live;
    }
  }

  lemma CallKept(s: System, a: Action)
    requires Inv(s) && Enabled(s, a)
    ensures CallInv(Step(s, a))
  {
    OwnCallKept(s, a);
    forall t | t in s.pc && t != a.t
      ensures CallOk(Step(s, a), t)
    {
      if a.Close? { CallKeptByClose(s, a, t); }
      else if a.Shutdown? { CallKeptByShutdown(s, a, t); }
      else { OtherCallKept(s, a, t); }
    }
  }

  lemma StepKeepsInv(s: System, a: Action)
    requires Inv(s) && Enabled(s, a)
    ensures Inv(Step(s, a))
  {
    CountKept(s, a);
    CallKept(s, a);
    HandleKept(s, a);
    CloseKept(s, a);
  }

  lemma {:induction false} RunKeepsInv(s: System, run: seq<Action>)
    requires Inv(s) && Runs(s, run)
    ensures Inv(Final(s, run))
    decreases run
  {
    if run != [] {
      StepKeepsInv(s, run[0]);
      RunKeepsInv(Step(s, run[0]), run[1..]);
    }
  }

  // --- What it means ------------------------------------------------------------

  lemma InitialInv(threads: set<Thread>)
    ensures Inv(Initial(threads))
  {
    assert Holders(Initial(threads).pc) == {};
  }

  /** Reached by some interleaving of some set of threads. */
  ghost predicate Reachable(s: System) {
    exists threads, run :: Runs(Initial(threads), run) && Final(Initial(threads), run) == s
  }

  lemma ReachableInv(s: System)
    requires Reachable(s)
    ensures Inv(s)
  {
    var threads, run :| Runs(Initial(threads), run) && Final(Initial(threads), run) == s;
    InitialInv(threads);
    RunKeepsInv(Initial(threads), run);
  }

  /** Inside a native entry that was passed the engine's handle. */
  predicate UsesEngine(pc: Pc) {
    pc.Claimed? || pc.Registered? || pc.Attached? || pc.Launched? || pc.Logging?
  }

  /** The Python count dominates the native live set: it is what close() may
      safely wait on. */
  lemma CountDominates(s: System)
    requires Reachable(s)
    ensures |s.nativeLive| <= s.desk.inFlight
  {
    ReachableInv(s);
    forall t | t in s.nativeLive
      ensures t in Holders(s.pc)
    {
      assert CallOk(s, t);
    }
    SubsetCount(s.nativeLive, Holders(s.pc));
  }

  lemma {:induction false} SubsetCount(a: set<Thread>, b: set<Thread>)
    requires a <= b
    ensures |a| <= |b|
    decreases a
  {
    if a != {} {
      var x :| x in a;
      SubsetCount(a - {x}, b - {x});
    }
  }

  /** The native engine is destroyed at most once, with nothing registered and
      nobody inside it, and nobody is inside it afterwards. */
  lemma TeardownIsSafe(s: System)
    requires Reachable(s)
    ensures s.destroys <= 1
    ensures forall t :: t in s.pc && UsesEngine(s.pc[t]) ==> s.engineAlive && !s.shuttingDown
    ensures s.shuttingDown || !s.engineAlive ==> s.nativeLive == {}
    ensures s.shuttingDown || !s.engineAlive ==> forall t :: t in s.pc ==> !Holds(s.pc[t])
    ensures forall t :: t in s.pc && (s.pc[t].Destroying? || s.pc[t].Draining?) ==> s.engineAlive
  {
    ReachableInv(s);
    if s.desk.inFlight == 0 {
      NoClaimsNoCalls(s);
    }
  }

  /** So cronet_engine_destroy neither cancels anything nor waits for anything. */
  lemma DestroyFindsNothing(s: System, t: Thread)
    requires Reachable(s) && Enabled(s, Shutdown(t))
    ensures var after := Step(s, Shutdown(t));
            after.calls == s.calls && Enabled(after, Delete(t))
  {
    ReachableInv(s);
    NoClaimsNoCalls(s);
    EmptyShutdown(s, t);
  }

  lemma EmptyShutdown(s: System, t: Thread)
    requires Enabled(s, Shutdown(t)) && s.nativeLive == {}
    ensures Step(s, Shutdown(t)).calls == s.calls && Enabled(Step(s, Shutdown(t)), Delete(t))
  {
    assert CallsAfter(s, Shutdown(t)) == s.calls;
  }

  /** Once the session is closed every call an owner holds has been asked to stop,
      a late starter's included; and the handles cancelled under the lock are
      allocated, each naming its owner's own call and no one else's. */
  lemma CloseReachesEveryCall(s: System)
    requires Reachable(s)
    ensures forall h :: h in s.desk.live ==>
              && h in s.heap && s.heap[h] in s.calls && s.heap[h] in s.pc
              && s.pc[s.heap[h]] == Owned(h)
              && (!s.desk.open ==> s.calls[s.heap[h]].destroyRequested)
    ensures forall t, u :: t in s.pc && u in s.pc && HasHandle(s.pc[t]) && HasHandle(s.pc[u]) && s.pc[t].h == s.pc[u].h
              ==> t == u
  {
    ReachableInv(s);
    forall h | h in s.desk.live
      ensures h in s.heap && s.heap[h] in s.calls && s.heap[h] in s.pc && s.pc[s.heap[h]] == Owned(h)
              && (!s.desk.open ==> s.calls[s.heap[h]].destroyRequested)
    {
      assert CallOk(s, s.heap[h]);
    }
    forall t, u | t in s.pc && u in s.pc && HasHandle(s.pc[t]) && HasHandle(s.pc[u]) && s.pc[t].h == s.pc[u].h
      ensures t == u
    {
      assert CallOk(s, t) && CallOk(s, u);
    }
  }

  /** Who asks a call to stop: its owner by cancelling or freeing it, its own end, the
      close that finds it owned, or its owner again on making it known behind a
      close; nothing else, and none of these asks another call. */
  lemma WhoAsksACall(s: System, a: Action, t: Thread)
    requires Reachable(s) && Enabled(s, a) && t in s.calls
    ensures t in Step(s, a).calls
    ensures Step(s, a).calls[t].destroyRequested
            <==> || s.calls[t].destroyRequested
                 || (a.t == t && (a.Cancel? || a.Free? || a.Finish? || (a.Add? && !s.desk.open)))
                 || (a.Close? && s.desk.open && t in s.pc && s.pc[t].Owned?)
  {
    ReachableInv(s);
    assert CallOk(s, t);
    if a.Add? || a.Cancel? || a.Free? {
      OwnerAsks(s, a, t);
    } else if a.Close? {
      CloseAsks(s, a, t);
    } else if a.Shutdown? {
      DestroyFindsNothing(s, a.t);
    } else {
      OthersAskNothing(s, a, t);
    }
  }

  lemma OwnerAsks(s: System, a: Action, t: Thread)
    requires Inv(s) && Enabled(s, a) && (a.Add? || a.Cancel? || a.Free?) && t in s.calls
    ensures t in Step(s, a).calls
    ensures Step(s, a).calls[t].destroyRequested
            <==> s.calls[t].destroyRequested || (a.t == t && (!a.Add? || !s.desk.open))
  {
    CancelsOnlyOwn(s, a.t);
    assert CallOk(s, a.t);
  }

  lemma CloseAsks(s: System, a: Action, t: Thread)
    requires Inv(s) && Enabled(s, a) && a.Close? && t in s.calls && t in s.pc
    ensures t in Step(s, a).calls
    ensures Step(s, a).calls[t].destroyRequested
            <==> s.calls[t].destroyRequested || (s.desk.open && s.pc[t].Owned?)
  {
    assert CallOk(s, t);
    if s.pc[t].Owned? {
      assert s.pc[t].h in s.desk.live;
    }
  }

  lemma OthersAskNothing(s: System, a: Action, t: Thread)
    requires Enabled(s, a) && t in s.calls
    requires !a.Close? && !a.Shutdown? && !a.Add? && !a.Cancel? && !a.Free?
    ensures t in Step(s, a).calls
    ensures Step(s, a).calls[t].destroyRequested <==> s.calls[t].destroyRequested || a == Finish(t)
  {
  }

  /** The window of native/call.cc between RegisterCall and Start is never hit: no
      call is asked to go before it has started, and no cancel of the composed
      system falls on a call that is not attached. */
  lemma WindowIsNeverHit(s: System)
    requires Reachable(s)
    ensures forall t :: t in s.calls && s.calls[t].destroyRequested ==> s.calls[t].attached && s.calls[t].started
    ensures forall h :: h in s.heap ==> s.heap[h] in s.calls && s.calls[s.heap[h]].started
  {
    ReachableInv(s);
    forall t | t in s.calls && s.calls[t].destroyRequested
      ensures s.calls[t].attached && s.calls[t].started
    {
      assert CallOk(s, t);
    }
    forall h | h in s.heap
      ensures s.heap[h] in s.calls && s.calls[s.heap[h]].started
    {
      assert CallOk(s, s.heap[h]);
    }
  }

  /** An address no allocation holds. */
  ghost function Unused(hs: set<Handle>): (h: Handle)
    ensures h !in hs
  {
    UpperBound(hs)
  }

  ghost function UpperBound(hs: set<Handle>): (b: Handle)
    ensures forall h :: h in hs ==> h < b
    decreases |hs|
  {
    if hs == {} then 0
    else
      var h :| h in hs;
      var b := UpperBound(hs - {h});
      assert forall k :: k in hs ==> k == h || k in hs - {h};
      if b <= h then h + 1 else b
  }

  /** The native engine used directly: one thread inside cronet_call_start, another
      about to call cronet_engine_destroy. */
  function Raw(): System {
    System(Desk(true, {}, 0), true, false, {}, map[], map[],
           map[0 := Pc.Claimed, 1 := Destroying], None, 0)
  }

  /** Without the Python count the window is real. A Cancel before AttachRequest
      does nothing, and the call runs on in an engine that is shutting down; one
      before Start has the Destroy posted first. */
  lemma NativeWindow()
    ensures var run := [Register(0), Shutdown(1), Attach(0), Launch(0)];
            Runs(Raw(), run)
            && var s := Final(Raw(), run);
               s.shuttingDown && s.calls[0].started && !s.calls[0].destroyRequested && 0 in s.nativeLive
    ensures var run := [Register(0), Attach(0), Shutdown(1)];
            Runs(Raw(), run)
            && var s := Final(Raw(), run);
               s.calls[0].destroyRequested && !s.calls[0].started && Enabled(s, Launch(0))
  {
    var s1 := Step(Raw(), Register(0));
    assert s1.pc[0] == Registered && s1.calls == map[0 := FRESH] && s1.nativeLive == {0};
    var s2 := Step(s1, Shutdown(1));
    assert s2.calls[0] == FRESH;
    var s3 := Step(s2, Attach(0));
    var s4 := Step(s3, Launch(0));
    RunOfFour(Raw(), Register(0), Shutdown(1), Attach(0), Launch(0));
    var t2 := Step(s1, Attach(0));
    var t3 := Step(t2, Shutdown(1));
    assert t3.calls[0] == Cancelled(t2.calls[0]);
    RunOfThree(Raw(), Register(0), Attach(0), Shutdown(1));
  }

  lemma RunOfThree(s: System, a: Action, b: Action, c: Action)
    requires Enabled(s, a) && Enabled(Step(s, a), b) && Enabled(Step(Step(s, a), b), c)
    ensures Runs(s, [a, b, c]) && Final(s, [a, b, c]) == Step(Step(Step(s, a), b), c)
  {
    assert [a, b, c][1..] == [b, c] && [b, c][1..] == [c] && [c][1..] == [];
    var t := Step(Step(s, a), b);
    assert Runs(Step(t, c), []) && Runs(t, [c]) && Final(t, [c]) == Step(t, c);
    assert Runs(Step(s, a), [b, c]) && Final(Step(s, a), [b, c]) == Step(t, c);
  }

  lemma RunOfFour(s: System, a: Action, b: Action, c: Action, d: Action)
    requires Enabled(s, a) && Enabled(Step(s, a), b) && Enabled(Step(Step(s, a), b), c)
    requires Enabled(Step(Step(Step(s, a), b), c), d)
    ensures Runs(s, [a, b, c, d]) && Final(s, [a, b, c, d]) == Step(Step(Step(Step(s, a), b), c), d)
  {
    RunOfThree(Step(s, a), b, c, d);
    assert [a, b, c, d][1..] == [b, c, d];
  }
}
