/** The native engine on its own, whatever is layered over it: when its Destroy stops
    every live call in order. */
module NativeShutdown {
  import opened EngineShutdown

  /** A thread is inside cronet_call_start with its call registered and not yet
      started. */
  predicate InWindow(s: System, t: Thread) {
    t in s.pc && (s.pc[t].Registered? || s.pc[t].Attached?)
  }

  /** Every live call has been asked to go, none of them before its Start. */
  predicate StopsInOrder(s: System) {
    forall t :: t in s.nativeLive ==> t in s.calls && s.calls[t].started && s.calls[t].destroyRequested
  }

  /** What the native layer keeps by itself: a call is as far as its thread has taken
      it. Who may destroy the engine when is not part of it. */
  ghost predicate NativeInv(s: System) {
    && (forall t :: t in s.calls ==>
          && t in s.pc && !s.pc[t].Idle? && !s.pc[t].Claimed?
          && (s.calls[t].attached <==> !s.pc[t].Registered?)
          && (s.calls[t].started <==> !s.pc[t].Registered? && !s.pc[t].Attached?))
    && (forall t :: InWindow(s, t) ==> t in s.calls && t in s.nativeLive)
    && s.nativeLive <= s.calls.Keys
  }

  lemma StartKeepsNativeInv(s: System, a: Action)
    requires NativeInv(s) && Enabled(s, a) && (a.Register? || a.Attach? || a.Launch?)
    ensures NativeInv(Step(s, a))
  {
  }

  lemma CancelKeepsNativeInv(s: System, a: Action)
    requires NativeInv(s) && Enabled(s, a) && (a.Add? || a.Cancel? || a.Free?)
    ensures NativeInv(Step(s, a))
  {
  }

  lemma ShutdownKeepsNativeInv(s: System, a: Action)
    requires NativeInv(s) && Enabled(s, a) && (a.Close? || a.Shutdown?)
    ensures NativeInv(Step(s, a))
  {
  }

  lemma EndKeepsNativeInv(s: System, a: Action)
    requires NativeInv(s) && Enabled(s, a) && (a.Finish? || a.Unregister? || a.Release?)
    ensures NativeInv(Step(s, a))
  {
  }

  lemma OtherKeepsNativeInv(s: System, a: Action)
    requires NativeInv(s) && Enabled(s, a)
    requires !a.Register? && !a.Attach? && !a.Launch? && !a.Add? && !a.Cancel? && !a.Free? && !a.Close?
             && !a.Shutdown? && !a.Finish? && !a.Unregister? && !a.Release?
    ensures NativeInv(Step(s, a))
  {
    assert Step(s, a).calls == s.calls && Step(s, a).nativeLive == s.nativeLive;
  }

  lemma StepKeepsNativeInv(s: System, a: Action)
    requires NativeInv(s) && Enabled(s, a)
    ensures NativeInv(Step(s, a))
  {
    if a.Register? || a.Attach? || a.Launch? { StartKeepsNativeInv(s, a); }
    else if a.Add? || a.Cancel? || a.Free? { CancelKeepsNativeInv(s, a); }
    else if a.Close? || a.Shutdown? { ShutdownKeepsNativeInv(s, a); }
    else if a.Finish? || a.Unregister? || a.Release? { EndKeepsNativeInv(s, a); }
    else { OtherKeepsNativeInv(s, a); }
  }

  lemma {:induction false} RunKeepsNativeInv(s: System, run: seq<Action>)
    requires NativeInv(s) && Runs(s, run)
    ensures NativeInv(Final(s, run))
    decreases run
  {
    if run != [] {
      StepKeepsNativeInv(s, run[0]);
      RunKeepsNativeInv(Step(s, run[0]), run[1..]);
    }
  }

  /** Run from any state without calls, whoever destroys the engine and whenever: the
      Destroy has asked every live call to go, and none before its Start, if and only
      if no thread stood in the window. */
  lemma DestroyStopsInOrder(start: System, run: seq<Action>, t: Thread)
    requires start.calls == map[] && start.nativeLive == {}
    requires forall u :: !InWindow(start, u)
    requires Runs(start, run) && Enabled(Final(start, run), Shutdown(t))
    ensures StopsInOrder(Step(Final(start, run), Shutdown(t)))
            <==> forall u :: !InWindow(Final(start, run), u)
  {
    RunKeepsNativeInv(start, run);
    ShutdownStopsInOrder(Final(start, run), t);
  }

  lemma ShutdownStopsInOrder(s: System, t: Thread)
    requires NativeInv(s) && Enabled(s, Shutdown(t))
    ensures StopsInOrder(Step(s, Shutdown(t))) <==> forall u :: !InWindow(s, u)
  {
    var next := Step(s, Shutdown(t));
    assert next.nativeLive == s.nativeLive;
    forall u | InWindow(s, u)
      ensures !StopsInOrder(next)
    {
      assert u in s.nativeLive && !s.calls[u].started;
    }
    if forall u :: !InWindow(s, u) {
      forall u | u in s.nativeLive
        ensures u in next.calls && next.calls[u].started && next.calls[u].destroyRequested
      {
        assert !InWindow(s, u) && next.calls[u] == Cancelled(s.calls[u]);
      }
    }
  }
}
