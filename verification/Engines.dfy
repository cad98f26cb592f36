/** The bookkeeping of the two engines: src/cronet/_bridge.py keeps a claim count
    and the handles to cancel, native/engine.cc keeps the calls it must outlive.
    Each method is one region under the engine's lock. */
module Engines {
  import opened CallTypes
  import opened CallState

  type Handle = nat

  /** The Python engine's fields. `open` stands for `_handle is not None`. */
  datatype Desk = Desk(open: bool, live: set<Handle>, inFlight: int)

  function Claimed(d: Desk): Desk {
    if d.open then d.(inFlight := d.inFlight + 1) else d
  }

  function Added(d: Desk, h: Handle): Desk {
    d.(live := d.live + {h})
  }

  function Discarded(d: Desk, h: Handle): Desk {
    d.(live := d.live - {h})
  }

  function Left(d: Desk): Desk {
    d.(inFlight := d.inFlight - 1)
  }

  function Shut(d: Desk): Desk {
    d.(open := false)
  }

  class BridgeEngine {
    var open: bool
    var live: set<Handle>
    var inFlight: int
    // Every handle cronet_call_cancel was called with while the lock was held.
    ghost var cancelled: set<Handle>

    ghost function View(): Desk
      reads this
    {
      Desk(open, live, inFlight)
    }

    constructor ()
      ensures View() == Desk(true, {}, 0) && cancelled == {}
    {
      open, live, inFlight, cancelled := true, {}, 0, {};
    }

    /** Reserves the engine for one native call, or reports it closed. */
    method Claim() returns (claimed: bool)
      modifies this`inFlight
      ensures claimed == open
      ensures View() == Claimed(old(View()))
    {
      if !open {
        return false;
      }
      inFlight := inFlight + 1;
      claimed := true;
    }

    /** Makes a started call known, and cancels it if close() has gone past. */
    method Add(call: Handle)
      modifies this`live, this`cancelled
      ensures View() == Added(old(View()), call)
      ensures cancelled == old(cancelled) + (if open then {} else {call})
    {
      live := live + {call};
      if !open {
        cancelled := cancelled + {call};
      }
    }

    method Discard(call: Handle)
      modifies this`live
      ensures View() == Discarded(old(View()), call)
    {
      live := live - {call};
    }

    method Release()
      modifies this`inFlight
      ensures View() == Left(old(View()))
    {
      inFlight := inFlight - 1;
    }

    /** close() up to its wait: only the first closer goes on, having cancelled
        exactly the calls that were live. */
    method BeginClose() returns (first: bool)
      modifies this`open, this`cancelled
      ensures first == old(open)
      ensures View() == Shut(old(View()))
      ensures cancelled == old(cancelled) + (if first then live else {})
    {
      if !open {
        return false;
      }
      open := false;
      var rest := live;
      while rest != {}
        invariant !open && rest <= live
        invariant cancelled == old(cancelled) + (live - rest)
        decreases rest
      {
        var call :| call in rest;
        cancelled := cancelled + {call};
        rest := rest - {call};
      }
      first := true;
    }
  }

  /** Calls that share neither state nor request. */
  ghost predicate Separate(calls: set<CallState>)
  {
    forall a, b :: a in calls && b in calls && a != b ==> a.request != b.request
  }

  class NativeEngine {
    var liveCalls: set<CallState>
    var isShuttingDown: bool

    constructor ()
      ensures liveCalls == {} && !isShuttingDown
    {
      liveCalls, isShuttingDown := {}, false;
    }

    method RegisterCall(call: CallState) returns (registered: bool)
      modifies this`liveCalls
      ensures registered == !isShuttingDown
      ensures liveCalls == old(liveCalls) + (if registered then {call} else {})
    {
      if isShuttingDown {
        return false;
      }
      liveCalls := liveCalls + {call};
      registered := true;
    }

    method UnregisterCall(call: CallState) returns (broadcast: bool)
      modifies this`liveCalls
      ensures liveCalls == old(liveCalls) - {call}
      ensures broadcast == (liveCalls == {})
    {
      liveCalls := liveCalls - {call};
      broadcast := liveCalls == {};
    }

    /** Destroy() up to its wait. Every live call is cancelled, which does nothing
        to one that has no request attached yet; nothing else of a call changes. */
    method BeginDestroy(ghost requests: set<TaskQueue>)
      requires Separate(liveCalls) && forall c :: c in liveCalls ==> c.Valid() && c.request in requests
      modifies this`isShuttingDown, liveCalls`destroyRequested, requests
      ensures isShuttingDown && liveCalls == old(liveCalls)
      ensures forall c :: c in liveCalls ==>
                c.Valid() && Posted(c) == CancelPosted(old(Posted(c)), c.attached)
    {
      isShuttingDown := true;
      CancelAll(liveCalls, requests);
    }
  }

  method CancelAll(calls: set<CallState>, ghost requests: set<TaskQueue>)
    requires Separate(calls) && forall c :: c in calls ==> c.Valid() && c.request in requests
    modifies calls`destroyRequested, requests
    ensures forall c :: c in calls ==> c.Valid() && Posted(c) == CancelPosted(old(Posted(c)), c.attached)
  {
    var rest := calls;
    while rest != {}
      invariant rest <= calls
      invariant forall c :: c in calls ==> c.Valid()
      invariant forall c :: c in calls ==> Posted(c) == if c in rest then old(Posted(c)) else CancelPosted(old(Posted(c)), c.attached)
      decreases rest
    {
      var call :| call in rest;
      CancelOne(call, calls);
      rest := rest - {call};
    }
  }

  /** What Cancel changes of a call: whether it was asked to go, and its tasks. */
  ghost function Posted(c: CallState): (bool, seq<Task>)
    reads c`destroyRequested, c.request
  {
    (c.destroyRequested, c.request.tasks)
  }

  function CancelPosted(p: (bool, seq<Task>), attached: bool): (bool, seq<Task>) {
    if attached && !p.0 then (true, p.1 + [DestroyTask(true)]) else p
  }

  /** Cancelling one call leaves the others alone. */
  method CancelOne(call: CallState, ghost calls: set<CallState>)
    requires call in calls && Separate(calls) && forall c :: c in calls ==> c.Valid()
    modifies call`destroyRequested, call.request
    ensures forall c :: c in calls ==> c.Valid()
    ensures Posted(call) == CancelPosted(old(Posted(call)), call.attached)
    ensures forall c :: c in calls && c != call ==> Posted(c) == old(Posted(c))
  {
    ghost var before := call.View();
    call.Cancel();
    assert call.View() == RequestDestroy(before, true);
    forall c | c in calls && c != call
      ensures c.Valid() && Posted(c) == old(Posted(c))
    {
      assert c.request != call.request;
    }
  }
}
