/** One call as a machine of atomic steps: the network thread inside its
    callbacks; one thread of the caller's, the owner, followed from wait to wait;
    and any number of others, its peers, which read, drain the descriptor and
    cancel whenever they like. Each step is one lock-held region, one atomic
    access, one descriptor access or one task run, so a run is one interleaving.

    CronetURLRequest is the environment: each Start, Follow or Read it runs
    yields at most one further callback, a completed read carries between one
    byte and one read buffer, nothing but metrics and OnDestroyed follows a
    terminal callback, and running a Destroy yields OnDestroyed once, possibly
    after OnCanceled. */
module CallProtocol {
  import opened Prelude
  import opened CallTypes

  /** What the request is doing that has not called back yet. */
  datatype Flight = Nothing | HeaderFlight | ReadFlight

  /** Whether a response is taken as it is or ends a chain at its limit. */
  datatype Verdict = Proceed | LimitReached(outcome: Outcome)

  /** Where a callback goes on once Finish returns. */
  datatype After = ThenDestroy | ThenOnDestroyed | ThenUnregister

  /** What the network thread does next. */
  datatype NetPc =
    | Idle
    | WriteUrl(location: string)
    | IssueFollow
    | WriteHead(head: Head, verdict: Verdict)
    | StoreHeaders(verdict: Verdict)
    | SignalHeaders(verdict: Verdict)
    | WriteCount(verdict: Verdict)
    | IssueRead
    | TakeData(data: seq<byte>)
    | SignalData(keep: bool)
    | ClaimOutcome(outcome: Outcome, after: After)
    | EndBody(outcome: Outcome, after: After)
    | WriteOutcome(outcome: Outcome, after: After)
    | StoreDone(after: After)
    | SignalFinished(after: After)
    | SignalDone(after: After)
    | IssueDestroy
    | Unregister
    | ClearRequest
    | SignalReleased
    | Gone

  /** What the owner does next. */
  datatype OwnerPc =
    | Free            // between waits
    | DrainHeaders    // wait_for_headers: about to drain
    | LoadState       // drained, about to load the state
    | PollHeaders     // saw STARTED, in poll()
    | DrainBody       // iter_body: about to drain
    | Reading         // drained, about to read
    | Resuming        // a read reached the low-water mark, about to post
    | PollBody        // a read returned nothing, in poll()
    | AwaitDone       // in cronet_call_wait
    | AwaitRelease    // in cronet_call_free, after its Cancel
    | Freed

  datatype State = State(
    sh: Shared,
    net: NetPc, flight: Flight, alive: bool, metricsDone: bool,
    redirects: nat, limit: nat,
    // How many peers owe the network a read they were told to restart; whether a
    // peer has drained the descriptor since the owner began to poll it.
    owner: OwnerPc, peers: nat, robbed: bool,
    registered: bool,
    // History: whether a reader was told EOF, whether the owner saw DONE, what the
    // network handed over, what readers were handed in the order they read it,
    // which outcome was claimed.
    sawEof: bool, sawDone: bool,
    received: seq<byte>, delivered: seq<byte>, outcome: Option<Outcome>)

  datatype Action =
    // The network thread runs the task at the head of the queue.
    | RunTask(reportCancel: bool)
    // Callbacks of the environment.
    | ReceivedRedirect(location: string, head: Head)
    | ResponseStarted(head: Head)
    | ReadCompleted(data: seq<byte>)
    | Succeeded
    | Failed(outcome: Outcome)
    | MetricsCollected(metrics: int)
    // The next step of the callback that is running.
    | NetAdvance
    // The owner.
    | BeginHeaders | BeginBody | BeginWait | BeginFree
    | DrainStep | LoadStep | ReadStep(capacity: nat) | ResumeStep
    | Wake | GiveUp
    // Any other thread of the caller's.
    | PeerRead(capacity: nat) | PeerResume | PeerDrain
    // Any thread.
    | Cancel

  predicate IsNetwork(a: Action) {
    a.RunTask? || a.ReceivedRedirect? || a.ResponseStarted? || a.ReadCompleted? || a.Succeeded?
    || a.Failed? || a.MetricsCollected? || a.NetAdvance?
  }

  predicate IsRead(a: Action) {
    a.ReadStep? || a.PeerRead?
  }

  /** Right after StartCall: attached, registered, Start posted. */
  function Initial(url: string, limit: nat): State {
    State(
      Shared([], false, false, true, false, [StartTask], 0, false, Started,
             Response(NO_HEAD, url, 0, 0, NO_ERROR), false, false, false),
      Idle, Nothing, true, false, 0, limit, Free, 0, false, true, false, false, [], [], None)
  }

  predicate Enabled(s: State, a: Action) {
    match a
    case RunTask(_) => s.net.Idle? && s.sh.queue != []
    case ReceivedRedirect(_, _) => s.net.Idle? && s.flight.HeaderFlight?
    case ResponseStarted(_) => s.net.Idle? && s.flight.HeaderFlight?
    case ReadCompleted(data) => s.net.Idle? && s.flight.ReadFlight? && 1 <= |data| <= READ_BUFFER
    case Succeeded => s.net.Idle? && s.flight.ReadFlight?
    case Failed(o) => s.net.Idle? && !s.flight.Nothing? && o.code < 0
    case MetricsCollected(_) => !s.metricsDone && (if s.alive then s.net.Idle? else s.net.ClaimOutcome?)
    case NetAdvance => !s.net.Idle? && !s.net.Gone?
    case BeginHeaders => s.owner.Free?
    case BeginBody => s.owner.Free?
    case BeginWait => s.owner.Free?
    case BeginFree => s.owner.Free?
    case DrainStep => s.owner.DrainHeaders? || s.owner.DrainBody?
    case LoadStep => s.owner.LoadState?
    case ReadStep(capacity) => s.owner.Reading? && capacity > 0
    case ResumeStep => s.owner.Resuming?
    case Wake =>
      || (Polling(s.owner) && s.sh.counter > 0)
      || (s.owner.AwaitDone? && s.sh.finished)
      || (s.owner.AwaitRelease? && s.sh.released)
    case GiveUp => s.owner.PollHeaders? || s.owner.PollBody? || s.owner.Reading? || s.owner.AwaitDone?
    case PeerRead(capacity) => !s.owner.Freed? && capacity > 0
    case PeerResume => s.peers > 0
    case PeerDrain => !s.owner.Freed?
    case Cancel => !s.owner.Freed?
  }

  /** What a callback does before its first access to the shared state. For a
      redirect that is the test against the limit. */
  function CallbackNet(s: State, a: Action): NetPc {
    match a
    case ReceivedRedirect(location, head) =>
      if s.redirects < s.limit then WriteUrl(location)
      else if s.limit == 0 then WriteHead(head, LimitReached(NO_ERROR))
      else WriteHead(head, LimitReached(Outcome(ERROR_TOO_MANY_REDIRECTS, "redirect limit reached at " + location)))
    case ResponseStarted(head) => WriteHead(head, Proceed)
    case ReadCompleted(data) => TakeData(data)
    case Succeeded => ClaimOutcome(NO_ERROR, ThenDestroy)
    case Failed(o) => ClaimOutcome(o, ThenDestroy)
    case _ => s.net
  }

  function CallbackStep(s: State, a: Action): State {
    s.(sh := if a.MetricsCollected? then PutMetrics(s.sh, a.metrics) else s.sh,
       metricsDone := s.metricsDone || a.MetricsCollected?,
       flight := if a.MetricsCollected? then s.flight else Nothing,
       redirects := if a.ReceivedRedirect? && s.redirects < s.limit then s.redirects + 1 else s.redirects,
       net := CallbackNet(s, a))
  }

  /** Running a Destroy frees the request; everything else puts it to work. */
  function RunNext(s: State, reportCancel: bool): State
    requires s.sh.queue != []
  {
    var task := s.sh.queue[0];
    s.(sh := s.sh.(queue := s.sh.queue[1..]),
       alive := s.alive && !task.DestroyTask?,
       flight := match task case DestroyTask(_) => Nothing case ReadTask => ReadFlight case _ => HeaderFlight,
       net := match task
              case DestroyTask(send) =>
                if send && reportCancel then ClaimOutcome(CANCELLED, ThenOnDestroyed)
                else ClaimOutcome(UNFINISHED, ThenUnregister)
              case _ => s.net)
  }

  function Resume(after: After): NetPc {
    match after
    case ThenDestroy => IssueDestroy
    case ThenOnDestroyed => ClaimOutcome(UNFINISHED, ThenUnregister)
    case ThenUnregister => Unregister
  }

  /** What a step inside a callback does to the shared state. */
  function Effect(sh: Shared, net: NetPc, redirects: nat): Shared {
    match net
    case WriteUrl(location) => PutUrl(sh, location)
    case IssueFollow => Post(sh, FollowTask)
    case WriteHead(head, _) => PutHead(sh, head)
    case StoreHeaders(_) => sh.(phase := Headers)
    case SignalHeaders(_) => Signal(sh)
    case WriteCount(_) => PutCount(sh, redirects)
    case IssueRead => Post(sh, ReadTask)
    case TakeData(data) => AppendBody(sh, data)
    case SignalData(_) => Signal(sh)
    case ClaimOutcome(_, _) => sh.(claimed := true)
    case EndBody(_, _) => CompleteBody(sh)
    case WriteOutcome(o, _) => PutOutcome(sh, o)
    case StoreDone(_) => sh.(phase := Done)
    case SignalFinished(_) => sh.(finished := true)
    case SignalDone(_) => Signal(sh)
    case IssueDestroy => RequestDestroy(sh, false)
    case ClearRequest => sh.(attached := false)
    case SignalReleased => sh.(released := true)
    case _ => sh
  }

  /** Where that step leaves the callback. */
  function Next(sh: Shared, net: NetPc): NetPc {
    match net
    case WriteUrl(_) => IssueFollow
    case WriteHead(_, v) => StoreHeaders(v)
    case StoreHeaders(v) => SignalHeaders(v)
    case SignalHeaders(v) => WriteCount(v)
    case WriteCount(v) => if v.Proceed? then IssueRead else ClaimOutcome(v.outcome, ThenDestroy)
    case TakeData(data) => SignalData(!AppendBody(sh, data).paused)
    case SignalData(keep) => if keep then IssueRead else Idle
    case ClaimOutcome(o, after) => if sh.claimed then Resume(after) else EndBody(o, after)
    case EndBody(o, after) => WriteOutcome(o, after)
    case WriteOutcome(_, after) => StoreDone(after)
    case StoreDone(after) => SignalFinished(after)
    case SignalFinished(after) => SignalDone(after)
    case SignalDone(after) => Resume(after)
    case Unregister => ClearRequest
    case ClearRequest => SignalReleased
    case SignalReleased => Gone
    case _ => Idle   // IssueFollow, IssueRead, IssueDestroy: the callback returns.
  }

  function Advance(s: State): State
    requires !s.net.Idle? && !s.net.Gone?
  {
    s.(sh := Effect(s.sh, s.net, s.redirects),
       net := Next(s.sh, s.net),
       received := if s.net.TakeData? then s.received + s.net.data else s.received,
       outcome := if s.net.ClaimOutcome? && !s.sh.claimed then Some(s.net.outcome) else s.outcome,
       registered := s.registered && !s.net.Unregister?)
  }

  function NetworkStep(s: State, a: Action): State
    requires Enabled(s, a) && IsNetwork(a)
  {
    match a
    case RunTask(reportCancel) => RunNext(s, reportCancel)
    case NetAdvance => Advance(s)
    case _ => CallbackStep(s, a)
  }

  /** What a step of the caller's threads does to the shared state. */
  function OwnerEffect(sh: Shared, a: Action): Shared {
    match a
    case DrainStep => sh.(counter := 0)
    case ReadStep(capacity) => ReadBody(sh, capacity).sh
    case ResumeStep => Post(sh, ReadTask)
    case PeerRead(capacity) => ReadBody(sh, capacity).sh
    case PeerResume => Post(sh, ReadTask)
    case PeerDrain => sh.(counter := 0)
    case BeginFree => RequestDestroy(sh, true)
    case Cancel => RequestDestroy(sh, true)
    case _ => sh
  }

  function OwnerNext(sh: Shared, owner: OwnerPc, a: Action): OwnerPc {
    match a
    case BeginHeaders => DrainHeaders
    case BeginBody => DrainBody
    case BeginWait => if sh.phase.Done? then Free else AwaitDone
    case BeginFree => AwaitRelease
    case DrainStep => if owner.DrainHeaders? then LoadState else Reading
    case LoadStep => if sh.phase.Started? then PollHeaders else Free
    case ReadStep(capacity) =>
      var r := ReadBody(sh, capacity);
      if r.count == EOF then Free else if r.count == 0 then PollBody
      else if r.resume then Resuming else Reading
    case ResumeStep => Reading
    case Wake =>
      if owner.PollHeaders? then DrainHeaders else if owner.PollBody? then DrainBody
      else if owner.AwaitDone? then Free else Freed
    case GiveUp => Free
    case _ => owner
  }

  /** A read that finds something to hand out. */
  predicate Takes(s: State, a: Action) {
    IsRead(a) && s.sh.pending != []
  }

  predicate Polling(owner: OwnerPc) {
    owner.PollHeaders? || owner.PollBody?
  }

  function PeersNext(s: State, a: Action): nat
    requires Enabled(s, a)
  {
    if a.PeerRead? && ReadBody(s.sh, a.capacity).resume then s.peers + 1
    else if a.PeerResume? then s.peers - 1 else s.peers
  }

  function OwnerStep(s: State, a: Action): State
    requires Enabled(s, a) && !IsNetwork(a)
  {
    var owner := OwnerNext(s.sh, s.owner, a);
    s.(sh := OwnerEffect(s.sh, a),
       owner := owner,
       peers := PeersNext(s, a),
       robbed := Polling(owner) && (s.robbed || a.PeerDrain?),
       sawEof := s.sawEof || (IsRead(a) && ReadBody(s.sh, a.capacity).count == EOF),
       sawDone := s.sawDone || (a.BeginWait? && s.sh.phase.Done?) || (a.Wake? && s.owner.AwaitDone?),
       delivered := if Takes(s, a) then s.delivered + ReadBody(s.sh, a.capacity).out else s.delivered)
  }

  function Step(s: State, a: Action): State
    requires Enabled(s, a)
  {
    if IsNetwork(a) then NetworkStep(s, a) else OwnerStep(s, a)
  }

  /** A run: every action is enabled where it is taken. */
  predicate Runs(s: State, run: seq<Action>)
    decreases run
  {
    run == [] || (Enabled(s, run[0]) && Runs(Step(s, run[0]), run[1..]))
  }

  function Final(s: State, run: seq<Action>): State
    requires Runs(s, run)
    decreases run
  {
    if run == [] then s else Final(Step(s, run[0]), run[1..])
  }

  /** A state some interleaving of some call reaches. */
  ghost predicate Reachable(s: State) {
    exists url, limit, run :: Runs(Initial(url, limit), run) && Final(Initial(url, limit), run) == s
  }

  // Run without interference, the steps of a callback add up to the methods of
  // native/call.cc as CallState states them.

  lemma ClaimAlone(s: State)
    requires s.net.ClaimOutcome? && !s.sh.claimed
    ensures var t := Advance(Advance(Advance(s)));
            t.sh == PutOutcome(CompleteBody(s.sh.(claimed := true)), s.net.outcome)
            && t.net == StoreDone(s.net.after)
    ensures Enabled(Advance(s), NetAdvance) && Enabled(Advance(Advance(s)), NetAdvance)
  {
    var t := Advance(s);
    assert t.net == EndBody(s.net.outcome, s.net.after);
    assert Advance(t).net == WriteOutcome(s.net.outcome, s.net.after);
  }

  lemma DoneAlone(s: State)
    requires s.net.StoreDone?
    ensures var t := Advance(Advance(Advance(s)));
            t.sh == Signal(s.sh.(phase := Done, finished := true)) && t.net == Resume(s.net.after)
    ensures Enabled(Advance(s), NetAdvance) && Enabled(Advance(Advance(s)), NetAdvance)
  {
    var t := Advance(s);
    assert t.net == SignalFinished(s.net.after);
    assert Advance(t).net == SignalDone(s.net.after);
  }

  function Advances(s: State, n: nat): State
    decreases n
  {
    if n == 0 || s.net.Idle? || s.net.Gone? then s else Advances(Advance(s), n - 1)
  }

  lemma ThreeAdvances(s: State, n: nat)
    requires n >= 3 && Enabled(s, NetAdvance) && Enabled(Advance(s), NetAdvance)
    requires Enabled(Advance(Advance(s)), NetAdvance)
    ensures Advances(s, n) == Advances(Advance(Advance(Advance(s))), n - 3)
  {
    assert Advances(s, n) == Advances(Advance(s), n - 1);
    assert Advances(Advance(s), n - 1) == Advances(Advance(Advance(s)), n - 2);
  }

  /** Six steps are one Finish when the outcome is unclaimed, and one step that
      changes nothing when it is not. */
  lemma FinishAlone(s: State)
    requires s.net.ClaimOutcome?
    ensures var t := Advances(s, if s.sh.claimed then 1 else 6);
            t.sh == Conclude(s.sh, s.net.outcome) && t.net == Resume(s.net.after)
  {
    if s.sh.claimed {
      assert Advances(s, 1) == Advances(Advance(s), 0);
    } else {
      ClaimAlone(s);
      ThreeAdvances(s, 6);
      var t := Advance(Advance(Advance(s)));
      DoneAlone(t);
      ThreeAdvances(t, 3);
    }
  }

  /** OnResponse, from its first write to its signal. */
  lemma ResponseAlone(s: State)
    requires s.net.WriteHead?
    ensures var t := Advances(s, 3);
            t.sh == Respond(s.sh, s.net.head) && t.net == WriteCount(s.net.verdict)
  {
    ThreeAdvances(s, 3);
    assert Advance(s).net == StoreHeaders(s.net.verdict);
    assert Advance(Advance(s)).net == SignalHeaders(s.net.verdict);
  }

  /** OnData; its callback reads on exactly below 256K pending bytes. */
  lemma DataAlone(s: State)
    requires s.net.TakeData?
    ensures var t := Advance(Advance(s));
            && t.sh == Signal(AppendBody(s.sh, s.net.data)) && t.sh.pending == s.sh.pending + s.net.data
            && t.sh.paused == (|t.sh.pending| >= 262144)
            && t.net == if t.sh.paused then Idle else IssueRead
  {
    assert Advance(s).net == SignalData(!AppendBody(s.sh, s.net.data).paused);
  }

  /** Read, with the resume it may owe: exactly when a paused buffer is down to 64K. */
  lemma ReadAlone(s: State, capacity: nat)
    requires Enabled(s, ReadStep(capacity))
    ensures var r := ReadBody(s.sh, capacity);
            var t := Step(s, ReadStep(capacity));
            && (t.owner.Resuming? <==> r.resume)
            && (r.resume <==> s.sh.paused && s.sh.pending != [] && |s.sh.pending| <= capacity + 65536)
            && (if r.resume then Step(t, ResumeStep) else t).sh
               == (if r.resume then Post(r.sh, ReadTask) else r.sh)
  {
    var r := ReadBody(s.sh, capacity);
    assert r.resume ==> r.count > 0;
  }
}
