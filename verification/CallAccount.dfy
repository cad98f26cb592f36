/** What a call publishes, told by what happened to it: an account of a run kept from
    its actions alone, and the proof that the response is that account. */
module CallAccount {
  import opened Prelude
  import opened CallTypes
  import opened CallProtocol
  import opened CallInvariant
  import opened CallTheorems

  /** The URL of the last redirect followed, how many were, the head of the response
      that answered, the body bytes read, the metrics collected before DONE, whether
      the caller or the network side asked for the Destroy, and the first event that
      ended the call, as the outcome it stands for. */
  datatype Account = Account(
    url: string, redirects: nat, head: Option<Head>, body: seq<byte>, metrics: int,
    byCaller: Option<bool>, ending: Option<Outcome>)

  function Opened(url: string): Account {
    Account(url, 0, None, [], 0, None, None)
  }

  /** An ending counts only if it is the first. */
  function Ends(acc: Account, outcome: Outcome): Account {
    if acc.ending.Some? then acc else acc.(ending := Some(outcome))
  }

  function Asks(acc: Account, byCaller: bool): Account {
    if acc.byCaller.Some? then acc else acc.(byCaller := Some(byCaller))
  }

  /** A redirect is followed below the limit; at it, it is the answer, which is what
      was wanted if no redirects were and a failure otherwise. */
  function Redirected(acc: Account, limit: nat, location: string, head: Head): Account {
    if acc.redirects < limit then acc.(url := location, redirects := acc.redirects + 1)
    else Ends(acc.(head := Some(head)),
              if limit == 0 then Outcome(0, "") else Outcome(-31, "redirect limit reached at " + location))
  }

  /** The request is destroyed: -3 is CRONET_ERROR_ABORTED. */
  function Destroyed(acc: Account, reported: bool): Account {
    Ends(acc, Outcome(-3, if acc.byCaller == Some(true) && reported then "the call was cancelled"
                          else "the call ended without a result"))
  }

  function Tell(acc: Account, s: State, a: Action): Account
    requires Enabled(s, a)
  {
    match a
    case ReceivedRedirect(location, head) => Redirected(acc, s.limit, location, head)
    case ResponseStarted(head) => acc.(head := Some(head))
    case ReadCompleted(data) => acc.(body := acc.body + data)
    case Succeeded => Ends(acc, Outcome(0, ""))
    case Failed(outcome) => Ends(acc, outcome)
    case MetricsCollected(metrics) => if s.sh.phase.Done? then acc else acc.(metrics := metrics)
    case RunTask(reported) => if s.sh.queue[0].DestroyTask? then Destroyed(acc, reported) else acc
    case Cancel => Asks(acc, true)
    case BeginFree => Asks(acc, true)
    case NetAdvance => if s.net.IssueDestroy? then Asks(acc, false) else acc
    case _ => acc
  }

  /** The account of a run. */
  function Told(acc: Account, s: State, run: seq<Action>): Account
    requires Runs(s, run)
    decreases run
  {
    if run == [] then acc else Told(Tell(acc, s, run[0]), Step(s, run[0]), run[1..])
  }

  // --- The state agrees with the account --------------------------------------------

  /** The outcome a callback is on its way to claim. */
  function OnItsWay(net: NetPc): Option<Outcome> {
    match net
    case WriteHead(_, LimitReached(o)) => Some(o)
    case StoreHeaders(LimitReached(o)) => Some(o)
    case SignalHeaders(LimitReached(o)) => Some(o)
    case WriteCount(LimitReached(o)) => Some(o)
    case ClaimOutcome(o, _) => Some(o)
    case _ => None
  }

  predicate AgreesOnHead(s: State, acc: Account) {
    && s.redirects == acc.redirects
    && (if s.net.WriteUrl? then acc.url == s.net.location else acc.url == s.sh.response.url)
    && (if s.net.WriteHead? then acc.head == Some(s.net.head)
        else s.sh.response.head == match acc.head case Some(h) => h case None => NO_HEAD)
    && (s.sh.phase.Headers? || s.net.StoreHeaders? ==> acc.head.Some?)
  }

  predicate AgreesOnBody(s: State, acc: Account) {
    && s.sh.response.metrics == acc.metrics
    && acc.body == if s.net.TakeData? then s.received + s.net.data else s.received
  }

  predicate AgreesOnEnding(s: State, acc: Account) {
    && acc.ending == (if s.sh.claimed then s.outcome else OnItsWay(s.net))
    && (s.sh.destroyRequested <==> acc.byCaller.Some?)
    && (s.sh.queue != [] && s.sh.queue[|s.sh.queue| - 1].DestroyTask? ==>
          acc.byCaller == Some(s.sh.queue[|s.sh.queue| - 1].sendOnCanceled))
  }

  predicate Agrees(s: State, acc: Account) {
    AgreesOnHead(s, acc) && AgreesOnBody(s, acc) && AgreesOnEnding(s, acc)
  }

  lemma AdvanceAgreesOnHead(s: State, acc: Account)
    requires Inv(s) && Agrees(s, acc) && Enabled(s, NetAdvance)
    ensures AgreesOnHead(Advance(s), Tell(acc, s, NetAdvance))
  {
  }

  lemma AdvanceAgreesOnBody(s: State, acc: Account)
    requires Inv(s) && Agrees(s, acc) && Enabled(s, NetAdvance)
    ensures AgreesOnBody(Advance(s), Tell(acc, s, NetAdvance))
  {
  }

  lemma PostAgreesOnEnding(s: State, acc: Account)
    requires Inv(s) && Agrees(s, acc) && (s.net.IssueFollow? || s.net.IssueRead?)
    ensures AgreesOnEnding(Advance(s), Tell(acc, s, NetAdvance))
  {
    assert Advance(s) == s.(sh := Post(s.sh, if s.net.IssueRead? then ReadTask else FollowTask), net := Idle);
  }

  lemma KeepsAgreement(s: State, t: State, acc: Account)
    requires AgreesOnEnding(s, acc)
    requires t.sh.claimed == s.sh.claimed && t.sh.destroyRequested == s.sh.destroyRequested
    requires t.sh.queue == s.sh.queue && t.outcome == s.outcome && OnItsWay(t.net) == OnItsWay(s.net)
    ensures AgreesOnEnding(t, acc)
  {
  }

  lemma HeadMoves(s: State)
    requires s.net.WriteHead? || s.net.StoreHeaders?
    ensures var t := Advance(s);
            && t.sh.claimed == s.sh.claimed && t.sh.destroyRequested == s.sh.destroyRequested
            && t.sh.queue == s.sh.queue && t.outcome == s.outcome && OnItsWay(t.net) == OnItsWay(s.net)
  {
  }

  lemma SignalMoves(s: State)
    requires s.net.WriteUrl? || s.net.SignalHeaders? || s.net.WriteCount?
    ensures var t := Advance(s);
            && t.sh.claimed == s.sh.claimed && t.sh.destroyRequested == s.sh.destroyRequested
            && t.sh.queue == s.sh.queue && t.outcome == s.outcome && OnItsWay(t.net) == OnItsWay(s.net)
  {
  }

  lemma HeadersAgreeOnEnding(s: State, acc: Account)
    requires AgreesOnEnding(s, acc)
    requires s.net.WriteUrl? || s.net.WriteHead? || s.net.StoreHeaders? || s.net.SignalHeaders? || s.net.WriteCount?
    ensures AgreesOnEnding(Advance(s), Tell(acc, s, NetAdvance))
  {
    if s.net.WriteHead? || s.net.StoreHeaders? { HeadMoves(s); } else { SignalMoves(s); }
    KeepsAgreement(s, Advance(s), acc);
  }

  lemma DataAgreesOnEnding(s: State, acc: Account)
    requires Inv(s) && Agrees(s, acc) && (s.net.TakeData? || s.net.SignalData?)
    ensures AgreesOnEnding(Advance(s), Tell(acc, s, NetAdvance))
  {
  }

  lemma ClaimAgreesOnEnding(s: State, acc: Account)
    requires Inv(s) && Agrees(s, acc) && s.net.ClaimOutcome?
    ensures AgreesOnEnding(Advance(s), Tell(acc, s, NetAdvance))
  {
  }

  lemma FinishAgreesOnEnding(s: State, acc: Account)
    requires Inv(s) && Agrees(s, acc)
    requires s.net.EndBody? || s.net.WriteOutcome? || s.net.StoreDone? || s.net.SignalFinished? || s.net.SignalDone?
    ensures AgreesOnEnding(Advance(s), Tell(acc, s, NetAdvance))
  {
  }

  lemma DestroyAgreesOnEnding(s: State, acc: Account)
    requires Inv(s) && Agrees(s, acc)
    requires s.net.IssueDestroy? || s.net.Unregister? || s.net.ClearRequest? || s.net.SignalReleased?
    ensures AgreesOnEnding(Advance(s), Tell(acc, s, NetAdvance))
  {
  }

  lemma AdvanceAgrees(s: State, acc: Account)
    requires Inv(s) && Agrees(s, acc) && Enabled(s, NetAdvance)
    ensures Agrees(Advance(s), Tell(acc, s, NetAdvance))
  {
    AdvanceAgreesOnHead(s, acc);
    AdvanceAgreesOnBody(s, acc);
    if s.net.ClaimOutcome? {
      ClaimAgreesOnEnding(s, acc);
    } else if s.net.IssueFollow? || s.net.IssueRead? {
      PostAgreesOnEnding(s, acc);
    } else if s.net.TakeData? || s.net.SignalData? {
      DataAgreesOnEnding(s, acc);
    } else if HeaderWork(s.net) || BodyWork(s.net) {
      HeadersAgreeOnEnding(s, acc);
    } else if s.net.IssueDestroy? || s.net.Unregister? || s.net.ClearRequest? || s.net.SignalReleased? {
      DestroyAgreesOnEnding(s, acc);
    } else {
      FinishAgreesOnEnding(s, acc);
    }
  }

  lemma RunAgrees(s: State, acc: Account, reported: bool)
    requires Inv(s) && Agrees(s, acc) && Enabled(s, RunTask(reported))
    ensures Agrees(RunNext(s, reported), Tell(acc, s, RunTask(reported)))
  {
  }

  lemma RedirectAgrees(s: State, acc: Account, a: Action)
    requires Inv(s) && Agrees(s, acc) && Enabled(s, a) && a.ReceivedRedirect?
    ensures Agrees(CallbackStep(s, a), Tell(acc, s, a))
  {
  }

  lemma ResponseAgrees(s: State, acc: Account, a: Action)
    requires Inv(s) && Agrees(s, acc) && Enabled(s, a) && (a.ResponseStarted? || a.ReadCompleted?)
    ensures Agrees(CallbackStep(s, a), Tell(acc, s, a))
  {
  }

  lemma EndAgrees(s: State, acc: Account, a: Action)
    requires Inv(s) && Agrees(s, acc) && Enabled(s, a) && (a.Succeeded? || a.Failed?)
    ensures Agrees(CallbackStep(s, a), Tell(acc, s, a))
  {
    var o := if a.Failed? then a.outcome else Outcome(0, "");
    var t := CallbackStep(s, a);
    assert t.net == ClaimOutcome(o, ThenDestroy) && t.sh == s.sh;
    assert OnItsWay(s.net) == None;
  }

  lemma MetricsAgree(s: State, acc: Account, a: Action)
    requires Inv(s) && Agrees(s, acc) && Enabled(s, a) && a.MetricsCollected?
    ensures Agrees(CallbackStep(s, a), Tell(acc, s, a))
  {
  }

  lemma CallbackAgrees(s: State, acc: Account, a: Action)
    requires Inv(s) && Agrees(s, acc) && Enabled(s, a) && IsNetwork(a) && !a.NetAdvance? && !a.RunTask?
    ensures Agrees(CallbackStep(s, a), Tell(acc, s, a))
  {
    if a.ReceivedRedirect? { RedirectAgrees(s, acc, a); }
    else if a.ResponseStarted? || a.ReadCompleted? { ResponseAgrees(s, acc, a); }
    else if a.MetricsCollected? { MetricsAgree(s, acc, a); }
    else { EndAgrees(s, acc, a); }
  }

  lemma RequestAgrees(s: State, acc: Account, a: Action)
    requires Inv(s) && Agrees(s, acc) && Enabled(s, a) && (a.Cancel? || a.BeginFree?)
    ensures Agrees(Step(s, a), Tell(acc, s, a))
  {
    if !MayPost(s.sh) {
      UnpostableIsDestroyed(s);
    }
    RequestMoves(s, a);
  }

  lemma ReaderAgrees(s: State, acc: Account, a: Action)
    requires Inv(s) && Agrees(s, acc) && Enabled(s, a) && !IsNetwork(a) && !a.Cancel? && !a.BeginFree?
    ensures Agrees(Step(s, a), Tell(acc, s, a))
  {
    OwnerLeaves(s, a);
    ReaderPosts(s, a);
  }

  lemma TakePosts(s: State, a: Action)
    requires Enabled(s, a) && Takes(s, a)
    ensures Step(s, a).sh.destroyRequested == s.sh.destroyRequested && Step(s, a).sh.queue == s.sh.queue
  {
    assert Step(s, a).sh == ReadBody(s.sh, a.capacity).sh;
  }

  lemma ResumePosts(s: State, a: Action)
    requires Enabled(s, a) && (a.ResumeStep? || a.PeerResume?)
    ensures Step(s, a).sh == Post(s.sh, ReadTask)
  {
  }

  lemma ReaderPosts(s: State, a: Action)
    requires Enabled(s, a) && !IsNetwork(a) && !a.Cancel? && !a.BeginFree?
    ensures var t := Step(s, a);
            && t.sh.destroyRequested == s.sh.destroyRequested
            && (t.sh.queue == s.sh.queue || (MayPost(s.sh) && t.sh.queue == s.sh.queue + [ReadTask]))
  {
    if Moves(s, a) { MoveMoves(s, a); }
    else if Takes(s, a) { TakePosts(s, a); }
    else { ResumePosts(s, a); }
  }

  lemma StepAgrees(s: State, acc: Account, a: Action)
    requires Inv(s) && Agrees(s, acc) && Enabled(s, a)
    ensures Agrees(Step(s, a), Tell(acc, s, a))
  {
    if a.NetAdvance? {
      AdvanceAgrees(s, acc);
    } else if a.RunTask? {
      RunAgrees(s, acc, a.reportCancel);
    } else if IsNetwork(a) {
      CallbackAgrees(s, acc, a);
    } else if a.Cancel? || a.BeginFree? {
      RequestAgrees(s, acc, a);
    } else {
      ReaderAgrees(s, acc, a);
    }
  }

  lemma {:induction false} RunsAgree(s: State, acc: Account, run: seq<Action>)
    requires Inv(s) && Agrees(s, acc) && Runs(s, run)
    ensures Inv(Final(s, run)) && Agrees(Final(s, run), Told(acc, s, run))
    decreases run
  {
    if run != [] {
      StepAgrees(s, acc, run[0]);
      StepKeepsInv(s, run[0]);
      RunsAgree(Step(s, run[0]), Tell(acc, s, run[0]), run[1..]);
    }
  }

  // --- What is published ------------------------------------------------------------

  /** From HEADERS on a caller reads the head of the response that answered, and the
      URL of the last redirect followed or the one asked for. */
  lemma HeadersTellTheResponse(url: string, limit: nat, run: seq<Action>)
    requires Runs(Initial(url, limit), run) && !Final(Initial(url, limit), run).sh.phase.Started?
    ensures var t, acc := Final(Initial(url, limit), run), Told(Opened(url), Initial(url, limit), run);
            && t.sh.response.url == acc.url
            && (acc.head.Some? ==> t.sh.response.head == acc.head.value)
            && (acc.head.None? ==> t.sh.phase.Done? && t.sh.response.head == Head(0, "", false, "", "", []))
  {
    InitialInv(url, limit);
    RunsAgree(Initial(url, limit), Opened(url), run);
  }

  /** At DONE the error is that of the first event to end the call: success, the error
      the network reported, the redirect limit, or the Destroy, which is a
      cancellation if the caller asked for it and the request reports it. */
  lemma DoneTellsTheEnding(url: string, limit: nat, run: seq<Action>)
    requires Runs(Initial(url, limit), run) && Final(Initial(url, limit), run).sh.phase.Done?
    ensures var t, acc := Final(Initial(url, limit), run), Told(Opened(url), Initial(url, limit), run);
            acc.ending == Some(t.sh.response.error) && t.sh.response.metrics == acc.metrics
  {
    InitialInv(url, limit);
    RunsAgree(Initial(url, limit), Opened(url), run);
  }

  /** And at EOF readers were handed exactly the bytes the network delivered, in order;
      the redirects counted are those that were followed. */
  lemma ReadersGetTheBody(url: string, limit: nat, run: seq<Action>)
    requires Runs(Initial(url, limit), run)
    ensures var t, acc := Final(Initial(url, limit), run), Told(Opened(url), Initial(url, limit), run);
            && t.delivered <= acc.body && (t.sawEof ==> t.delivered == acc.body)
            && t.redirects == acc.redirects <= limit
  {
    InitialInv(url, limit);
    RunsAgree(Initial(url, limit), Opened(url), run);
    DeliveredIsReceived(Final(Initial(url, limit), run));
    LimitStays(Initial(url, limit), run);
  }

  lemma DeliveredIsReceived(s: State)
    requires Inv(s)
    ensures s.delivered <= s.received && (s.sawEof ==> s.delivered == s.received && !s.net.TakeData?)
  {
    assert s.delivered + s.sh.pending == s.received;
  }

  lemma {:induction false} LimitStays(s: State, run: seq<Action>)
    requires Runs(s, run)
    ensures Final(s, run).limit == s.limit
    decreases run
  {
    if run != [] {
      if IsNetwork(run[0]) {
        NetworkLeaves(s, run[0]);
      } else {
        OwnerLeaves(s, run[0]);
      }
      LimitStays(Step(s, run[0]), run[1..]);
    }
  }
}
