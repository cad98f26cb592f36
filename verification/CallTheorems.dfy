/** What every interleaving of one call guarantees. */
module CallTheorems {
  import opened Prelude
  import opened CallTypes
  import opened CallProtocol
  import opened CallInvariant

  // --- Flow control ---------------------------------------------------------

  /** How many parties hold the one read buffer: a posted read, a read in flight,
      a completed read whose bytes have not been copied yet. */
  function BufferUsers(s: State): nat {
    (if Queued(s) && s.sh.queue[0].ReadTask? then 1 else 0)
    + (if |s.sh.queue| > 1 && s.sh.queue[1].ReadTask? then 1 else 0)
    + (if s.flight.ReadFlight? then 1 else 0)
    + (if s.net.TakeData? then 1 else 0)
  }

  /** The flow-control token is never duplicated, and between the headers and the
      outcome it is never lost while teardown has not been asked for. */
  lemma SingleReadToken(s: State)
    requires Reachable(s)
    ensures Tokens(s) <= 1 && BufferUsers(s) <= 1
    ensures s.sh.phase.Headers? && !s.sh.claimed && !s.sh.destroyRequested ==> Tokens(s) == 1
  {
    ReachableInv(s);
  }

  /** The buffer stays bounded in every interleaving, with no assumption on how
      the reader and the network alternate. */
  lemma BufferIsBounded(s: State)
    requires Reachable(s)
    ensures |s.sh.pending| < 262144 + 65536
    ensures s.net.TakeData? ==> |s.sh.pending| < 262144 && |s.net.data| <= 65536
    ensures s.sh.paused ==> |s.sh.pending| > 65536
  {
    ReachableInv(s);
  }

  /** Nothing is lost, duplicated or reordered between the network and the reader. */
  lemma BodyIsConserved(s: State)
    requires Reachable(s)
    ensures s.delivered + s.sh.pending == s.received
    ensures s.sawEof ==> s.delivered == s.received && s.outcome.Some?
  {
    ReachableInv(s);
  }

  // --- Posting --------------------------------------------------------------

  /** Nothing is posted behind a Destroy, and nothing is left to run on a request
      that has been destroyed. */
  lemma NothingBehindDestroy(s: State)
    requires Reachable(s)
    ensures forall i | 0 <= i < |s.sh.queue| && s.sh.queue[i].DestroyTask? :: i == |s.sh.queue| - 1
    ensures !s.alive ==> s.sh.queue == [] && s.flight.Nothing?
    ensures s.sh.released ==> !s.registered && !s.alive && s.sh.phase.Done?
  {
    ReachableInv(s);
  }

  predicate RunsDestroy(s: State, a: Action)
    requires Enabled(s, a)
  {
    a.RunTask? && s.sh.queue[0].DestroyTask?
  }

  predicate Releases(s: State, a: Action)
    requires Enabled(s, a)
  {
    a.NetAdvance? && s.net.SignalReleased?
  }

  function DestroysRun(s: State, run: seq<Action>): nat
    requires Runs(s, run)
    decreases run
  {
    if run == [] then 0
    else (if RunsDestroy(s, run[0]) then 1 else 0) + DestroysRun(Step(s, run[0]), run[1..])
  }

  function ReleasesRun(s: State, run: seq<Action>): nat
    requires Runs(s, run)
    decreases run
  {
    if run == [] then 0
    else (if Releases(s, run[0]) then 1 else 0) + ReleasesRun(Step(s, run[0]), run[1..])
  }

  /** What only the network thread writes. */
  lemma OwnerLeaves(s: State, a: Action)
    requires Enabled(s, a) && !IsNetwork(a)
    ensures var t := Step(s, a);
            && t.net == s.net && t.flight == s.flight && t.alive == s.alive
            && t.redirects == s.redirects && t.limit == s.limit && t.metricsDone == s.metricsDone
            && t.received == s.received && t.outcome == s.outcome && t.registered == s.registered
            && t.sh.phase == s.sh.phase && t.sh.response == s.sh.response && t.sh.claimed == s.sh.claimed
            && t.sh.complete == s.sh.complete && t.sh.released == s.sh.released
  {
  }

  /** What only the owner writes, but for the descriptor and the buffer. */
  lemma NetworkLeaves(s: State, a: Action)
    requires Enabled(s, a) && IsNetwork(a)
    ensures var t := Step(s, a);
            t.owner == s.owner && t.peers == s.peers && t.robbed == s.robbed
            && t.sawEof == s.sawEof && t.sawDone == s.sawDone && t.delivered == s.delivered && t.limit == s.limit
  {
    if a.RunTask? {
      assert RunNext(s, a.reportCancel).delivered == s.delivered;
    } else if !a.NetAdvance? {
      assert CallbackStep(s, a).delivered == s.delivered;
    }
  }

  lemma DestroyStep(s: State, a: Action)
    requires Inv(s) && Enabled(s, a)
    ensures Bit(Step(s, a).alive) + Bit(RunsDestroy(s, a)) == Bit(s.alive)
    ensures Bit(!Step(s, a).sh.released) + Bit(Releases(s, a)) == Bit(!s.sh.released)
  {
    if !IsNetwork(a) {
      OwnerLeaves(s, a);
    } else {
      NetworkKeepsInv(s, a);
    }
  }

  /** In any run the request is destroyed at most once and released at most once;
      whether either has happened is what the state says. */
  lemma {:induction false} DestroyedOnce(s: State, run: seq<Action>)
    requires Inv(s) && Runs(s, run)
    ensures Bit(Final(s, run).alive) + DestroysRun(s, run) == Bit(s.alive)
    ensures Bit(!Final(s, run).sh.released) + ReleasesRun(s, run) == Bit(!s.sh.released)
    decreases run
  {
    if run != [] {
      DestroyStep(s, run[0]);
      StepKeepsInv(s, run[0]);
      DestroyedOnce(Step(s, run[0]), run[1..]);
    }
  }

  // --- Publication ----------------------------------------------------------

  function Rank3(p: Phase): nat {
    match p case Started => 0 case Headers => 1 case Done => 2
  }

  /** What may still differ between a state and any later one. */
  ghost predicate Publishes(s: State, t: State) {
    && Rank3(s.sh.phase) <= Rank3(t.sh.phase)
    && (!s.sh.phase.Started? ==>
          t.sh.response.head == s.sh.response.head && t.sh.response.url == s.sh.response.url)
    && (s.sh.claimed ==>
          && t.sh.claimed
          && t.outcome == s.outcome
          && t.received == s.received
          && t.sh.response == s.sh.response.(error := t.sh.response.error))
    && (s.sh.phase.Done? ==> t.sh.response == s.sh.response)
    && (s.sawEof ==> t.sawEof && t.delivered == s.delivered)
  }

  lemma ResponseWrites(s: State)
    requires Inv(s) && Enabled(s, NetAdvance)
    ensures Publishes(s, Advance(s))
  {
  }

  lemma CallbackWrites(s: State, a: Action)
    requires Inv(s) && Enabled(s, a) && IsNetwork(a) && !a.NetAdvance?
    ensures Publishes(s, Step(s, a))
  {
  }

  lemma OwnerWrites(s: State, a: Action)
    requires Inv(s) && Enabled(s, a) && !IsNetwork(a)
    ensures Publishes(s, Step(s, a))
  {
    OwnerLeaves(s, a);
    if a.ReadStep? && s.sawEof {
      assert s.delivered + [] == s.delivered;
    }
  }

  lemma PublishesStep(s: State, a: Action)
    requires Inv(s) && Enabled(s, a)
    ensures Publishes(s, Step(s, a))
  {
    if a.NetAdvance? { ResponseWrites(s); }
    else if IsNetwork(a) { CallbackWrites(s, a); }
    else { OwnerWrites(s, a); }
  }

  lemma PublishesTransitive(s: State, t: State, u: State)
    requires Publishes(s, t) && Publishes(t, u)
    ensures Publishes(s, u)
  {
  }

  /** The state only moves forward; the status, headers and URL are final from
      HEADERS on, everything from DONE on; the first outcome claimed is the
      outcome, and no byte is taken in after it. */
  lemma {:induction false} PublishedIsFinal(s: State, run: seq<Action>)
    requires Inv(s) && Runs(s, run)
    ensures Publishes(s, Final(s, run)) && Inv(Final(s, run))
    decreases run
  {
    if run != [] {
      var t := Step(s, run[0]);
      PublishesStep(s, run[0]);
      StepKeepsInv(s, run[0]);
      PublishedIsFinal(t, run[1..]);
      PublishesTransitive(s, t, Final(s, run));
    }
  }

  /** Whoever sees DONE reads the outcome that was claimed first, then and ever after. */
  lemma DoneReadsFirstOutcome(s: State, run: seq<Action>)
    requires Reachable(s) && s.sh.phase.Done? && Runs(s, run)
    ensures s.outcome == Some(s.sh.response.error)
    ensures Final(s, run).sh.response == s.sh.response && Final(s, run).outcome == s.outcome
  {
    ReachableInv(s);
    PublishedIsFinal(s, run);
  }

  // --- The end of the body and the end of the call -------------------------

  /** At the end of the body the error is readable exactly when the call is DONE,
      Finish stands right before storing DONE, or there is no error to read.
      Only the first is something the owner can test. */
  lemma ErrorAtEof(s: State)
    requires Reachable(s) && s.sawEof
    ensures s.outcome.Some?
    ensures s.sh.response.error == s.outcome.value
            <==> s.sh.phase.Done? || s.net.StoreDone? || s.outcome.value == NO_ERROR
    ensures s.sh.response.error != s.outcome.value ==> s.sh.response.error == NO_ERROR
  {
    ReachableInv(s);
  }

  /** What the second look at the result may rely on once the body has ended:
      everything but the error. */
  lemma EofFixesAllButTheError(s: State, run: seq<Action>)
    requires Reachable(s) && s.sawEof && Runs(s, run)
    ensures var t := Final(s, run);
            && t.sh.response == s.sh.response.(error := t.sh.response.error)
            && t.outcome == s.outcome
            && s.delivered == s.received == t.received == t.delivered
  {
    ReachableInv(s);
    PublishedIsFinal(s, run);
  }

  /** Waiting for DONE after the end of the body closes the gap: the error then
      read is the claimed one, whatever happened in between. */
  lemma WaitAfterEofReadsTheError(s: State, run: seq<Action>)
    requires Reachable(s) && s.sawEof && Runs(s, run) && Final(s, run).sawDone
    ensures Some(Final(s, run).sh.response.error) == s.outcome
  {
    EofFixesAllButTheError(s, run);
    ReachableInv(s);
    PublishedIsFinal(s, run);
  }

  // --- The loops of a reader --------------------------------------------------------

  /** A wait for headers ends only when there are headers or the call is over, and a
      read loop only at the end of the body; until then they poll and drain again. */
  lemma LoopsEndRightly(s: State, a: Action)
    requires Reachable(s) && Enabled(s, a)
    ensures a.LoadStep? ==> Step(s, a).owner == if s.sh.phase.Started? then PollHeaders else Free
    ensures a.ReadStep? ==>
              (Step(s, a).owner.Free? <==> s.delivered == s.received && s.sh.complete)
              && (Step(s, a).owner.PollBody? <==> s.delivered == s.received && !s.sh.complete)
    ensures a.Wake? && Polling(s.owner) ==> Step(s, a).owner == if s.owner.PollHeaders? then DrainHeaders else DrainBody
  {
    ReachableInv(s);
    NothingPending(s);
  }

  /** A drain comes before each look at what is shared; running out of time ends
      either loop and changes nothing; a free ends only behind the release. */
  lemma OwnerGoesOn(s: State, a: Action)
    requires Enabled(s, a)
    ensures a.DrainStep? ==>
              Step(s, a).sh.counter == 0 && Step(s, a).owner == if s.owner.DrainHeaders? then LoadState else Reading
    ensures a.GiveUp? ==> Step(s, a).owner.Free? && Step(s, a).sh == s.sh
    ensures a.Wake? && s.owner.AwaitRelease? ==> Step(s, a).owner.Freed? && s.sh.released
  {
  }

  lemma NothingPending(s: State)
    requires Inv(s)
    ensures s.sh.pending == [] <==> s.delivered == s.received
  {
    assert s.delivered + s.sh.pending == s.received;
    assert |s.received| == |s.delivered| + |s.sh.pending|;
  }

  /** A wait for the call to finish that is not given up ends at DONE, and the error
      then read is the claimed one. */
  lemma WaitEndsAtDone(s: State, a: Action)
    requires Reachable(s) && Enabled(s, a)
    requires (a.BeginWait? && Step(s, a).owner.Free?) || (a.Wake? && s.owner.AwaitDone?)
    ensures Step(s, a).sawDone && s.sh.phase.Done? && Some(Step(s, a).sh.response.error) == s.outcome
  {
    ReachableInv(s);
    OwnerLeaves(s, a);
  }

  // --- Runs that show what is not promised ---------------------------------

  lemma {:induction false} RunsAppend(s: State, first: seq<Action>, second: seq<Action>)
    requires Runs(s, first) && Runs(Final(s, first), second)
    ensures Runs(s, first + second) && Final(s, first + second) == Final(Final(s, first), second)
    decreases first
  {
    if first == [] {
      assert first + second == second;
    } else {
      assert (first + second)[1..] == first[1..] + second;
      RunsAppend(Step(s, first[0]), first[1..], second);
    }
  }

  lemma ReachableStep(s: State, a: Action)
    requires Reachable(s) && Enabled(s, a)
    ensures Reachable(Step(s, a))
  {
    var url, limit, run :| Runs(Initial(url, limit), run) && Final(Initial(url, limit), run) == s;
    assert Runs(Step(s, a), [a][1..]);
    assert Runs(s, [a]) && Final(s, [a]) == Step(s, a);
    RunsAppend(Initial(url, limit), run, [a]);
    assert Runs(Initial(url, limit), run + [a]);
  }

  lemma ReachableInitial(url: string, limit: nat)
    ensures Reachable(Initial(url, limit))
  {
    assert Runs(Initial(url, limit), []) && Final(Initial(url, limit), []) == Initial(url, limit);
  }

  lemma AdvancesReachable(s: State, n: nat)
    requires Reachable(s)
    ensures Reachable(Advances(s, n))
    decreases n
  {
    if n > 0 && !s.net.Idle? && !s.net.Gone? {
      ReachableStep(s, NetAdvance);
      AdvancesReachable(Advance(s), n - 1);
    }
  }

  const SOME_HEAD := Head(200, "OK", false, "h2", ":0", [("content-type", "text/plain")])
  const RESET := Outcome(-101, "net::ERR_CONNECTION_RESET")

  /** The task at the head of the queue starts work on the network. */
  lemma WorkStarts(s: State) returns (t: State)
    requires Reachable(s) && s.net.Idle? && s.sh.queue != [] && !s.sh.queue[0].DestroyTask?
    ensures Reachable(t)
    ensures t == s.(sh := s.sh.(queue := s.sh.queue[1..]),
                    flight := if s.sh.queue[0].ReadTask? then ReadFlight else HeaderFlight)
  {
    ReachableStep(s, RunTask(false));
    t := Step(s, RunTask(false));
  }

  lemma TwoAdvances(s: State)
    requires Reachable(s) && Enabled(s, NetAdvance) && Enabled(Advance(s), NetAdvance)
    ensures Reachable(Advance(Advance(s)))
  {
    ReachableStep(s, NetAdvance);
    ReachableStep(Advance(s), NetAdvance);
  }

  lemma StoredHeaders(s: State)
    requires s.net == WriteHead(SOME_HEAD, Proceed)
    ensures Enabled(Advance(s), NetAdvance)
    ensures Advance(Advance(s))
            == s.(sh := PutHead(s.sh, SOME_HEAD).(phase := Headers), net := SignalHeaders(Proceed))
  {
  }

  lemma CountedRedirects(s: State)
    requires s.net == SignalHeaders(Proceed)
    ensures Enabled(Advance(s), NetAdvance)
    ensures Advance(Advance(s)) == s.(sh := PutCount(Signal(s.sh), s.redirects), net := IssueRead)
  {
  }

  lemma CompletedBody(s: State)
    requires s.net == ClaimOutcome(RESET, ThenDestroy) && !s.sh.claimed
    ensures Enabled(Advance(s), NetAdvance)
    ensures Advance(Advance(s))
            == s.(sh := CompleteBody(s.sh.(claimed := true)), outcome := Some(RESET),
                  net := WriteOutcome(RESET, ThenDestroy))
  {
  }

  lemma RedirectBegins(s: State, location: string)
    requires s.redirects < s.limit
    ensures CallbackStep(s, ReceivedRedirect(location, SOME_HEAD))
            == s.(flight := Nothing, redirects := s.redirects + 1, net := WriteUrl(location))
  {
  }

  lemma PostedFollow(s: State)
    requires s.net.WriteUrl?
    ensures Enabled(Advance(s), NetAdvance)
    ensures Advance(Advance(s)) == s.(sh := Post(PutUrl(s.sh, s.net.location), FollowTask), net := Idle)
  {
  }

  /** A callback other than metrics begins. */
  lemma CallbackBegins(s: State, a: Action) returns (t: State)
    requires Reachable(s) && Enabled(s, a) && (a.ResponseStarted? || a.Failed? || a.ReceivedRedirect?)
    ensures Reachable(t) && t == CallbackStep(s, a)
  {
    ReachableStep(s, a);
    t := CallbackStep(s, a);
  }

  /** The response headers arrive and are stored, not yet signalled. */
  lemma HeadersArrive(s: State) returns (t: State)
    requires Reachable(s) && s.net.Idle? && s.flight.HeaderFlight?
    ensures Reachable(t)
    ensures t == s.(sh := PutHead(s.sh, SOME_HEAD).(phase := Headers), flight := Nothing,
                    net := SignalHeaders(Proceed))
  {
    var s1 := CallbackBegins(s, ResponseStarted(SOME_HEAD));
    StoredHeaders(s1);
    TwoAdvances(s1);
    t := Advance(Advance(s1));
  }

  /** The signal, the redirect count and the first read follow. */
  lemma ReadIsIssued(s: State) returns (t: State)
    requires Reachable(s) && s.net == SignalHeaders(Proceed) && MayPost(s.sh)
    ensures Reachable(t)
    ensures t == s.(sh := Post(PutCount(Signal(s.sh), s.redirects), ReadTask), net := Idle)
  {
    CountedRedirects(s);
    TwoAdvances(s);
    IssuedRead(Advance(Advance(s)));
    ReachableStep(Advance(Advance(s)), NetAdvance);
    t := Advance(Advance(Advance(s)));
  }

  lemma IssuedRead(s: State)
    requires s.net.IssueRead? && MayPost(s.sh)
    ensures Enabled(s, NetAdvance) && Advance(s) == s.(sh := Post(s.sh, ReadTask), net := Idle)
  {
  }

  /** The read in flight fails; the outcome is claimed and the body is complete,
      and nothing more has happened. */
  lemma ReadFails(s: State) returns (t: State)
    requires Reachable(s) && s.net.Idle? && s.flight.ReadFlight? && !s.sh.claimed
    ensures Reachable(t)
    ensures t == s.(sh := CompleteBody(s.sh.(claimed := true)), flight := Nothing, outcome := Some(RESET),
                    net := WriteOutcome(RESET, ThenDestroy))
  {
    var s1 := CallbackBegins(s, Failed(RESET));
    CompletedBody(s1);
    TwoAdvances(s1);
    t := Advance(Advance(s1));
  }

  /** The owner drains the descriptor and reads an exhausted body. */
  lemma ReaderSeesEof(s: State) returns (t: State)
    requires Reachable(s) && s.owner.Free? && s.sh.pending == [] && s.sh.complete
    ensures Reachable(t) && t.sawEof && t.outcome == s.outcome
    ensures t.sh == s.sh.(counter := 0)
  {
    ReachableStep(s, BeginBody);
    var s1 := Step(s, BeginBody);
    ReachableStep(s1, DrainStep);
    var s2 := Step(s1, DrainStep);
    ReachableStep(s2, ReadStep(1));
    t := Step(s2, ReadStep(1));
  }

  /** EOF does not imply DONE: the first read fails, and the reader gets in after
      the body was marked complete and before the error was written. */
  lemma EofOvertakesTheError()
    ensures exists s :: Reachable(s) && s.sawEof && s.sh.phase.Headers?
                        && s.sh.response.error == NO_ERROR && s.outcome == Some(RESET)
  {
    ReachableInitial("https://a/", 20);
    var started := WorkStarts(Initial("https://a/", 20));
    var published := HeadersArrive(started);
    var issued := ReadIsIssued(published);
    var reading := WorkStarts(issued);
    var failed := ReadFails(reading);
    var seen := ReaderSeesEof(failed);
    assert Reachable(seen) && seen.sh.phase.Headers?;
  }

  /** A redirect is taken, up to the Follow being posted. */
  lemma RedirectIsTaken(s: State) returns (t: State)
    requires Reachable(s) && s.net.Idle? && s.flight.HeaderFlight? && s.redirects < s.limit
    ensures Reachable(t)
    ensures t == s.(sh := Post(PutUrl(s.sh, "https://b/"), FollowTask), redirects := s.redirects + 1,
                    flight := Nothing)
  {
    var s1 := CallbackBegins(s, ReceivedRedirect("https://b/", SOME_HEAD));
    RedirectBegins(s, "https://b/");
    PostedFollow(s1);
    TwoAdvances(s1);
    t := Advance(Advance(s1));
  }

  /** The redirect count is written after HEADERS is stored: some run goes on from
      a reader having seen HEADERS to the count changing from zero to one. */
  lemma RedirectCountLagsHeaders()
    ensures exists s :: Reachable(s) && s.sh.phase.Headers? && s.sh.response.redirectCount == 0
                        && Enabled(s, NetAdvance)
                        && Step(s, NetAdvance).sh.response.redirectCount == 1
  {
    ReachableInitial("https://a/", 20);
    var started := WorkStarts(Initial("https://a/", 20));
    var taken := RedirectIsTaken(started);
    var followed := WorkStarts(taken);
    var published := HeadersArrive(followed);
    CountChanges(published);
  }

  lemma CountChanges(s: State)
    requires Reachable(s) && s.net == SignalHeaders(Proceed) && s.sh.phase.Headers?
    requires s.sh.response.redirectCount == 0 && s.redirects == 1
    ensures exists t :: Reachable(t) && t.sh.phase.Headers? && t.sh.response.redirectCount == 0
                        && Enabled(t, NetAdvance)
                        && Step(t, NetAdvance).sh.response.redirectCount == 1
  {
    ReachableStep(s, NetAdvance);
    var t := Advance(s);
    CountFollowsSignal(s);
    assert Reachable(t);
  }

  lemma CountFollowsSignal(s: State)
    requires s.net == SignalHeaders(Proceed)
    ensures var t := Advance(s);
            Enabled(t, NetAdvance) && t.sh.phase == s.sh.phase
            && t.sh.response == s.sh.response && Advance(t).sh.response.redirectCount == s.redirects
  {
  }
}
