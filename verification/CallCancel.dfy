/** What a call that was asked to stop ends as. */
module CallCancel {
  import opened Prelude
  import opened CallTypes
  import opened CallProtocol
  import opened CallInvariant
  import opened CallTheorems

  /** The outcome the call has when its Destroy runs, or at the end of a run that
      does not get there. */
  function OutcomeBeforeDestroy(s: State, run: seq<Action>): Option<Outcome>
    requires Runs(s, run)
    decreases run
  {
    if run == [] || RunsDestroy(s, run[0]) then s.outcome else OutcomeBeforeDestroy(Step(s, run[0]), run[1..])
  }

  /** The outcomes only the teardown reports; both are ABORTED. */
  predicate OfTeardown(o: Outcome) {
    o == CANCELLED || o == UNFINISHED
  }

  /** Destroyed with no outcome before. */
  predicate TornDown(s: State) {
    && !s.alive
    && (s.net.ClaimOutcome? ==> OfTeardown(s.net.outcome))
    && (s.outcome.Some? ==> OfTeardown(s.outcome.value))
  }

  lemma DestroyTearsDown(s: State, a: Action)
    requires Inv(s) && Enabled(s, a) && RunsDestroy(s, a) && s.outcome.None?
    ensures TornDown(Step(s, a))
  {
    assert Step(s, a) == RunNext(s, a.reportCancel);
  }

  lemma StepKeepsTornDown(s: State, a: Action)
    requires Inv(s) && TornDown(s) && Enabled(s, a)
    ensures TornDown(Step(s, a))
  {
    if a.NetAdvance? {
      assert Step(s, a) == Advance(s);
    } else if IsNetwork(a) {
      assert a.MetricsCollected? && Step(s, a) == CallbackStep(s, a);
    } else {
      OwnerLeaves(s, a);
    }
  }

  lemma {:induction false} TornDownStays(s: State, run: seq<Action>)
    requires Inv(s) && TornDown(s) && Runs(s, run)
    ensures TornDown(Final(s, run))
    decreases run
  {
    if run != [] {
      StepKeepsTornDown(s, run[0]);
      StepKeepsInv(s, run[0]);
      TornDownStays(Step(s, run[0]), run[1..]);
    }
  }

  lemma {:induction false} OutcomeByDestroy(s: State, run: seq<Action>)
    requires Inv(s) && Runs(s, run)
    ensures var before, t := OutcomeBeforeDestroy(s, run), Final(s, run);
            if before.Some? then t.outcome == before else t.outcome.Some? ==> OfTeardown(t.outcome.value)
    decreases run
  {
    if run != [] {
      var t := Step(s, run[0]);
      StepKeepsInv(s, run[0]);
      if !RunsDestroy(s, run[0]) {
        OutcomeByDestroy(t, run[1..]);
      } else if s.outcome.None? {
        DestroyTearsDown(s, run[0]);
        TornDownStays(t, run[1..]);
      } else {
        PublishedIsFinal(s, run);
      }
    }
  }

  /** A call that was asked to stop ends as ABORTED exactly when nothing claimed an
      outcome before the request was destroyed, or what did was ABORTED itself; and
      what did is what it ends as. */
  lemma CancelledCallEnds(s: State, run: seq<Action>)
    requires Reachable(s) && s.sh.destroyRequested && Runs(s, run) && Final(s, run).sh.phase.Done?
    requires s.alive
    ensures var before, error := OutcomeBeforeDestroy(s, run), Final(s, run).sh.response.error;
            && (error.code == -3 <==> before.None? || before.value.code == -3)
            && (if before.Some? then error == before.value else OfTeardown(error))
  {
    ReachableInv(s);
    OutcomeByDestroy(s, run);
    PublishedIsFinal(s, run);
  }

  // --- A cancel that comes in time and is overtaken ---------------------------------

  lemma CancelAsks(s: State)
    requires Enabled(s, Cancel) && MayPost(s.sh)
    ensures var t := Step(s, Cancel);
            && t.sh.destroyRequested && t.net == s.net && t.flight == s.flight
            && t.outcome == s.outcome && t.sh.claimed == s.sh.claimed
  {
  }

  lemma SuccessClaims(s: State)
    requires s.net.Idle? && s.flight.ReadFlight? && !s.sh.claimed
    ensures Enabled(s, Succeeded)
    ensures var t := Step(s, Succeeded);
            Enabled(t, NetAdvance) && Step(t, NetAdvance).outcome == Some(NO_ERROR)
            && Step(t, NetAdvance).sh.destroyRequested == s.sh.destroyRequested
  {
    assert Step(s, Succeeded) == CallbackStep(s, Succeeded);
  }

  /** A read is in flight on a call nothing has ended. */
  lemma ReadInFlight() returns (s: State)
    ensures Reachable(s) && s.net.Idle? && s.flight.ReadFlight? && !s.sh.claimed
    ensures MayPost(s.sh) && s.owner.Free?
  {
    ReachableInitial("https://a/", 20);
    var started := WorkStarts(Initial("https://a/", 20));
    var published := HeadersArrive(started);
    var issued := ReadIsIssued(published);
    s := WorkStarts(issued);
  }

  /** The call has not completed when it is cancelled, and yet it succeeds. */
  lemma CancelIsOvertaken()
    ensures exists s :: Reachable(s) && Enabled(s, Cancel) && s.outcome.None?
              && var run := [Cancel, Succeeded, NetAdvance];
                 Runs(s, run) && Final(s, run).sh.destroyRequested && Final(s, run).outcome == Some(NO_ERROR)
  {
    var s := ReadInFlight();
    ReachableInv(s);
    CancelAsks(s);
    SuccessClaims(Step(s, Cancel));
    RunOfThree(s, Cancel, Succeeded, NetAdvance);
  }

  lemma RunOfThree(s: State, a: Action, b: Action, c: Action)
    requires Enabled(s, a) && Enabled(Step(s, a), b) && Enabled(Step(Step(s, a), b), c)
    ensures Runs(s, [a, b, c]) && Final(s, [a, b, c]) == Step(Step(Step(s, a), b), c)
  {
    assert [a, b, c][1..] == [b, c] && [b, c][1..] == [c] && [c][1..] == [];
    var t, u := Step(s, a), Step(Step(s, a), b);
    assert Runs(Step(u, c), []) && Runs(u, [c]) && Final(u, [c]) == Final(Step(u, c), []);
    assert Runs(t, [b, c]) && Final(t, [b, c]) == Final(u, [c]);
  }
}
