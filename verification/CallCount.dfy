/** The redirect count is written behind the HEADERS publication: exactly when a
    reader finds in it the number of redirects that were followed. */
module CallCount {
  import opened CallTypes
  import opened CallProtocol
  import opened CallInvariant
  import opened CallTheorems

  /** HEADERS is stored and the count is still to be written. */
  predicate CountPending(s: State) {
    s.net.SignalHeaders? || s.net.WriteCount?
  }

  predicate CountInv(s: State) {
    && (s.sh.phase.Started? ==> s.sh.response.redirectCount == 0)
    && (s.sh.phase.Headers? ==> s.sh.response.redirectCount == if CountPending(s) then 0 else s.redirects)
    && (s.received != [] ==> s.sh.response.redirectCount == s.redirects)
  }

  lemma AdvanceKeepsCount(s: State)
    requires Inv(s) && CountInv(s) && Enabled(s, NetAdvance)
    ensures CountInv(Advance(s))
  {
  }

  lemma RunKeepsCount(s: State, reportCancel: bool)
    requires Inv(s) && CountInv(s) && Enabled(s, RunTask(reportCancel))
    ensures CountInv(RunNext(s, reportCancel))
  {
  }

  lemma CallbackKeepsCount(s: State, a: Action)
    requires Inv(s) && CountInv(s) && Enabled(s, a) && IsNetwork(a) && !a.NetAdvance? && !a.RunTask?
    ensures CountInv(CallbackStep(s, a))
  {
  }

  lemma StepKeepsCount(s: State, a: Action)
    requires Inv(s) && CountInv(s) && Enabled(s, a)
    ensures CountInv(Step(s, a))
  {
    if a.NetAdvance? { AdvanceKeepsCount(s); }
    else if a.RunTask? { RunKeepsCount(s, a.reportCancel); }
    else if IsNetwork(a) { CallbackKeepsCount(s, a); }
    else { OwnerLeaves(s, a); }
  }

  lemma {:induction false} RunsKeepCount(s: State, run: seq<Action>)
    requires Inv(s) && CountInv(s) && Runs(s, run)
    ensures Inv(Final(s, run)) && CountInv(Final(s, run))
    decreases run
  {
    if run != [] {
      StepKeepsInv(s, run[0]);
      StepKeepsCount(s, run[0]);
      RunsKeepCount(Step(s, run[0]), run[1..]);
    }
  }

  lemma ReachableCount(s: State)
    requires Reachable(s)
    ensures Inv(s) && CountInv(s)
  {
    var url, limit, run :| Runs(Initial(url, limit), run) && Final(Initial(url, limit), run) == s;
    InitialInv(url, limit);
    RunsKeepCount(Initial(url, limit), run);
  }

  /** Who sees HEADERS reads the number of redirects followed exactly when there were
      none or the count has been written; otherwise zero. */
  lemma CountAtHeaders(s: State)
    requires Reachable(s) && s.sh.phase.Headers?
    ensures s.sh.response.redirectCount == s.redirects <==> s.redirects == 0 || !CountPending(s)
    ensures CountPending(s) ==> s.sh.response.redirectCount == 0
  {
    ReachableCount(s);
  }

  /** What a reader can tell by: once it has been handed a byte the count is right,
      whatever the state says. */
  lemma CountBehindBody(s: State)
    requires Reachable(s) && s.delivered != []
    ensures s.sh.response.redirectCount == s.redirects
  {
    ReachableCount(s);
    assert s.received != [];
  }

  /** A response head was published, and the count is as far as it should be. */
  predicate Answered(s: State) {
    !s.sh.phase.Started? && s.sh.response.redirectCount == if CountPending(s) then 0 else s.redirects
  }

  lemma AdvanceKeepsAnswered(s: State)
    requires Inv(s) && Answered(s) && Enabled(s, NetAdvance)
    ensures Answered(Advance(s))
  {
  }

  lemma CallbackKeepsAnswered(s: State, a: Action)
    requires Inv(s) && Answered(s) && Enabled(s, a) && IsNetwork(a) && !a.NetAdvance? && !a.RunTask?
    ensures Answered(CallbackStep(s, a))
  {
  }

  lemma RunKeepsAnswered(s: State, reportCancel: bool)
    requires Inv(s) && Answered(s) && Enabled(s, RunTask(reportCancel))
    ensures Answered(RunNext(s, reportCancel))
  {
  }

  lemma StepKeepsAnswered(s: State, a: Action)
    requires Inv(s) && Answered(s) && Enabled(s, a)
    ensures Answered(Step(s, a))
  {
    if a.NetAdvance? { AdvanceKeepsAnswered(s); }
    else if a.RunTask? { RunKeepsAnswered(s, a.reportCancel); }
    else if IsNetwork(a) { CallbackKeepsAnswered(s, a); }
    else { OwnerLeaves(s, a); }
  }

  lemma {:induction false} AnsweredStays(s: State, run: seq<Action>)
    requires Inv(s) && Answered(s) && Runs(s, run)
    ensures Answered(Final(s, run)) && Inv(Final(s, run))
    decreases run
  {
    if run != [] {
      StepKeepsAnswered(s, run[0]);
      StepKeepsInv(s, run[0]);
      AnsweredStays(Step(s, run[0]), run[1..]);
    }
  }

  /** So a caller that has seen HEADERS reads the right count at EOF and at DONE, and
      never reads anything but that or zero. */
  lemma CountAfterHeaders(s: State, run: seq<Action>)
    requires Reachable(s) && s.sh.phase.Headers? && Runs(s, run)
    ensures var t := Final(s, run);
            && t.sh.response.redirectCount == (if CountPending(t) then 0 else t.redirects)
            && (t.sawEof || t.sh.phase.Done? ==> t.sh.response.redirectCount == t.redirects)
  {
    ReachableCount(s);
    AnsweredStays(s, run);
  }

  // --- Calls that fail before any headers --------------------------------------------

  /** The run stores HEADERS. */
  predicate Answers(s: State, run: seq<Action>)
    requires Runs(s, run)
    decreases run
  {
    run != [] && ((run[0].NetAdvance? && s.net.StoreHeaders?) || Answers(Step(s, run[0]), run[1..]))
  }

  predicate Unanswered(s: State) {
    !s.sh.phase.Headers? && s.sh.response.redirectCount == 0
  }

  lemma AdvanceAnswers(s: State)
    requires Inv(s) && Unanswered(s) && Enabled(s, NetAdvance)
    ensures if s.net.StoreHeaders? then Answered(Advance(s)) else Unanswered(Advance(s))
  {
  }

  lemma CallbackKeepsUnanswered(s: State, a: Action)
    requires Unanswered(s) && Enabled(s, a) && IsNetwork(a) && !a.NetAdvance?
    ensures Unanswered(NetworkStep(s, a))
  {
    if a.RunTask? {
      assert RunNext(s, a.reportCancel).sh.response == s.sh.response;
    } else {
      assert CallbackStep(s, a).sh.response.redirectCount == 0;
    }
  }

  lemma {:induction false} CountByAnswer(s: State, run: seq<Action>)
    requires Inv(s) && Unanswered(s) && Runs(s, run)
    ensures Inv(Final(s, run))
    ensures if Answers(s, run) then Answered(Final(s, run)) else Unanswered(Final(s, run))
    decreases run
  {
    if run != [] {
      var t := Step(s, run[0]);
      StepKeepsInv(s, run[0]);
      if run[0].NetAdvance? { AdvanceAnswers(s); }
      else if IsNetwork(run[0]) { CallbackKeepsUnanswered(s, run[0]); }
      else { OwnerLeaves(s, run[0]); }
      if run[0].NetAdvance? && s.net.StoreHeaders? {
        AnsweredStays(t, run[1..]);
      } else {
        CountByAnswer(t, run[1..]);
      }
    }
  }

  /** At DONE the count is right exactly when no redirect was followed or a response
      head was published: a call that fails between a redirect and the headers
      reports no redirects. */
  lemma CountAtDone(url: string, limit: nat, run: seq<Action>)
    requires Runs(Initial(url, limit), run) && Final(Initial(url, limit), run).sh.phase.Done?
    ensures var t := Final(Initial(url, limit), run);
            t.sh.response.redirectCount == t.redirects <==> t.redirects == 0 || Answers(Initial(url, limit), run)
  {
    InitialInv(url, limit);
    CountByAnswer(Initial(url, limit), run);
  }

  lemma {:induction false} AdvancesLeaveRedirects(s: State, n: nat)
    ensures Advances(s, n).redirects == s.redirects
    decreases n
  {
    if n > 0 && !s.net.Idle? && !s.net.Gone? {
      AdvancesLeaveRedirects(Advance(s), n - 1);
    }
  }

  /** Such a call: a redirect is followed, and then the connection fails. */
  lemma FailsAfterRedirect()
    ensures exists s :: Reachable(s) && s.sh.phase.Done? && s.redirects == 1 && s.sh.response.redirectCount == 0
  {
    ReachableInitial("https://a/", 20);
    var started := WorkStarts(Initial("https://a/", 20));
    var taken := RedirectIsTaken(started);
    var followed := WorkStarts(taken);
    var failed := CallbackBegins(followed, Failed(RESET));
    FinishAlone(failed);
    AdvancesReachable(failed, 6);
    AdvancesLeaveRedirects(failed, 6);
    assert Reachable(Advances(failed, 6));
  }
}
