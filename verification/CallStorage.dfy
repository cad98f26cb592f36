/** What body_ costs over a whole call, the part already read included: in every
    interleaving, however many threads read. */
module CallStorage {
  import opened CallTypes
  import opened CallProtocol
  import opened CallInvariant

  function FrontStep(s: State, a: Action, f: Front): Front {
    if IsRead(a) then FrontAfterRead(f, s.sh, a.capacity) else f
  }

  /** The front after a run, from the one it starts with. */
  function FrontOver(s: State, run: seq<Action>, f: Front): Front
    requires Runs(s, run)
    decreases run
  {
    if run == [] then f else FrontOver(Step(s, run[0]), run[1..], FrontStep(s, run[0], f))
  }

  /** No more is handed out than is left; what is stored is bounded; and dropping the
      front has moved no more bytes than readers were handed. */
  predicate StorageInv(s: State, f: Front) {
    && f.offset <= |s.sh.pending|
    && f.offset + |s.sh.pending| < 2 * HIGH_WATER + READ_BUFFER
    && f.moved + f.offset <= |s.delivered|
  }

  lemma AdvanceKeepsStorage(s: State, f: Front)
    requires Inv(s) && StorageInv(s, f) && Enabled(s, NetAdvance)
    ensures StorageInv(Advance(s), f)
  {
  }

  lemma NetworkKeepsStorage(s: State, a: Action, f: Front)
    requires Inv(s) && StorageInv(s, f) && Enabled(s, a) && IsNetwork(a)
    ensures StorageInv(Step(s, a), f)
  {
    if a.NetAdvance? {
      AdvanceKeepsStorage(s, f);
    } else if a.RunTask? {
      assert RunNext(s, a.reportCancel).sh.pending == s.sh.pending;
    } else {
      assert CallbackStep(s, a).sh.pending == s.sh.pending;
    }
  }

  lemma TakeKeepsStorage(s: State, a: Action, f: Front)
    requires StorageInv(s, f) && Enabled(s, a) && Takes(s, a)
    ensures StorageInv(Step(s, a), FrontStep(s, a, f))
  {
    var r := ReadBody(s.sh, a.capacity);
    assert Step(s, a).sh == r.sh && Step(s, a).delivered == s.delivered + r.out;
  }

  lemma RequestLeavesBuffer(s: State, a: Action)
    requires Enabled(s, a) && (a.Cancel? || a.BeginFree? || a.ResumeStep? || a.PeerResume?)
    ensures Step(s, a).sh.pending == s.sh.pending && Step(s, a).delivered == s.delivered
  {
  }

  lemma OwnerLeavesBuffer(s: State, a: Action)
    requires Enabled(s, a) && !IsNetwork(a) && !Takes(s, a)
    ensures Step(s, a).sh.pending == s.sh.pending && Step(s, a).delivered == s.delivered
  {
    if Moves(s, a) {
      MoveMoves(s, a);
    } else {
      RequestLeavesBuffer(s, a);
    }
  }

  lemma OwnerKeepsStorage(s: State, a: Action, f: Front)
    requires StorageInv(s, f) && Enabled(s, a) && !IsNetwork(a)
    ensures StorageInv(Step(s, a), FrontStep(s, a, f))
  {
    if Takes(s, a) {
      TakeKeepsStorage(s, a, f);
    } else {
      OwnerLeavesBuffer(s, a);
    }
  }

  lemma {:induction false} RunKeepsStorage(s: State, run: seq<Action>, f: Front)
    requires Inv(s) && StorageInv(s, f) && Runs(s, run)
    ensures Inv(Final(s, run)) && StorageInv(Final(s, run), FrontOver(s, run, f))
    decreases run
  {
    if run != [] {
      StepKeepsInv(s, run[0]);
      if IsNetwork(run[0]) {
        NetworkKeepsStorage(s, run[0], f);
      } else {
        OwnerKeepsStorage(s, run[0], f);
      }
      RunKeepsStorage(Step(s, run[0]), run[1..], FrontStep(s, run[0], f));
    }
  }

  /** Over any run of any call the buffer stores less than twice the high-water mark
      and one read, and reclaiming its front moves no more bytes than were read. */
  lemma StoredBytesAreBounded(url: string, limit: nat, run: seq<Action>)
    requires Runs(Initial(url, limit), run)
    ensures var s := Final(Initial(url, limit), run);
            var f := FrontOver(Initial(url, limit), run, Front(0, 0));
            f.offset + |s.sh.pending| < 2 * 262144 + 65536 && f.moved <= |s.delivered|
  {
    InitialInv(url, limit);
    RunKeepsStorage(Initial(url, limit), run, Front(0, 0));
  }
}
