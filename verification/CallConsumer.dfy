/** What one thread's reading loop collects: the pieces iter_body yields and the
    asyncio whole-body read joins. */
module CallConsumer {
  import opened Prelude
  import opened CallTypes
  import opened CallProtocol
  import opened CallInvariant
  import opened CallTheorems

  /** What a step hands to the owner. */
  function OwnStep(s: State, a: Action): seq<byte> {
    if a.ReadStep? then ReadBody(s.sh, a.capacity).out else []
  }

  /** How much it hands to another thread. */
  function PeerStep(s: State, a: Action): nat {
    if a.PeerRead? then |ReadBody(s.sh, a.capacity).out| else 0
  }

  /** The owner's pieces over a run, joined. */
  function Own(s: State, run: seq<Action>): seq<byte>
    requires Runs(s, run)
    decreases run
  {
    if run == [] then [] else OwnStep(s, run[0]) + Own(Step(s, run[0]), run[1..])
  }

  /** How many bytes other threads took. */
  function Peers(s: State, run: seq<Action>): nat
    requires Runs(s, run)
    decreases run
  {
    if run == [] then 0 else PeerStep(s, run[0]) + Peers(Step(s, run[0]), run[1..])
  }

  lemma TakeDelivers(s: State, a: Action)
    requires Enabled(s, a) && Takes(s, a)
    ensures Step(s, a).delivered == s.delivered + ReadBody(s.sh, a.capacity).out
  {
  }

  lemma OtherDelivers(s: State, a: Action)
    requires Enabled(s, a) && !Takes(s, a)
    ensures Step(s, a).delivered == s.delivered
    ensures IsRead(a) ==> ReadBody(s.sh, a.capacity).out == []
  {
    if IsNetwork(a) {
      NetworkLeaves(s, a);
    }
  }

  /** Every byte delivered went to the owner or to another thread. */
  lemma StepShares(s: State, a: Action)
    requires Enabled(s, a)
    ensures |Step(s, a).delivered| == |s.delivered| + |OwnStep(s, a)| + PeerStep(s, a)
    ensures PeerStep(s, a) == 0 ==> Step(s, a).delivered == s.delivered + OwnStep(s, a)
  {
    if Takes(s, a) {
      TakeDelivers(s, a);
      if a.PeerRead? {
        assert |ReadBody(s.sh, a.capacity).out| > 0;
      }
    } else {
      OtherDelivers(s, a);
      assert s.delivered + [] == s.delivered;
    }
  }

  lemma {:induction false} RunShares(s: State, run: seq<Action>)
    requires Runs(s, run)
    ensures |Final(s, run).delivered| == |s.delivered| + |Own(s, run)| + Peers(s, run)
    decreases run
  {
    if run != [] {
      StepShares(s, run[0]);
      RunShares(Step(s, run[0]), run[1..]);
    }
  }

  lemma {:induction false} RunJoins(s: State, run: seq<Action>)
    requires Runs(s, run) && Peers(s, run) == 0
    ensures Final(s, run).delivered == s.delivered + Own(s, run)
    decreases run
  {
    if run == [] {
      assert s.delivered + [] == s.delivered;
    } else {
      StepShares(s, run[0]);
      RunJoins(Step(s, run[0]), run[1..]);
      Regroup(s.delivered, OwnStep(s, run[0]), Own(Step(s, run[0]), run[1..]));
    }
  }

  lemma Regroup(a: seq<byte>, b: seq<byte>, c: seq<byte>)
    ensures a + b + c == a + (b + c)
  {
  }

  lemma AllDelivered(s: State)
    requires Inv(s) && s.sawEof
    ensures s.delivered == s.received
  {
    assert s.delivered + [] == s.delivered;
  }

  /** At the end of the body the pieces one thread has read since the call began are,
      joined, exactly the bytes received if and only if no other thread took any. */
  lemma WholeBodyIsRead(url: string, limit: nat, run: seq<Action>)
    requires Runs(Initial(url, limit), run) && Final(Initial(url, limit), run).sawEof
    ensures Own(Initial(url, limit), run) == Final(Initial(url, limit), run).received
            <==> Peers(Initial(url, limit), run) == 0
  {
    var s := Initial(url, limit);
    InitialInv(url, limit);
    RunKeepsInv(s, run);
    RunShares(s, run);
    if Peers(s, run) == 0 {
      RunJoins(s, run);
      assert [] + Own(s, run) == Own(s, run);
    }
    AllDelivered(Final(s, run));
  }
}
