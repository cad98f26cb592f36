/** The fields of native/call.h updated in place, with the reclaimed buffer of
    native/call.cc. Every method is proved to have the effect CallTypes gives it
    on the shared value; the buffer's size and copying cost are bounded here. */
module CallState {
  import opened Prelude
  import opened CallTypes

  /** The tasks bound to one request, in the order they were posted. */
  class TaskQueue {
    var tasks: seq<Task>

    constructor ()
      ensures tasks == []
    {
      tasks := [];
    }

    method PostTask(task: Task)
      modifies this
      ensures tasks == old(tasks) + [task]
    {
      tasks := tasks + [task];
    }
  }

  class CallState {
    const request: TaskQueue
    var attached: bool
    var destroyRequested: bool

    var body: seq<byte>
    var bodyOffset: nat
    var bodyComplete: bool
    var readPaused: bool

    var counter: nat
    var outcomeClaimed: bool
    var state: Phase
    var response: Response
    var headersPublished: bool
    var finished: bool
    var released: bool

    // Every byte OnData took in, every byte Read handed out, and how many bytes
    // reclaiming the front of `body` has moved.
    ghost var received: seq<byte>
    ghost var delivered: seq<byte>
    ghost var moved: nat

    ghost function Pending(): seq<byte>
      reads `body, `bodyOffset
      requires bodyOffset <= |body|
    {
      body[bodyOffset..]
    }

    ghost function Storage(): Front
      reads `bodyOffset, `moved
    {
      Front(bodyOffset, moved)
    }

    /** The offset never passes what is left, so dead bytes never outnumber live
        ones; copying is paid for by delivery. */
    ghost predicate Valid()
      reads this
    {
      && bodyOffset <= |body| - bodyOffset
      && delivered + Pending() == received
      && moved + bodyOffset <= |delivered|
      && (readPaused ==> |Pending()| > LOW_WATER)
      && counter <= COUNTER_MAX
    }

    /** The bounds the two water marks are for. */
    ghost predicate Bounded()
      reads this
      requires bodyOffset <= |body|
    {
      && |Pending()| < HIGH_WATER + READ_BUFFER
      && |body| < 2 * HIGH_WATER + READ_BUFFER
    }

    ghost function View(): Shared
      reads this, request
      requires bodyOffset <= |body|
    {
      Shared(Pending(), bodyComplete, readPaused,
             attached, destroyRequested, request.tasks,
             counter,
             outcomeClaimed, state, response, headersPublished, finished, released)
    }

    constructor (initialUrl: string)
      ensures Valid() && Bounded() && fresh(request)
      ensures View() == Shared([], false, false, false, false, [], 0, false, Started,
                               Response(NO_HEAD, initialUrl, 0, 0, NO_ERROR), false, false, false)
      ensures received == [] && delivered == [] && moved == 0
    {
      request := new TaskQueue();
      attached, destroyRequested := false, false;
      body, bodyOffset, bodyComplete, readPaused := [], 0, false, false;
      counter, outcomeClaimed, state := 0, false, Started;
      response := Response(NO_HEAD, initialUrl, 0, 0, NO_ERROR);
      headersPublished, finished, released := false, false, false;
      received, delivered, moved := [], [], 0;
    }

    method SignalProgress()
      requires Valid()
      modifies this`counter
      ensures Valid() && View() == Signal(old(View()))
    {
      if counter < COUNTER_MAX {
        counter := counter + 1;
      }
    }

    /** The owner's eight-byte read of the descriptor. */
    method Drain()
      requires Valid()
      modifies this`counter
      ensures Valid() && View() == old(View()).(counter := 0)
    {
      counter := 0;
    }

    method AttachRequest()
      requires Valid()
      modifies this`attached
      ensures Valid() && View() == old(View()).(attached := true)
    {
      attached := true;
    }

    method ReadData() returns (posted: bool)
      requires Valid()
      modifies request
      ensures Valid() && posted == MayPost(old(View()))
      ensures View() == Post(old(View()), ReadTask)
    {
      if destroyRequested || !attached {
        return false;
      }
      request.PostTask(ReadTask);
      posted := true;
    }

    method FollowRedirect() returns (posted: bool)
      requires Valid()
      modifies request
      ensures Valid() && posted == MayPost(old(View()))
      ensures View() == Post(old(View()), FollowTask)
    {
      if destroyRequested || !attached {
        return false;
      }
      request.PostTask(FollowTask);
      posted := true;
    }

    method DestroyRequest(sendOnCanceled: bool)
      requires Valid()
      modifies this`destroyRequested, request
      ensures Valid() && View() == RequestDestroy(old(View()), sendOnCanceled)
    {
      if destroyRequested || !attached {
        return;
      }
      destroyRequested := true;
      request.PostTask(DestroyTask(sendOnCanceled));
    }

    method Cancel()
      requires Valid()
      modifies this`destroyRequested, request
      ensures Valid() && View() == RequestDestroy(old(View()), true)
      ensures request.tasks == old(request.tasks) + (if attached && !old(destroyRequested) then [DestroyTask(true)] else [])
    {
      DestroyRequest(true);
    }

    /** Drops the part already read when it outgrows the rest. Nothing the shared
        value shows is changed. */
    method ReclaimFront()
      requires bodyOffset <= |body|
      modifies this`body, this`bodyOffset, this`moved
      ensures bodyOffset <= |body| - bodyOffset
      ensures if old(bodyOffset) > |old(body)| - old(bodyOffset) then bodyOffset == 0 && body == old(Pending())
              else bodyOffset == old(bodyOffset) && body == old(body)
      ensures Storage() == HandOut(old(Storage()), 0, |Pending()|)
      ensures Pending() == old(Pending())
      ensures moved + bodyOffset <= old(moved) + old(bodyOffset)
      ensures |body| <= old(|body|)
    {
      if bodyOffset > |body| - bodyOffset {
        moved := moved + (|body| - bodyOffset);
        body := body[bodyOffset..];
        bodyOffset := 0;
      }
    }

    /** Hands out the next `count` pending bytes. */
    method CopyOut(out: array<byte>, count: nat)
      requires Valid() && count <= |Pending()| && count <= out.Length
      modifies this`bodyOffset, this`delivered, out
      ensures bodyOffset == old(bodyOffset) + count <= |body|
      ensures Pending() == old(Pending())[count..]
      ensures delivered == old(delivered) + old(Pending())[..count]
      ensures delivered + Pending() == received
      ensures out[..count] == old(Pending())[..count]
      ensures out[count..] == old(out[count..])
    {
      ghost var before := Pending();
      assert before == before[..count] + before[count..];
      forall i | 0 <= i < count {
        out[i] := body[bodyOffset + i];
      }
      bodyOffset := bodyOffset + count;
      delivered := delivered + before[..count];
    }

    /** Hands out `count` bytes and reclaims what that frees. */
    method Dequeue(out: array<byte>, count: nat)
      requires Valid() && count <= |Pending()| && count <= out.Length
      modifies this`body, this`bodyOffset, this`delivered, this`moved, out
      ensures bodyOffset <= |body| - bodyOffset && |body| <= old(|body|)
      ensures moved + bodyOffset <= |delivered|
      ensures Storage() == HandOut(old(Storage()), count, |Pending()|)
      ensures Pending() == old(Pending())[count..]
      ensures delivered == old(delivered) + old(Pending())[..count]
      ensures delivered + Pending() == received
      ensures out[..count] == old(Pending())[..count]
      ensures out[count..] == old(out[count..])
    {
      CopyOut(out, count);
      ReclaimFront();
    }

    /** Whether a paused reader may now be restarted; if so it is no longer paused. */
    method TakeResume() returns (resume: bool)
      requires bodyOffset <= |body|
      modifies this`readPaused
      ensures resume == (old(readPaused) && |Pending()| <= LOW_WATER)
      ensures readPaused == (old(readPaused) && !resume)
    {
      resume := readPaused && |body| - bodyOffset <= LOW_WATER;
      if resume {
        readPaused := false;
      }
    }

    /** Hands out what there is, at most `capacity` bytes. */
    method TakeSome(out: array<byte>, capacity: nat) returns (count: nat, resume: bool)
      requires Valid() && capacity <= out.Length
      requires capacity > 0 && |Pending()| > 0
      modifies this`body, this`bodyOffset, this`readPaused, this`delivered, this`moved, out
      ensures Valid() && |body| <= old(|body|) && count == Min(capacity, old(|Pending()|))
      ensures Storage() == HandOut(old(Storage()), count, |Pending()|)
      ensures Pending() == old(Pending())[count..]
      ensures delivered == old(delivered) + old(Pending())[..count]
      ensures resume == (old(readPaused) && |Pending()| <= LOW_WATER)
      ensures readPaused == (old(readPaused) && !resume)
      ensures out[..count] == old(Pending())[..count] && out[count..] == old(out[count..])
    {
      count := Min(capacity, |body| - bodyOffset);
      Dequeue(out, count);
      resume := TakeResume();
    }

    /** The part of Read that runs under body_lock_. */
    method TakeBody(out: array<byte>, capacity: nat) returns (count: int, resume: bool)
      requires Valid() && capacity <= out.Length
      modifies this`body, this`bodyOffset, this`readPaused, this`delivered, this`moved, out
      ensures Valid() && |body| <= old(|body|)
      ensures Storage() == FrontAfterRead(old(Storage()), old(View()), capacity)
      ensures var r := ReadBody(old(View()), capacity);
              && count == r.count && resume == r.resume
              && View() == r.sh
              && delivered == old(delivered) + r.out
              && |r.out| <= out.Length && out[..|r.out|] == r.out
              && out[|r.out|..] == old(out[|r.out|..])
    {
      if capacity == 0 {
        return 0, false;
      }
      if |body| - bodyOffset == 0 {
        assert Pending() == [];
        return if bodyComplete then EOF else 0, false;
      }
      count, resume := TakeSome(out, capacity);
    }

    /** Copies out at most `capacity` bytes, and restarts a paused read when the
        buffer falls to the low-water mark. On the shared value this is a plain
        dequeue: neither offset nor reclamation shows. */
    method Read(out: array<byte>, capacity: nat) returns (count: int)
      requires Valid() && capacity <= out.Length
      modifies this`body, this`bodyOffset, this`readPaused, this`delivered, this`moved, request, out
      ensures Valid()
      ensures Storage() == FrontAfterRead(old(Storage()), old(View()), capacity)
      ensures var r := ReadBody(old(View()), capacity);
              && count == r.count
              && View() == (if r.resume then Post(r.sh, ReadTask) else r.sh)
              && delivered == old(delivered) + r.out
              && |r.out| <= out.Length && out[..|r.out|] == r.out
              && out[|r.out|..] == old(out[|r.out|..])
      ensures count == -1 <==> capacity > 0 && old(Pending()) == [] && bodyComplete
      ensures count == -1 ==> delivered == received
      ensures count >= 0 ==> count == Min(capacity, old(|Pending()|)) == |delivered| - |old(delivered)|
      ensures old(Bounded()) ==> Bounded()
    {
      var resume;
      count, resume := TakeBody(out, capacity);
      if resume {
        var _ := ReadData();
      }
    }

    /** Takes in body bytes. A chunk of at most one read buffer that arrives while
        the buffer is below the high-water mark keeps it bounded. */
    method OnData(data: seq<byte>) returns (keepReading: bool)
      requires Valid()
      modifies this`body, this`readPaused, this`received, this`counter
      ensures Valid()
      ensures View() == Signal(AppendBody(old(View()), data))
      ensures keepReading == !readPaused == (old(|Pending()|) + |data| < 262144)
      ensures received == old(received) + data && Storage() == old(Storage())
      ensures old(|Pending()|) < HIGH_WATER && |data| <= READ_BUFFER ==> Bounded()
    {
      ghost var before := Pending();
      body := body + data;
      received := received + data;
      assert Pending() == before + data;
      keepReading := |body| - bodyOffset < HIGH_WATER;
      readPaused := !keepReading;
      SignalProgress();
    }

    method OnRedirect(location: string)
      requires Valid()
      modifies this`response
      ensures Valid() && View() == PutUrl(old(View()), location)
    {
      response := response.(url := location);
    }

    method OnResponse(head: Head)
      requires Valid()
      modifies this`response, this`headersPublished, this`state, this`counter
      ensures Valid() && View() == Respond(old(View()), head)
      ensures response == old(response).(head := head) && state == Headers && headersPublished
    {
      response := response.(head := head);
      headersPublished := true;
      state := Headers;
      SignalProgress();
    }

    method SetRedirectCount(count: nat)
      requires Valid()
      modifies this`response
      ensures Valid() && View() == PutCount(old(View()), count)
    {
      response := response.(redirectCount := count);
    }

    method SetMetrics(metrics: int)
      requires Valid()
      modifies this`response
      ensures Valid() && View() == PutMetrics(old(View()), metrics)
    {
      if state == Done {
        return;
      }
      response := response.(metrics := metrics);
    }

    /** outcome_claimed_.exchange(true). */
    method Claim() returns (already: bool)
      requires Valid()
      modifies this`outcomeClaimed
      ensures Valid() && already == old(outcomeClaimed)
      ensures View() == old(View()).(claimed := true)
    {
      already := outcomeClaimed;
      outcomeClaimed := true;
    }

    /** The body has all it will get, and a paused reader is let go. */
    method EndBody()
      requires Valid()
      modifies this`bodyComplete, this`readPaused
      ensures Valid() && View() == CompleteBody(old(View()))
    {
      bodyComplete := true;
      readPaused := false;
    }

    method RecordOutcome(outcome: Outcome)
      requires Valid()
      modifies this`response, this`headersPublished
      ensures Valid() && View() == PutOutcome(old(View()), outcome)
    {
      if !headersPublished {
        headersPublished := true;
      }
      response := response.(error := outcome);
    }

    method PublishDone()
      requires Valid()
      modifies this`state, this`finished
      ensures Valid() && View() == old(View()).(phase := Done, finished := true)
    {
      state := Done;
      finished := true;
    }

    /** Records the outcome. A second call changes nothing at all. */
    method Finish(outcome: Outcome)
      requires Valid()
      modifies this`outcomeClaimed, this`bodyComplete, this`readPaused, this`response,
               this`headersPublished, this`state, this`finished, this`counter
      ensures Valid() && View() == Conclude(old(View()), outcome)
      ensures !old(outcomeClaimed) ==> response == old(response).(error := outcome) && state == Done && bodyComplete
    {
      var already := Claim();
      if already {
        return;
      }
      EndBody();
      RecordOutcome(outcome);
      PublishDone();
      SignalProgress();
    }

    method OnReleased()
      requires Valid()
      modifies this`attached, this`released
      ensures Valid() && View() == old(View()).(attached := false, released := true)
    {
      attached := false;
      released := true;
    }
  }
}
