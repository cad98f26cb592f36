/** What one call shares between its owner and the network thread, as a value,
    and the effect of each lock-held region, atomic access and descriptor access
    of native/call.cc on it. Two modules give these functions their meaning:
    CallState implements them in place, CallProtocol interleaves them. */
module CallTypes {
  import opened Prelude

  // native/call.h:77-78, native/call.cc:38, native/cronet.h:217-219 and 265.
  const HIGH_WATER: nat := 262144
  const LOW_WATER: nat := 65536
  const READ_BUFFER: nat := 65536
  const EOF: int := -1
  const ERROR_ABORTED: int := -3
  const ERROR_TOO_MANY_REDIRECTS: int := -31

  /** The largest value an eventfd counter holds; a further increment is dropped. */
  const COUNTER_MAX: nat := 0xFFFF_FFFF_FFFF_FFFE

  datatype Phase = Started | Headers | Done

  datatype Outcome = Outcome(code: int, message: string)

  const NO_ERROR := Outcome(0, "")
  const CANCELLED := Outcome(ERROR_ABORTED, "the call was cancelled")
  const UNFINISHED := Outcome(ERROR_ABORTED, "the call ended without a result")

  /** What the owner and the network thread may post to the request. */
  datatype Task = StartTask | FollowTask | ReadTask | DestroyTask(sendOnCanceled: bool)

  datatype Head = Head(
    status: int,
    statusText: string,
    wasCached: bool,
    protocol: string,
    proxy: string,
    fields: seq<(string, string)>)

  const NO_HEAD := Head(0, "", false, "", "", [])

  datatype Response = Response(head: Head, url: string, redirectCount: nat, metrics: int, error: Outcome)

  datatype Shared = Shared(
    // Under body_lock_. `pending` is the part of body_ not yet handed out.
    pending: seq<byte>, complete: bool, paused: bool,
    // Under lock_, with the tasks posted to the request and not yet run.
    attached: bool, destroyRequested: bool, queue: seq<Task>,
    // The eventfd.
    counter: nat,
    // Published results.
    claimed: bool, phase: Phase, response: Response, headersPublished: bool,
    finished: bool, released: bool)

  /** The descriptor's increment, dropped when the counter is full. */
  function Signal(sh: Shared): Shared {
    sh.(counter := if sh.counter < COUNTER_MAX then sh.counter + 1 else sh.counter)
  }

  /** OnData's region under body_lock_. */
  function AppendBody(sh: Shared, data: seq<byte>): Shared {
    var pending := sh.pending + data;
    sh.(pending := pending, paused := |pending| >= HIGH_WATER)
  }

  datatype ReadResult = ReadResult(sh: Shared, count: int, out: seq<byte>, resume: bool)

  /** Read's region under body_lock_, on a plain queue of bytes: no offset, no
      reclamation. */
  function ReadBody(sh: Shared, capacity: nat): ReadResult {
    if capacity == 0 then ReadResult(sh, 0, [], false)
    else if sh.pending == [] then ReadResult(sh, if sh.complete then EOF else 0, [], false)
    else
      var n := Min(capacity, |sh.pending|);
      var left := sh.pending[n..];
      var resume := sh.paused && |left| <= LOW_WATER;
      ReadResult(sh.(pending := left, paused := sh.paused && !resume), n, sh.pending[..n], resume)
  }

  /** Where the front of body_ stands: how much of it is handed out, and how many
      bytes dropping that part has moved so far. */
  datatype Front = Front(offset: nat, moved: nat)

  /** Read's effect on it: `count` more bytes are handed out and `left` stay; the
      part handed out is dropped when it is the larger. */
  function HandOut(f: Front, count: nat, left: nat): Front {
    if f.offset + count > left then Front(0, f.moved + left) else Front(f.offset + count, f.moved)
  }

  function FrontAfterRead(f: Front, sh: Shared, capacity: nat): Front {
    if capacity == 0 || sh.pending == [] then f
    else HandOut(f, Min(capacity, |sh.pending|), |sh.pending| - Min(capacity, |sh.pending|))
  }

  predicate MayPost(sh: Shared) {
    sh.attached && !sh.destroyRequested
  }

  /** ReadData and FollowRedirect under lock_. */
  function Post(sh: Shared, task: Task): Shared {
    if MayPost(sh) then sh.(queue := sh.queue + [task]) else sh
  }

  /** DestroyRequest under lock_. */
  function RequestDestroy(sh: Shared, sendOnCanceled: bool): Shared {
    if MayPost(sh)
    then sh.(destroyRequested := true, queue := sh.queue + [DestroyTask(sendOnCanceled)])
    else sh
  }

  function PutUrl(sh: Shared, url: string): Shared {
    sh.(response := sh.response.(url := url))
  }

  function PutHead(sh: Shared, head: Head): Shared {
    sh.(response := sh.response.(head := head), headersPublished := true)
  }

  function PutCount(sh: Shared, count: nat): Shared {
    sh.(response := sh.response.(redirectCount := count))
  }

  /** set_metrics, which leaves a finished call alone. */
  function PutMetrics(sh: Shared, metrics: int): Shared {
    if sh.phase == Done then sh else sh.(response := sh.response.(metrics := metrics))
  }

  function CompleteBody(sh: Shared): Shared {
    sh.(complete := true, paused := false)
  }

  function PutOutcome(sh: Shared, outcome: Outcome): Shared {
    sh.(response := sh.response.(error := outcome), headersPublished := true)
  }

  /** The whole of OnResponse when nothing else runs in between. */
  function Respond(sh: Shared, head: Head): Shared {
    Signal(PutHead(sh, head).(phase := Headers))
  }

  /** The whole of Finish when nothing else runs in between. */
  function Conclude(sh: Shared, outcome: Outcome): Shared {
    if sh.claimed then sh
    else Signal(PutOutcome(CompleteBody(sh.(claimed := true)), outcome).(phase := Done, finished := true))
  }
}
