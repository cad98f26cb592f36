# Verified models of the Cronet bindings

Dafny 4.11 models of the parts of this repository whose correctness depends on
more than one function at a time, and proofs about them. `dafny verify
dfyconfig.toml` checks the whole project.

## What is modelled

**One call** (`native/call.cc`, `native/call.h`, `Call` in `src/cronet/_bridge.py`,
the reading loops of `src/cronet/session.py`). `CallTypes` gives every lock-held
region, atomic access and descriptor access its effect on the shared state of a
call, with the body buffer as a plain queue of bytes. `CallState` is the class of
the same name, its fields updated in place, with the offset and the reclaimed
front; every method is proved to have that effect. `CallProtocol` interleaves the
same effects: the network thread inside its callbacks; one thread of the caller's,
the owner, running any sequence of waits, reads and frees; and any number of other
threads that read, resume, drain the descriptor and cancel between any two steps. A
completed read, a terminal callback and a Destroy behave as
`CronetURLRequest` promises (one further callback for each Start, Follow or Read;
1 to 65536 bytes in a completed read; after a terminal callback nothing but
metrics and OnDestroyed; exactly one OnDestroyed for a Destroy, possibly after
OnCanceled); that contract is an assumption. `CallInvariant` is the invariant every step keeps;
`CallTheorems`, `CallConsumer`, `CallCount`, `CallStorage`, `CallCancel`,
`CallProgress`, `CallWakeup` and `CallAccount` are what follows for every run: what is
conserved and published, what that says of what happened to the call, what one reader collects, when the redirect count is right, what the
buffer costs, what a cancelled call ends as, that the network's work is bounded, and
who is woken.

**Two engines** (`Engine` in `src/cronet/_bridge.py` over `Engine` in
`native/engine.cc`, with the handle steps of `native/c_api.cc`). `Engines` has both
classes in place, `EngineShutdown` composes them for any number of operations
running at once, each its own thread of the machine. A call is five flags there;
`CallLifecycle` proves that every step of the call protocol is one of the moves
those flags may make. `EngineProgress` is why close() comes to an end, and `NativeShutdown` takes the native
layer by itself.

**The SOCKS5 UDP association** (`patches/0004-socks5-udp-quic.patch`; sections 3, 4,
6 and 7 of RFC 1928, section 2 of RFC 1929). `Socks5Types` says what a client would
do that saw every message whole; `Socks5Association` is the state machine, over a
control connection that cuts reads and writes wherever it likes and completes them
now or later; `Socks5Reading` is the proxy at the other end, which reads the client's
bytes and answers them in the standards' own numbers; `Socks5Datagram` is the datagram
header.

**Formats and walks.** `Multipart` and `MultipartRoundTrip` are `encode_multipart`
and the reading of its output; `Redirects` is `RedirectChain` and the native
observer it stands in for; `HeaderOverlay` is `Headers`; `ExtensionOrder` is
`SSL_set1_extension_order` and the checks in front of it. `Pairs` holds the list
filtering the last three share.

## What came out of it

- EOF is weaker than DONE. `Finish` completes the body before it writes the error
  and stores DONE, so the second `call.result()` of `_perform`, which its comment
  says is made "now the call has finished", may find no error although the claimed
  outcome is one. `CallTheorems.ErrorAtEof` says exactly when,
  `EofOvertakesTheError` gives a run, `WaitAfterEofReadsTheError` shows that waiting
  for DONE first closes the gap.
- The redirect count is not covered by the HEADERS publication
  (`CallTheorems.RedirectCountLagsHeaders`). `CallCount` says when it is right: once
  written, which a body byte, EOF or DONE behind HEADERS shows; a call that fails
  between a redirect and its headers reports none.
- A descriptor wakes one poller. A second thread that drains it can leave the first
  polling for ever (`CallWakeup.DrainedWaiterIsStuck`). The network wakes the first
  after all exactly when at the drain it owed a signal (`DrainIsFatal`). It owes none
  exactly when DONE has been signalled; or when, with no outcome, no teardown asked for
  and no signal under way, the read is paused at a full buffer or left to another
  thread to restart (`OwesNothing`).
- A cancel asked for before the call has completed may be overtaken by its success
  (`CallCancel.CancelIsOvertaken`), where native/cronet.h promises ABORTED. The call
  ends as ABORTED exactly when nothing, or something that is ABORTED itself, claimed
  an outcome before the request was destroyed (`CancelledCallEnds`).
- The native engine on its own has a window between `RegisterCall` and `Start` in
  which a cancel is lost or comes first (`EngineShutdown.NativeWindow`). Whoever
  destroys it, every live call is stopped in order exactly when no thread stands in
  the window (`NativeShutdown.DestroyStopsInOrder`). Under the Python count it is
  never reached (`WindowIsNeverHit`, `TeardownIsSafe`).
- A multipart content breaks the body not only when it holds a delimiter but also
  when it begins with `--boundary`: the header's blank line supplies the missing
  line break. `MultipartRoundTrip.FormRoundTrip` is the exact condition. The random
  boundary is what makes either unlikely; nothing checks for them.
- The redirect walk and native following agree exactly as long as they take the same
  responses for redirects. The walk takes any 3xx with a Location for one; what the
  network stack takes for one is not in this repository.
- `UdpPayloadOffset` indexes byte 4 of a domain-name datagram knowing only that there
  are four bytes. On exactly the four-byte datagrams of that type the access is out of
  bounds, so reading one has no result (`Socks5Datagram.ParseStaysInside`,
  `FourBytesAbort`).
- A relayed datagram is accepted whatever its fragment number, where section 7 of
  RFC 1928 has a client that does not reassemble drop it
  (`Socks5Datagram.FragmentsAreNotDropped`, `FragmentIsReceived`).
- A domain-name header longer than an IPv6 one leaves less room than the caller's
  buffer has (`Socks5Datagram.LongNameIsRefused`).

## Model

The remaining methods of the modelled classes are single assignments or single
branches, stated in their contracts and used by the rows below: in `CallState` the
drain, the attachment, the cancel, the URL, count and metrics writes and the release;
in `Engines` discarding, releasing and registering; in `Socks5Association` resolving,
connecting and the UDP connect.

| member | source | states |
|---|---|---|
| CallState.CallState.Read | native/call.cc:260-294 | on the shared state a plain dequeue of `capacity` bytes or all there are, counted, plus one posted read when a paused buffer reaches the low-water mark; the front is reclaimed as `FrontAfterRead` says; EOF only when the body is complete and everything received has been delivered; stays within the size bounds |
| CallState.CallState.TakeBody | native/call.cc:266-287 | the region under body_lock_: what is copied out, appended to the history of delivered bytes and removed from the front are the same bytes; the rest of the caller's buffer is untouched |
| CallState.CallState.ReclaimFront | native/call.cc:277-282 | erasing the front leaves the pending bytes as they were and the offset at most what is left; bytes moved are paid for by bytes delivered before |
| CallState.CallState.OnData | native/call.cc:389-399 | appends and signals, pauses exactly at the high-water mark; below it, one read buffer more keeps pending bytes under 256K + 64K and stored bytes under 512K + 64K |
| CallState.CallState.SignalProgress | native/call.cc:228-235 | increments the descriptor, dropping the increment only when it is full and so readable |
| CallState.CallState.ReadData | native/call.cc:309-316 | posts one read, and says so, exactly when a request is attached and no Destroy was asked for |
| CallState.CallState.FollowRedirect | native/call.cc:318-325 | posts one follow under the same condition |
| CallState.CallState.DestroyRequest | native/call.cc:327-335 | posts one Destroy the first time there is a request, and nothing otherwise |
| CallState.CallState.OnResponse | native/call.cc:357-387 | the head given is stored, HEADERS published, one signal; nothing else changes |
| CallState.CallState.Finish | native/call.cc:415-444 | the first outcome completes the body, records itself, publishes DONE and signals; a later one changes nothing |
| CallProtocol.FinishAlone | native/call.cc:415-444 | undisturbed, the steps of the interleaved Finish add up to the method, and to nothing when the outcome is already claimed |
| CallProtocol.ResponseAlone | native/call.cc:357-387 | undisturbed, the steps of OnResponse add up to the method |
| CallProtocol.DataAlone | native/call.cc:101-111 | undisturbed, the steps of OnData add up to the method, and the callback reads on exactly when fewer than 262144 bytes are then pending |
| CallProtocol.ReadAlone | native/call.cc:260-294 | the owner's read and the resume it may owe add up to the method; a resume is owed exactly when the read was paused and leaves at most 65536 bytes of some |
| CallInvariant.InitialInv | native/call.cc:446-484 | a call as StartCall returns it satisfies the invariant |
| CallInvariant.StepKeepsInv | native/call.h:85-219 | every step of the network, the owner or any other thread of the caller's keeps the invariant: task queue, flow-control token, publication, outcome, body and wakeups |
| CallInvariant.ReachableInv | native/call.h:85-219 | so it holds in every state any interleaving reaches, however many threads read, drain and cancel |
| CallTheorems.SingleReadToken | native/call.cc:101-111 | never two parties may use the read buffer, however many threads drain it; between headers and outcome exactly one of posted, in flight, re-issuing, paused, or one thread resuming holds unless teardown was asked for |
| CallTheorems.BufferIsBounded | native/call.h:73-78 | in every interleaving pending bytes stay below 256K + 64K, OnData is only entered below the high-water mark with at most one read buffer, and a paused read means more than 64K are pending |
| CallStorage.StoredBytesAreBounded | native/call.cc:272-282 | over every run of every call stored bytes, the part already read included, stay below 512K + 64K, and reclaiming the front has moved no more bytes than were delivered |
| CallAccount.HeadersTellTheResponse | native/call.cc:66-99 | over every run, from HEADERS on the head read is the one the network delivered, with the response or with the redirect at the limit, and the URL is the last one followed or else the one asked for; with no response both are as they began |
| CallAccount.DoneTellsTheEnding | native/call.cc:66-141 | over every run, at DONE the error is that of the first event that ended the call: none, the network's own, -31 at a redirect limit above zero and none at a limit of zero, or -3 for a Destroy, as a cancellation if the caller asked for it and the request reported it; the metrics are those collected before DONE |
| CallAccount.ReadersGetTheBody | native/call.cc:101-111 | over every run readers are handed a prefix, and at EOF all, of the bytes the completed reads delivered, in order; redirects counted are those followed, within the limit |
| CallTheorems.LoopsEndRightly | src/cronet/_bridge.py:378-410 | a wait for headers ends exactly when there is something to read of them, a read loop exactly at the end of the body; both drain again after every poll |
| CallTheorems.WaitEndsAtDone | src/cronet/_bridge.py:412-421 | a wait that is not given up ends at DONE, with the claimed error |
| CallTheorems.BodyIsConserved | src/cronet/_bridge.py:388-410 | what all readers together were delivered, plus what is pending, is what was received, always; once any was told EOF, everything is delivered and the outcome is claimed |
| CallConsumer.WholeBodyIsRead | src/cronet/session.py:571-584 | at the end of the body the pieces one thread has read since the call began are, joined, the bytes received if and only if no other thread took any |
| CallTheorems.NothingBehindDestroy | native/call.h:124-130 | no task behind a Destroy, none left for a destroyed request, and the release only after unregistering |
| CallTheorems.DestroyedOnce | native/call.cc:133-141 | over any run the number of Destroys run and of releases signalled is at most one each, and the state says which |
| CallTheorems.PublishedIsFinal | native/call.h:192-202 | over any run the state only moves forward, head and URL are final from HEADERS, everything from DONE, the first outcome claimed stays, and no byte arrives after it |
| CallTheorems.DoneReadsFirstOutcome | native/call.cc:416-422 | who sees DONE reads the outcome claimed first, then and in every later state |
| CallCancel.CancelledCallEnds | native/cronet.h:282-284 | over every run a call that was asked to stop ends with what was claimed before its Destroy ran, or else as ABORTED; so as ABORTED if and only if nothing was, or ABORTED itself |
| CallCancel.CancelIsOvertaken | native/cronet.h:282-284 | a reachable state with no outcome in which a cancel is followed by success |
| CallTheorems.ErrorAtEof | native/call.cc:423-443 | after EOF the error read is the claimed one if and only if the call is DONE, DONE is the next store, or there is no error |
| CallTheorems.EofFixesAllButTheError | src/cronet/session.py:385-388 | after EOF nothing of the result changes any more but the error |
| CallTheorems.WaitAfterEofReadsTheError | src/cronet/_bridge.py:412-421 | after EOF and a wait for DONE the error read is the claimed one |
| CallTheorems.EofOvertakesTheError | native/call.cc:423-441 | a reachable state with EOF seen, HEADERS published, no error readable and an error claimed |
| CallTheorems.RedirectCountLagsHeaders | native/call.cc:95-97 | a reachable state with HEADERS published from which the redirect count still changes |
| CallCount.CountAtHeaders | native/call.cc:87-99 | a caller that sees HEADERS reads the number of redirects followed if and only if there were none or the count has been written, and zero otherwise |
| CallCount.CountBehindBody | native/call.cc:95-98 | once a caller has been handed a body byte the count is right |
| CallCount.CountAfterHeaders | native/call.cc:95-98 | over every run from HEADERS on the count is right as soon as it is written, and so at EOF and at DONE |
| CallCount.CountAtDone | native/call.cc:82-97 | at DONE the count is right if and only if no redirect was followed or a response head was published on the way |
| CallCount.FailsAfterRedirect | native/call.cc:118-127 | a reachable state DONE, one redirect followed and none reported |
| CallProgress.QuiescentIffStuck | native/call.cc:43-190 | the network can move, other than to report metrics, exactly while it has a task, a callback or a step outstanding |
| CallProgress.NoStall | src/cronet/_bridge.py:398-409 | a thread in poll() with an unreadable descriptor no other has drained meanwhile: a signal is about to come, or there is nothing to read while a read, a resume by this or another thread, a redirect or teardown is outstanding |
| CallProgress.NetworkWorks | native/call.cc:101-111 | every network step lowers a measure made of redirects left, room in the buffer and teardown left |
| CallProgress.NetworkRunsAreBounded | native/call.cc:104-107 | backpressure: between two moves of the owner the network takes a bounded number of steps |
| CallWakeup.WaiterIsWoken | native/call.h:178-181 | while a thread polls, the network alone stops within that bound, and where it stops the descriptor is readable if and only if to begin with it was, or the network owed a signal |
| CallWakeup.UndisturbedWaiterIsWoken | native/cronet.h:243-251 | no wakeup is lost to a thread whose descriptor no other has drained since it began to poll, unless another thread has still to restart the read it was told to |
| CallWakeup.OwesNothing | native/call.cc:228-294 | the network owes no signal if and only if DONE has been signalled, or the call has no outcome, no teardown asked for and no signal under way and its read is paused or left to another thread to restart |
| CallWakeup.DrainIsFatal | native/cronet.h:3-8 | after another thread's drain the network wakes the polling thread if and only if it owed a signal at the drain |
| CallWakeup.DrainedWaiterIsStuck | native/cronet.h:247-250 | a run in which another thread drains the descriptor leaves a thread polling a call that is over |
| CallProgress.TeardownCompletes | native/c_api.cc:220-229 | once a Destroy is asked for, the network alone reaches DONE, unregistered and released within that bound |
| CallLifecycle.CallRefinesLifecycle | native/call.cc:301-347 | every step of the call protocol is a move the shutdown model allows a call, and Cancel is its cancel |
| Engines.BridgeEngine.Claim | src/cronet/_bridge.py:531-544 | counts the call in exactly when the engine is open |
| Engines.BridgeEngine.Add | src/cronet/_bridge.py:493-499 | adds the handle, and cancels it exactly when close() has gone past |
| Engines.BridgeEngine.BeginClose | src/cronet/_bridge.py:515-520 | only the first closer goes on, and it cancels exactly the live handles |
| Engines.NativeEngine.UnregisterCall | native/engine.cc:198-204 | removes the call and broadcasts exactly when none is left |
| Engines.NativeEngine.BeginDestroy | native/engine.cc:174-180 | shuts down and cancels every live call, with no effect on one that has no request yet, and changes nothing else of any call |
| EngineShutdown.StepKeepsInv | src/cronet/_bridge.py:477-544 | every step of any thread keeps the invariant tying claims, handles, native calls and the closer together |
| EngineShutdown.ReachableInv | src/cronet/_bridge.py:438-445 | so it holds in every state any interleaving reaches |
| EngineShutdown.CountDominates | src/cronet/_bridge.py:534-537 | the native live set is never larger than `_calls_in_flight` |
| EngineShutdown.TeardownIsSafe | src/cronet/_bridge.py:513-523 | cronet_engine_destroy is entered at most once, with nothing registered, no claim held and nobody inside the native engine then or later |
| EngineShutdown.DestroyFindsNothing | native/engine.cc:174-187 | under the Python engine it cancels nothing and waits for nothing |
| EngineShutdown.CloseReachesEveryCall | src/cronet/_bridge.py:493-506 | every live handle is allocated, belongs to one owner and names its own call; once closed, every such call has been asked to stop |
| EngineShutdown.WhoAsksACall | src/cronet/_bridge.py:423-523 | a step asks a call to stop if and only if it is its owner's cancel or free, its own end, the close that finds it owned, or its owner making it known behind a close; no step asks another's call |
| EngineShutdown.WindowIsNeverHit | native/call.cc:454-482 | in the composed system no call is asked to go before it is attached and started, and every allocated handle names a started call |
| EngineProgress.EveryStepCounts | src/cronet/_bridge.py:477-544 | every step of the composed engines leaves the state as it is or lowers a measure over all threads and calls |
| EngineProgress.ClaimantGoesOn | src/cronet/_bridge.py:477-511 | whoever holds a claim and is not an owner can take a step of its own, or the network for it, that changes something; a starting thread registers its call |
| EngineProgress.CloseEnds | src/cronet/_bridge.py:521-523 | from a waiting close() on, at most that many steps change anything, and where nothing more happens unless an owner acts, the wait is over or an owner still has its call |
| EngineShutdown.NativeWindow | native/call.cc:454-482 | the native engine alone has runs in which a cancel is lost, and in which it precedes Start |
| NativeShutdown.DestroyStopsInOrder | native/engine.cc:174-187 | after any run of the native layer from a state without calls, whoever destroys the engine: every live call is then asked to go, none before its Start, if and only if no thread stands between RegisterCall and Start |
| Socks5Types.OneShotSends | patches/0004-socks5-udp-quic.patch:538-803 | only a prefix of greeting, optional authentication and UDP ASSOCIATE is ever sent, all of it on success; success consumes exactly 12, 14, 24 or 26 bytes and nothing past the reply |
| Socks5Association.Association.DoWrite | patches/0004-socks5-udp-quic.patch:538-557 | offers what is left of the message, so that sent plus left is always the whole message |
| Socks5Association.Association.DoWriteComplete | patches/0004-socks5-udp-quic.patch:559-571 | a partial write keeps that, a complete one moves on, an error is the one-shot error |
| Socks5Association.Association.DoRead | patches/0004-socks5-udp-quic.patch:573-583 | asks for no byte past the reply |
| Socks5Association.Association.DoReadComplete | patches/0004-socks5-udp-quic.patch:732-743 | what is buffered is always what the stream holds since the exchange began; an end inside it is the one-shot error |
| Socks5Association.Association.AcceptGreeting | patches/0004-socks5-udp-quic.patch:597-611 | the same branch the one-shot client takes |
| Socks5Association.Association.AcceptAuthentication | patches/0004-socks5-udp-quic.patch:673-682 | the same branch the one-shot client takes |
| Socks5Association.Association.AcceptPrefix | patches/0004-socks5-udp-quic.patch:746-772 | refuses what the one-shot client refuses, and otherwise reads exactly the rest of the reply |
| Socks5Association.Association.AcceptReply | patches/0004-socks5-udp-quic.patch:774-802 | takes the relay the one-shot client takes, or fails as it does |
| Socks5Association.Association.DoLoop | patches/0004-socks5-udp-quic.patch:420-483 | ends or suspends, closer to the end by stage, bytes left or operation issued |
| Socks5Association.Association.ConnectAsync | patches/0004-socks5-udp-quic.patch:379-418 | terminates with the one-shot error or relay, having consumed and sent exactly the one-shot bytes |
| Socks5Association.Connect | patches/0004-socks5-udp-quic.patch:379-483 | fragmentation independence, for every setup, cut and order of completion; and what a proxy that granted the association has read |
| Socks5Reading.SessionIsRead | patches/0004-socks5-udp-quic.patch:538-721 | a proxy that granted an association read the methods 0, and 2 if there is a user name, picked one of them, read exactly the name and the password, in that order, if it picked 2, and a UDP ASSOCIATE for the all-zero IPv4 address |
| Socks5Reading.AnswerIsTaken | patches/0004-socks5-udp-quic.patch:746-803 | every answer a proxy can give, for an IPv4 or IPv6 endpoint and whatever follows it, yields that endpoint, or the proxy's own address with that port for an all-zero one, consuming exactly the answer |
| Socks5Reading.RelayWasAnswered | patches/0004-socks5-udp-quic.patch:746-803 | the converse: behind every relay the stream begins with such an answer |
| Socks5Reading.BrokenWrite | patches/0004-socks5-udp-quic.patch:559-571 | a connection that breaks while writing sends a prefix of what an unbroken one would have sent and ends with its own error; otherwise nothing differs |
| Socks5Reading.Unreachable | patches/0004-socks5-udp-quic.patch:485-536 | without an address or a connection nothing is sent, and which error that is |
| Socks5Reading.GreetingRefused | patches/0004-socks5-udp-quic.patch:585-613 | a wrong version or a method not offered fails after two bytes, a stream that ends before as it ended |
| Socks5Reading.LoginRefused | patches/0004-socks5-udp-quic.patch:661-683 | a login reply that is not 1, 0 fails after four bytes, as unsupported authentication if only the status is wrong |
| Socks5Reading.AssociationRefused | patches/0004-socks5-udp-quic.patch:732-773 | a reply with another version, a status or a type that is neither 1 nor 4 fails after its prefix; one that is cut short, as the stream ended |
| Socks5Datagram.WriteUdpHeader | patches/0004-socks5-udp-quic.patch:300-310 | writes the header of RFC 1928 section 7 and no byte behind it |
| Socks5Datagram.WrappedIsRead | patches/0004-socks5-udp-quic.patch:300-310 | a relay that reads section 7 of RFC 1928 finds in a wrapped payload fragment number 0, the address and port it was wrapped for, and the payload |
| Socks5Datagram.ReceivedIsRead | patches/0004-socks5-udp-quic.patch:852-904 | which error or payload length a datagram gives, by that reading of it with its first three bytes taken for zeros |
| Socks5Datagram.OffsetIsHeaderLength | patches/0004-socks5-udp-quic.patch:314-330 | for every IPv4, IPv6 or named address and every payload, unwrapping gives the payload |
| Socks5Datagram.ParseStaysInside | patches/0004-socks5-udp-quic.patch:314-330 | the parse looks at bytes of the datagram only, and has a result, for all datagrams but those of four bytes that announce a name |
| Socks5Datagram.AbortsExactly | patches/0004-socks5-udp-quic.patch:868-888 | whatever the room, reading a datagram has no result if and only if it is one of those |
| Socks5Datagram.FourBytesAbort | patches/0004-socks5-udp-quic.patch:323-326 | the datagram 0, 0, 0, 3 is one |
| Socks5Datagram.AcceptedIffHeader | patches/0004-socks5-udp-quic.patch:314-330 | a datagram is accepted if and only if it starts with a header, the first three bytes disregarded |
| Socks5Datagram.FragmentsAreNotDropped | patches/0004-socks5-udp-quic.patch:314-330 | the client accepts what RFC 1928 section 7 has it accept, fragments dropped, if and only if the fragment number is zero or there is no header |
| Socks5Datagram.FragmentIsReceived | patches/0004-socks5-udp-quic.patch:314-330 | a well-formed first fragment is delivered as a whole datagram |
| Socks5Datagram.Tunnel.Write | patches/0004-socks5-udp-quic.patch:811-850 | returns the payload length exactly when the whole datagram, header in front, went out; the relay then reads from it an unfragmented payload for the destination |
| Socks5Datagram.Tunnel.Read | patches/0004-socks5-udp-quic.patch:852-904 | takes one datagram and copies out exactly its payload; or fails, or has no result on the datagrams the parse overruns, with the buffer as it was |
| Socks5Datagram.TunnelIsTransparent | patches/0004-socks5-udp-quic.patch:852-904 | a payload is read back whole if and only if it fits and, behind a name, the header fits too |
| Socks5Datagram.LongNameIsRefused | patches/0004-socks5-udp-quic.patch:855-858 | a payload that fills the buffer is refused behind a sixteen-byte name |
| Multipart.Escape | src/cronet/request.py:263-266 | the escaped name can end neither its quoting nor its line |
| Multipart.EscapeKeepsMeaning | src/cronet/request.py:263-266 | undoing the three escapes reads from an escaped name what it reads from the name itself |
| Multipart.EncodeMultipart | src/cronet/request.py:312-342 | the two loops give the body as a list of delimited parts, fields first, each in order |
| Multipart.ClosedIsEncoded | src/cronet/request.py:328-342 | wherever the list is cut, what is written and what is to come make the same body |
| MultipartRoundTrip.NoStraddle | src/cronet/request.py:328-342 | a delimiter that begins inside a content and ends past it does not exist |
| MultipartRoundTrip.FirstDelimiter | src/cronet/request.py:334-340 | the first delimiter of a part ends it if and only if its content, behind a line break, holds none; otherwise it comes earlier |
| MultipartRoundTrip.HeadRoundTrip | src/cronet/request.py:276-281 | the header lines read back give the escaped names and the media type |
| MultipartRoundTrip.RoundTrip | src/cronet/request.py:312-342 | the body reads back as exactly the parts, in order, if and only if no content holds a delimiter or begins with a boundary line |
| MultipartRoundTrip.FormRoundTrip | src/cronet/request.py:284-342 | what is read back is the form the encoder is given if and only if no content is broken: each field with its escaped name and value, each file with its escaped name and filename (the field's name if bare), its type as declared, else as guessed, else application/octet-stream, and its content |
| MultipartRoundTrip.FieldLayout | src/cronet/request.py:329-333 | the text of a field in the body |
| MultipartRoundTrip.FileLayout | src/cronet/request.py:334-340 | the text of a file in the body |
| MultipartRoundTrip.ClosingLayout | src/cronet/request.py:341 | the text that closes the body |
| MultipartRoundTrip.BoundaryLineIsLost | src/cronet/request.py:255-258 | a field whose value is the boundary line holds no delimiter and is lost |
| Redirects.RedirectChain.Receive | src/cronet/request.py:551-579 | the jar always gets the response; then it ends the walk, exceeds the limit or extends the history and trail, each under exactly its condition |
| Redirects.RedirectChain.Result | src/cronet/request.py:581-589 | a response exactly when the walk is over, with the history walked |
| Redirects.Walk | src/cronet/session.py:360-364 | for every limit from 0 and every sequence of answers: where the walk stops and whether it fails, its history, and that the jar saw every answer under its own URL, in at most limit+1 hops |
| Redirects.RedirectObserver.OnReceivedRedirect | native/call.cc:66-82 | follows below the limit; at it, ends as a success for a limit of zero and as a failure otherwise |
| Redirects.FollowNatively | native/call.cc:58-99 | the same stop and verdict for the native observer, its count being the hops followed |
| Redirects.WalkAgreesWithNative | src/cronet/request.py:564-571 | walk and native call stop at the same response with the same verdict if and only if they classify the responses up to there alike, or the limit is zero |
| Redirects.CarriedAlongChain | src/cronet/request.py:469-497 | method and options at every hop in closed form, from whether GET was forced and whether the chain strayed so far; its URL is the Location resolved against the hop before |
| Redirects.ForcedByFirstMethod | src/cronet/request.py:472-479 | whether GET was forced before a hop depends on the first method and the statuses alone: 303 for anything but HEAD, 301 and 302 for POST |
| Redirects.PassedTwice | src/cronet/request.py:480-495 | dropping for either reason is idempotent and the order of the two does not matter |
| Redirects.GoesOn | src/cronet/request.py:465-481 | a request goes on exactly after an answer with a Location and a status from 300 to 399, with which URL and method |
| Redirects.CredentialsStayHome | src/cronet/request.py:483-488 | from the first hop on another origin on neither a basic nor a bearer credential is among the options, even back at home; before it both are as given |
| Redirects.HeadersStayHome | src/cronet/request.py:489-495 | from that hop on the header lines are those not named authorization or cookie in any case, in order; before it all of them |
| Redirects.BodyGoesWithTheMethod | src/cronet/request.py:472-481 | a body, form, files or json option reaches a hop if and only if no hop before forced GET; other options never change |
| Redirects.HeadStaysHead | src/cronet/request.py:476-479 | a HEAD stays one along any chain |
| Pairs.FilterKeepsOrder | src/cronet/headers.py:56-59 | a filtering comprehension keeps exactly the elements that pass, each once, in their order |
| HeaderOverlay.ValuesByIndex | src/cronet/headers.py:56-59 | the values under a name are those of the pairs whose name folds alike, each once, in order |
| HeaderOverlay.OnlyValue | src/cronet/headers.py:33-37 | a name that occurs once subscripts to that pair's value |
| HeaderOverlay.NamesByIndex | src/cronet/headers.py:39-45 | the order of names is the order of the indices at which a name first appears |
| HeaderOverlay.Iterate | src/cronet/headers.py:39-45 | each name once, in order of first appearance, as first spelled |
| HeaderOverlay.JoinedConcat | src/cronet/headers.py:33-37 | values are joined with a comma and a space, in order |
| HeaderOverlay.MappingAgrees | src/cronet/headers.py:33-59 | membership, subscripting and iteration agree on every name, and the length counts what is iterated |
| HeaderOverlay.WithDefaults | src/cronet/headers.py:69-88 | the two loops compute the overlay the following rows are about |
| HeaderOverlay.OwnElseDefault | src/cronet/headers.py:69-88 | under each folded name the request's pairs if it has any, else the defaults', in order |
| HeaderOverlay.OverlayLookup | src/cronet/headers.py:33-37 | looking a name up in the overlay is looking it up in the request's headers, else in the defaults |
| HeaderOverlay.UntouchedKeepOrder | src/cronet/headers.py:80-83 | defaults not overridden keep their order, repeats included |
| HeaderOverlay.OverriddenGroup | src/cronet/headers.py:84-86 | an overridden name's values stand together where the name first stands among the defaults, and nowhere else |
| HeaderOverlay.OverlayOrder | src/cronet/headers.py:72-75 | names go in the defaults' order, then the request's new names in theirs |
| HeaderOverlay.OverlayConserves | src/cronet/headers.py:77-88 | the pairs are the request's and the defaults not overridden, each as often as there |
| ExtensionOrder.SetExtensionOrder | patches/0002-tls-profile-boringssl.patch:153-198 | succeeds, given memory, if and only if every type is implemented and none repeats, and then stores the named indices in order and the rest ascending, a permutation; an empty list resets; a failure changes nothing |
| ExtensionOrder.OrderIsUnique | patches/0002-tls-profile-boringssl.patch:169-194 | there is only one such order |
| ExtensionOrder.DuplicateCheckIsExact | src/cronet/tls.py:91-92 | comparing the two counts detects exactly the repetitions |
| ExtensionOrder.CheckedOrderIsAccepted | patches/0001-tls-profile-net.patch:385-395 | what is left after the duplicate check and the removal is always accepted |
| ExtensionOrder.AcceptedExactly | patches/0001-tls-profile-net.patch:385-395 | without the first check it is accepted if and only if no implemented extension repeats |
| ExtensionOrder.ApplyProfile | patches/0001-tls-profile-net.patch:354-361 | succeeds if and only if nothing is left or there is memory and no implemented extension repeats; the implemented ones are then stored in the profile's own order and the rest behind them; a checked profile fails only for want of memory |

## Left out

- Chromium itself: CronetURLRequest, CronetContext, the resolver, the sockets and the TLS library beyond one function are environments with the contracts stated above and in the modules; the table of extensions, whose indices are taken to fit the bytes they are stored in, is a parameter.
- CallWakeup.WaiterIsWoken: that the network thread does run is not part of this model, nor that a thread told to resume does; a run in which they never move is a run.
- CallState.CallState.Finish: the plain stores of the publication and the three error fields are one step in the interleaved protocol; nobody else may read them before DONE, except through the result after EOF, which looks at the message only when the code, stored last, is not zero.
- Weak memory: the interleaved steps are sequentially consistent; that the acquire and release orders of the state suffice for the plain fields is not part of this model.
- Timeouts: `_countdown` and the timed waits may run out at any moment; durations are not part of this model. Condition variables and events are conditions a step waits for.
- Memory: object and buffer lifetimes, reference counts and the pointers of ResponseStorage::Publish are not part of this model; only the allocation and freeing of call handles is.
- The weak-reference finalizer of an engine that is never closed, exceptions raised inside the native calls, NetLog beyond its claim, proxy configuration hooks and the conversion of metrics.
- EngineProgress.CloseEnds: close() waits for owners that have not closed their calls; that they do is up to the caller.
- Socks5Association.Association.AcceptAuthentication: reads the reply as a value; the source resets the buffer its span points into (line 674) before it reads the span (lines 675 and 678), and whether the bytes are still there then is not part of this model, nor of what Socks5Association.Connect says of that path.
- Socks5Association.Association.DoReadComplete: the three read completions differ in their buffers only and share one method here, as do the three writes and the three reads; credentials are at most 255 bytes each, as RFC 1929 has them.
- Socks5Datagram.Tunnel.Read: the socket below reports a datagram longer than its buffer as an error, and an asynchronous completion unwraps as a synchronous one does.
- Multipart.EncodeMultipart: text is its UTF-8 bytes; guessing a media type and drawing a boundary are parameters.
- MultipartRoundTrip.RoundTrip: the boundary has no carriage return and media types have no line breaks; the encoder checks neither, the generated boundary and the guessed types comply.
- Redirects.Walk: a negative limit, which the native side reads as 20 and the walk does not treat specially. URL joining, origins and case folding are parameters, and so is the classification of redirects by the network stack.
- Redirects.CredentialsStayHome: speaks of the options of one request; a session's own default headers and its cookie jar are laid over every hop again.
- Percent-encoding, base64, JSON, cookie storage, error-code classification, option checks, ctypes marshalling and the generated bindings: tables and library wrappers with nothing across functions to prove.
- The proxy authentication of `patches/0003-socks5-auth.patch`: the same subnegotiation inside a handshake that is not part of this model.
