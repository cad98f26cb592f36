/** The redirect walk of src/cronet/request.py and the native observer it stands in
    for (native/call.cc). Text is opaque here: splitting, joining and folding it are
    functions of the environment. */
module Redirects {
  import opened Prelude
  import opened Pairs

  type Origin = (string, string, Option<int>)

  datatype Web = Web(origin: string -> Origin, join: (string, string) -> string,
                     upper: string -> string, lower: string -> string)

  datatype Key = Headers | Body | Form | Files | Json | BasicAuth | BearerAuth | Other(name: string)
  datatype Value = Lines(pairs: seq<Pair>) | Opaque(text: string)
  type Options = map<Key, Value>

  const BODY: set<Key> := {Body, Form, Files, Json}
  const CREDENTIALS: set<Key> := {BasicAuth, BearerAuth}

  /** A response as far as the walk looks at it; no Location is the empty one. */
  datatype Response = Response(status: int, location: string)

  datatype Hop = Hop(verb: string, url: string, options: Options)

  // --- One hop --------------------------------------------------------------------

  predicate Redirecting(r: Response) {
    r.location != "" && 300 <= r.status < 400
  }

  predicate ForcesGet(web: Web, verb: string, status: int) {
    || (status == 303 && web.upper(verb) != "HEAD")
    || ((status == 301 || status == 302) && web.upper(verb) == "POST")
  }

  /** The lines Headers(options.get("headers")) holds. */
  function HeaderLines(options: Options): seq<Pair> {
    if Headers in options && options[Headers].Lines? then options[Headers].pairs else []
  }

  predicate Sensitive(web: Web, line: Pair) {
    web.lower(line.0) == "authorization" || web.lower(line.0) == "cookie"
  }

  function Harmless(web: Web): Pair -> bool {
    line => !Sensitive(web, line)
  }

  /** The options without what belongs to the origin that was left. */
  function Stripped(web: Web, options: Options): Options {
    var carried := options - CREDENTIALS;
    var lines := HeaderLines(options);
    if exists line :: line in lines && Sensitive(web, line)
    then carried[Headers := Lines(Filter(lines, Harmless(web)))]
    else carried
  }

  /** What a hop passes on. */
  function Passed(web: Web, options: Options, forced: bool, crossed: bool): Options {
    var carried := if forced then options - BODY else options;
    if crossed then Stripped(web, carried) else carried
  }

  function NextHop(web: Web, hop: Hop, r: Response): Option<Hop> {
    if !Redirecting(r) then None
    else
      var target := web.join(hop.url, r.location);
      var forced := ForcesGet(web, hop.verb, r.status);
      var crossed := web.origin(hop.url) != web.origin(target);
      Some(Hop(if forced then "GET" else hop.verb, target, Passed(web, hop.options, forced, crossed)))
  }

  // --- The chain ------------------------------------------------------------------

  /** The hops of a walk: each follows from the one before it and its answer. */
  ghost predicate IsTrail(web: Web, trail: seq<Hop>, answers: seq<Response>) {
    && |trail| == |answers| + 1
    && forall i :: 0 <= i < |answers| ==> NextHop(web, trail[i], answers[i]) == Some(trail[i + 1])
  }

  datatype Finished = Finished(response: Response, history: seq<Response>)
  datatype Receipt = Taken | TooMany | AlreadyFinished

  class RedirectChain {
    const web: Web
    const limit: nat
    const start: Hop
    var pending: Option<Hop>
    var history: seq<Response>
    var final: Option<Finished>
    /** Every response the cookie jar was given, with the URL that produced it. */
    var jar: seq<(string, Response)>
    ghost var trail: seq<Hop>

    ghost predicate Valid()
      reads this
    {
      && IsTrail(web, trail, history) && trail[0] == start
      && |history| <= limit
      && (pending.None? <==> final.Some?)
      && (pending.Some? ==> pending.value == trail[|history|])
      && (final.Some? ==> final.value.history == history && (limit == 0 || !Redirecting(final.value.response)))
    }

    constructor (web: Web, start: Hop, limit: nat)
      ensures Valid() && this.web == web && this.start == start && this.limit == limit
      ensures pending == Some(start) && history == [] && jar == [] && trail == [start]
    {
      this.web, this.start, this.limit := web, start, limit;
      pending, history, final, jar, trail := Some(start), [], None, [], [start];
    }

    method Receive(response: Response) returns (receipt: Receipt)
      requires Valid()
      modifies this
      ensures Valid()
      ensures receipt == AlreadyFinished <==> old(pending).None?
      ensures receipt == TooMany <==> old(pending).Some? && Redirecting(response) && 0 < limit == |old(history)|
      ensures receipt == AlreadyFinished ==> unchanged(this)
      ensures old(pending).Some? ==> jar == old(jar) + [(old(pending).value.url, response)]
      ensures receipt == TooMany ==> unchanged(`pending, `history, `final, `trail)
      ensures receipt == Taken && pending.Some? ==>
                history == old(history) + [response] && trail == old(trail) + [pending.value] && Redirecting(response)
      ensures receipt == Taken && pending.None? ==>
                && final == Some(Finished(response, history)) && history == old(history) && trail == old(trail)
                && (limit == 0 || !Redirecting(response))
      ensures receipt == Taken && limit == 0 ==> pending.None?
    {
      if pending.None? { return AlreadyFinished; }
      jar := jar + [(pending.value.url, response)];
      var hop := NextHop(web, pending.value, response);
      if hop.None? || limit == 0 {
        final := Some(Finished(response, history));
        pending := None;
        return Taken;
      }
      if |history| >= limit { return TooMany; }
      history := history + [response];
      trail := trail + [hop.value];
      pending := hop;
      return Taken;
    }

    method Result() returns (r: Option<Finished>)
      requires Valid()
      ensures r.Some? <==> pending.None?
      ensures r.Some? ==> r.value.history == history && (limit == 0 || !Redirecting(r.value.response))
    {
      r := final;
    }
  }

  // --- Where a walk stops ---------------------------------------------------------

  /** Which answer ended a walk, and whether that is a failure. */
  datatype Ending = Ending(stop: nat, tooMany: bool)

  /** How many answers in a row are redirects, counted up to `cap`. */
  function Leading(redirect: Response -> bool, answers: nat -> Response, from: nat, cap: nat): (n: nat)
    ensures n <= cap
    ensures forall i :: from <= i < from + n ==> redirect(answers(i))
    ensures n < cap ==> !redirect(answers(from + n))
    decreases cap
  {
    if cap == 0 || !redirect(answers(from)) then 0
    else 1 + Leading(redirect, answers, from + 1, cap - 1)
  }

  lemma {:induction false} LeadingIs(redirect: Response -> bool, answers: nat -> Response, from: nat, cap: nat, n: nat)
    requires n <= cap
    requires forall i :: from <= i < from + n ==> redirect(answers(i))
    requires n < cap ==> !redirect(answers(from + n))
    ensures Leading(redirect, answers, from, cap) == n
    decreases n
  {
    if n > 0 {
      assert redirect(answers(from));
      LeadingIs(redirect, answers, from + 1, cap - 1, n - 1);
    }
  }

  /** A limit of zero hands back whatever comes first; any other is a failure once
      one redirect more than it has been met. */
  function Outcome(redirect: Response -> bool, answers: nat -> Response, limit: nat): Ending {
    var n := Leading(redirect, answers, 0, limit + 1);
    if limit == 0 then Ending(0, false) else Ending(Min(n, limit), n > limit)
  }

  lemma StopsAt(redirect: Response -> bool, answers: nat -> Response, limit: nat, n: nat)
    requires n <= limit && forall k :: 0 <= k < n ==> redirect(answers(k))
    requires limit == 0 || !redirect(answers(n))
    ensures Outcome(redirect, answers, limit) == Ending(n, false)
  {
    if limit > 0 {
      LeadingIs(redirect, answers, 0, limit + 1, n);
    }
  }

  lemma RunsOut(redirect: Response -> bool, answers: nat -> Response, limit: nat)
    requires forall k :: 0 <= k <= limit ==> redirect(answers(k))
    ensures Outcome(redirect, answers, limit) == Ending(limit, limit > 0)
  {
    LeadingIs(redirect, answers, 0, limit + 1, limit + 1);
  }

  /** The loop of Session.request, its answers whatever the servers give. */
  method Walk(web: Web, start: Hop, limit: nat, answers: nat -> Response)
    returns (chain: RedirectChain, end: Ending)
    ensures fresh(chain) && chain.Valid() && chain.web == web && chain.start == start
    ensures end == Outcome(Redirecting, answers, limit)
    ensures |chain.history| == end.stop && forall i :: 0 <= i < end.stop ==> chain.history[i] == answers(i)
    ensures chain.final == if end.tooMany then None else Some(Finished(answers(end.stop), chain.history))
    ensures |chain.trail| == |chain.jar| == end.stop + 1 <= limit + 1
    ensures forall i :: 0 <= i < |chain.jar| ==> chain.jar[i] == (chain.trail[i].url, answers(i))
  {
    chain := new RedirectChain(web, start, limit);
    var i := 0;
    while chain.pending.Some?
      invariant fresh(chain) && chain.Valid() && chain.web == web && chain.start == start && chain.limit == limit
      invariant chain.pending.Some? ==> |chain.history| == i == |chain.jar| && (limit == 0 ==> i == 0)
      invariant chain.pending.None? ==>
                  && i >= 1 && |chain.history| == i - 1 && |chain.jar| == i
                  && chain.final.value.response == answers(i - 1) && (limit == 0 || !Redirecting(answers(i - 1)))
      invariant forall k :: 0 <= k < |chain.history| ==> chain.history[k] == answers(k) && Redirecting(answers(k))
      invariant forall k :: 0 <= k < |chain.jar| ==> chain.jar[k] == (chain.trail[k].url, answers(k))
      decreases chain.pending.Some?, limit + 1 - i
    {
      var receipt := chain.Receive(answers(i));
      if receipt == TooMany {
        end := Ending(i, true);
        RunsOut(Redirecting, answers, limit);
        return;
      }
      i := i + 1;
    }
    end := Ending(i - 1, false);
    StopsAt(Redirecting, answers, limit, i - 1);
  }

  // --- The native side ------------------------------------------------------------

  /** The part of RequestObserver that counts redirects. */
  class RedirectObserver {
    const maxRedirects: nat
    var redirectCount: nat

    constructor (maxRedirects: nat)
      ensures this.maxRedirects == maxRedirects && redirectCount == 0
    {
      this.maxRedirects, redirectCount := maxRedirects, 0;
    }

    /** None to follow; otherwise whether the call ends in a failure. */
    method OnReceivedRedirect() returns (failure: Option<bool>)
      modifies this
      ensures failure.Some? <==> old(redirectCount) >= maxRedirects
      ensures failure.Some? ==> failure.value == (maxRedirects > 0) && redirectCount == old(redirectCount)
      ensures failure.None? ==> redirectCount == old(redirectCount) + 1
    {
      if redirectCount >= maxRedirects {
        return Some(maxRedirects != 0);
      }
      redirectCount := redirectCount + 1;
      return None;
    }
  }

  /** A call that follows natively, the network stack deciding what a redirect is. */
  method FollowNatively(limit: nat, answers: nat -> Response, redirect: Response -> bool)
    returns (end: Ending, count: nat)
    ensures end == Outcome(redirect, answers, limit)
    ensures count == end.stop
  {
    var observer := new RedirectObserver(limit);
    var i := 0;
    while redirect(answers(i))
      invariant fresh(observer) && observer.maxRedirects == limit && observer.redirectCount == i <= limit
      invariant forall k :: 0 <= k < i ==> redirect(answers(k))
      decreases limit - i
    {
      var failure := observer.OnReceivedRedirect();
      if failure.Some? {
        RunsOut(redirect, answers, limit);
        return Ending(i, failure.value), observer.redirectCount;
      }
      i := i + 1;
    }
    StopsAt(redirect, answers, limit, i);
    return Ending(i, false), observer.redirectCount;
  }

  /** The walk and the native call end at the same response with the same verdict
      exactly when, up to the response the walk stops at, the two sides take the
      same responses for redirects (or none are wanted). */
  lemma WalkAgreesWithNative(answers: nat -> Response, native: Response -> bool, limit: nat)
    ensures Outcome(Redirecting, answers, limit) == Outcome(native, answers, limit)
            <==> limit == 0
                 || forall i :: 0 <= i <= Outcome(Redirecting, answers, limit).stop ==>
                      Redirecting(answers(i)) == native(answers(i))
  {
    var n := Leading(Redirecting, answers, 0, limit + 1);
    var m := Leading(native, answers, 0, limit + 1);
    if limit > 0 {
      var same := forall i :: 0 <= i <= Min(n, limit) ==> Redirecting(answers(i)) == native(answers(i));
      if same {
        if n <= limit {
          assert Redirecting(answers(n)) == native(answers(n));
        }
        LeadingIs(native, answers, 0, limit + 1, n);
      }
      if n == m {
        forall i | 0 <= i <= Min(n, limit)
          ensures Redirecting(answers(i)) == native(answers(i))
        {
          if i < n {
            assert Redirecting(answers(i)) && native(answers(i));
          } else {
            assert !Redirecting(answers(0 + n)) && !native(answers(0 + m));
          }
        }
      }
    }
  }

  // --- What a chain carries -------------------------------------------------------

  /** Some hop before the j-th was answered with a change to GET. */
  ghost predicate Forced(web: Web, trail: seq<Hop>, answers: seq<Response>, j: nat)
    requires j < |trail| == |answers| + 1
  {
    exists i :: 0 <= i < j && ForcesGet(web, trail[i].verb, answers[i].status)
  }

  /** Some hop up to the j-th is not on the first one's origin. */
  ghost predicate Strayed(web: Web, trail: seq<Hop>, j: nat)
    requires j < |trail|
  {
    exists i :: 0 <= i <= j && web.origin(trail[i].url) != web.origin(trail[0].url)
  }

  /** The hop from j leaves the origin it is on. */
  ghost predicate Crosses(web: Web, trail: seq<Hop>, j: nat)
    requires j + 1 < |trail|
  {
    web.origin(trail[j].url) != web.origin(trail[j + 1].url)
  }

  lemma ForcedStep(web: Web, trail: seq<Hop>, answers: seq<Response>, j: nat)
    requires j + 1 < |trail| == |answers| + 1
    ensures Forced(web, trail, answers, j + 1)
            <==> Forced(web, trail, answers, j) || ForcesGet(web, trail[j].verb, answers[j].status)
  {
  }

  /** Leaving an origin is straying: as long as the chain has not strayed, the origin
      it leaves is the first. */
  lemma StrayedStep(web: Web, trail: seq<Hop>, j: nat)
    requires j + 1 < |trail|
    ensures Strayed(web, trail, j + 1) <==> Strayed(web, trail, j) || Crosses(web, trail, j)
  {
    if !Strayed(web, trail, j) {
      assert web.origin(trail[j].url) == web.origin(trail[0].url);
      if Crosses(web, trail, j) {
        assert web.origin(trail[j + 1].url) != web.origin(trail[0].url);
      }
    }
  }

  /** Passing options on twice is passing them on once, for both reasons. */
  lemma PassedTwice(web: Web, options: Options, forced: bool, crossed: bool, forced': bool, crossed': bool)
    ensures Passed(web, Passed(web, options, forced, crossed), forced', crossed')
            == Passed(web, options, forced || forced', crossed || crossed')
  {
    var bare := if forced then options - BODY else options;
    if crossed {
      StrippedWithoutBody(web, bare);
      StrippedTwice(web, if forced' then bare - BODY else bare);
    }
    assert (options - BODY) - BODY == options - BODY;
  }

  lemma StrippedWithoutBody(web: Web, options: Options)
    ensures Stripped(web, options) - BODY == Stripped(web, options - BODY)
  {
    assert HeaderLines(options - BODY) == HeaderLines(options);
  }

  lemma StrippedTwice(web: Web, options: Options)
    ensures Stripped(web, Stripped(web, options)) == Stripped(web, options)
    ensures HeaderLines(Stripped(web, options)) == Filter(HeaderLines(options), Harmless(web))
  {
    var lines, once := HeaderLines(options), Stripped(web, options);
    forall line | line in Filter(lines, Harmless(web))
      ensures !Sensitive(web, line)
    {
      FilterMember(lines, Harmless(web), line);
    }
    if !exists line :: line in lines && Sensitive(web, line) {
      FilterAll(lines, Harmless(web));
    }
    assert HeaderLines(once) == Filter(lines, Harmless(web));
    assert once - CREDENTIALS == once;
  }

  /** What reaches the j-th hop depends on two questions about the whole chain before
      it, not on the order in which they were answered. */
  lemma {:induction false} CarriedAlongChain(web: Web, trail: seq<Hop>, answers: seq<Response>, j: nat)
    requires IsTrail(web, trail, answers) && j < |trail|
    ensures trail[j].options
            == Passed(web, trail[0].options, Forced(web, trail, answers, j), Strayed(web, trail, j))
    ensures trail[j].verb == if Forced(web, trail, answers, j) then "GET" else trail[0].verb
    ensures j > 0 ==> trail[j].url == web.join(trail[j - 1].url, answers[j - 1].location)
  {
    if j > 0 {
      var i := j - 1;
      CarriedAlongChain(web, trail, answers, i);
      ForcedStep(web, trail, answers, i);
      StrayedStep(web, trail, i);
      assert NextHop(web, trail[i], answers[i]) == Some(trail[i + 1]);
      var forced := ForcesGet(web, trail[i].verb, answers[i].status);
      PassedTwice(web, trail[0].options, Forced(web, trail, answers, i), Strayed(web, trail, i),
                  forced, Crosses(web, trail, i));
    } else {
      assert !Strayed(web, trail, 0);
    }
  }

  /** An answer sends a request on exactly when it has a Location and a status from
      300 to 399, a 304 or a 308 as much as a 302; a GET is forced by a 303 on all
      but a HEAD, and by a 301 or a 302 on a POST. */
  lemma GoesOn(web: Web, hop: Hop, r: Response)
    ensures NextHop(web, hop, r).Some? <==> r.location != "" && r.status >= 300 && r.status <= 399
    ensures var next := NextHop(web, hop, r);
            next.Some? ==>
              && next.value.url == web.join(hop.url, r.location)
              && next.value.verb == if (r.status == 303 && web.upper(hop.verb) != "HEAD")
                                       || (r.status in {301, 302} && web.upper(hop.verb) == "POST")
                                    then "GET" else hop.verb
  {
  }

  /** Credentials reach a hop exactly when no hop so far was on another origin: once
      dropped they never come back, even at home. */
  lemma CredentialsStayHome(web: Web, trail: seq<Hop>, answers: seq<Response>, j: nat)
    requires IsTrail(web, trail, answers) && j < |trail|
    ensures var first, now := trail[0].options, trail[j].options;
            && (Strayed(web, trail, j) ==> BasicAuth !in now && BearerAuth !in now)
            && (!Strayed(web, trail, j) ==>
                  && (BasicAuth in now <==> BasicAuth in first) && (BearerAuth in now <==> BearerAuth in first)
                  && (BasicAuth in now ==> now[BasicAuth] == first[BasicAuth])
                  && (BearerAuth in now ==> now[BearerAuth] == first[BearerAuth]))
  {
    CarriedAlongChain(web, trail, answers, j);
  }

  /** So do the header lines that hold credentials; the others always arrive, in
      their order, and so do headers that are no lines. */
  lemma HeadersStayHome(web: Web, trail: seq<Hop>, answers: seq<Response>, j: nat)
    requires IsTrail(web, trail, answers) && j < |trail|
    ensures var first, now := trail[0].options, trail[j].options;
            && (Headers in now <==> Headers in first)
            && (Headers in first && first[Headers].Opaque? ==> now[Headers] == first[Headers])
            && (Headers in first && first[Headers].Lines? && !Strayed(web, trail, j) ==> now[Headers] == first[Headers])
            && (Headers in first && first[Headers].Lines? && Strayed(web, trail, j) ==>
                  now[Headers] == Lines(Filter(first[Headers].pairs, (line: Pair) =>
                    web.lower(line.0) != "authorization" && web.lower(line.0) != "cookie")))
    ensures Strayed(web, trail, j) && Headers in trail[j].options && trail[j].options[Headers].Lines? ==>
              forall line :: line in trail[j].options[Headers].pairs ==>
                web.lower(line.0) != "authorization" && web.lower(line.0) != "cookie"
  {
    CarriedAlongChain(web, trail, answers, j);
    var first := trail[0].options;
    var bare := if Forced(web, trail, answers, j) then first - BODY else first;
    var harmless := (line: Pair) => web.lower(line.0) != "authorization" && web.lower(line.0) != "cookie";
    assert HeaderLines(bare) == HeaderLines(first);
    assert Headers in bare <==> Headers in first;
    StrippedLines(web, bare);
    FilterAgrees(HeaderLines(first), Harmless(web), harmless);
    forall line | line in Filter(HeaderLines(first), harmless)
      ensures harmless(line)
    {
      FilterMember(HeaderLines(first), harmless, line);
    }
  }

  lemma StrippedLines(web: Web, options: Options)
    ensures var once := Stripped(web, options);
            && (Headers in once <==> Headers in options)
            && (Headers in options && options[Headers].Opaque? ==> once[Headers] == options[Headers])
            && (Headers in options && options[Headers].Lines? ==>
                  once[Headers] == Lines(Filter(options[Headers].pairs, Harmless(web))))
  {
    var lines := HeaderLines(options);
    if !exists line :: line in lines && Sensitive(web, line) {
      FilterAll(lines, Harmless(web));
    } else {
      assert Headers in options;
    }
  }

  /** The body goes at the first change to GET and at nothing else; options that are
      neither body, credentials nor headers never change. */
  lemma BodyGoesWithTheMethod(web: Web, trail: seq<Hop>, answers: seq<Response>, j: nat, key: Key)
    requires IsTrail(web, trail, answers) && j < |trail|
    ensures key in {Body, Form, Files, Json} ==>
              (key in trail[j].options <==> key in trail[0].options && !Forced(web, trail, answers, j))
    ensures key.Other? ==> (key in trail[j].options <==> key in trail[0].options)
    ensures key != Headers && key in trail[j].options ==> key in trail[0].options && trail[j].options[key] == trail[0].options[key]
  {
    CarriedAlongChain(web, trail, answers, j);
  }

  /** Whether GET is forced depends on the first method and the statuses alone: a
      303 forces it on anything but a HEAD, a 301 or 302 on a POST. The methods the
      chain changes to on the way make no difference. */
  lemma {:induction false} ForcedByFirstMethod(web: Web, trail: seq<Hop>, answers: seq<Response>, j: nat)
    requires IsTrail(web, trail, answers) && j < |trail|
    ensures var first := web.upper(trail[0].verb);
            Forced(web, trail, answers, j)
            <==> exists i :: 0 <= i < j && (|| (answers[i].status == 303 && first != "HEAD")
                                            || (answers[i].status in {301, 302} && first == "POST"))
  {
    if j > 0 {
      var i := j - 1;
      ForcedByFirstMethod(web, trail, answers, i);
      ForcedStep(web, trail, answers, i);
      CarriedAlongChain(web, trail, answers, i);
      var status, first := answers[i].status, web.upper(trail[0].verb);
      assert !Forced(web, trail, answers, i) ==>
          (ForcesGet(web, trail[i].verb, status)
           <==> (status == 303 && first != "HEAD") || (status in {301, 302} && first == "POST"));
    }
  }

  /** A HEAD stays a HEAD, whatever the servers answer. */
  lemma {:induction false} HeadStaysHead(web: Web, trail: seq<Hop>, answers: seq<Response>, j: nat)
    requires IsTrail(web, trail, answers) && j < |trail|
    requires web.upper(trail[0].verb) == "HEAD"
    ensures trail[j].verb == trail[0].verb && !Forced(web, trail, answers, j)
  {
    if j > 0 {
      HeadStaysHead(web, trail, answers, j - 1);
      ForcedStep(web, trail, answers, j - 1);
      assert NextHop(web, trail[j - 1], answers[j - 1]) == Some(trail[j]);
    }
  }
}
