/** The proxy's side of the conversation: RFC 1928 and RFC 1929 read and written in
    their own numbers, to say what the client's bytes mean and what its answer to
    the proxy's bytes is. */
module Socks5Reading {
  import opened Prelude
  import opened Socks5Types

  datatype Login = Login(name: seq<byte>, password: seq<byte>)

  /** What a proxy makes of all a client sent. */
  datatype Session = Session(
    methods: seq<byte>, login: Option<Login>, command: byte, address: seq<byte>, port: nat)

  /** Section 3 of RFC 1928: the version, a count and as many methods. */
  function ReadMethods(wire: seq<byte>): (r: Option<(seq<byte>, seq<byte>)>) {
    if |wire| < 2 || wire[0] != 5 || |wire| < 2 + wire[1] as int then None
    else Some((wire[2..2 + wire[1]], wire[2 + wire[1]..]))
  }

  /** Section 2 of RFC 1929: the version, then name and password, each behind its
      length. */
  function ReadLogin(wire: seq<byte>): (r: Option<(Login, seq<byte>)>) {
    if |wire| < 2 || wire[0] != 1 || |wire| < 3 + wire[1] as int then None
    else
      var rest := wire[2 + wire[1]..];
      if |rest| < 1 + rest[0] as int then None
      else Some((Login(wire[2..2 + wire[1]], rest[1..1 + rest[0]]), rest[1 + rest[0]..]))
  }

  /** Section 4 of RFC 1928, for an IPv4 address: the version, the command, a zero,
      the type 1, the address and the port, and nothing behind it. */
  function ReadRequest(wire: seq<byte>): (r: Option<(byte, seq<byte>, nat)>) {
    if |wire| != 10 || wire[0] != 5 || wire[2] != 0 || wire[3] != 1 then None
    else Some((wire[1], wire[4..8], 256 * wire[8] as int + wire[9] as int))
  }

  /** The whole conversation of a client whose proxy picked `method`. */
  function ReadSession(wire: seq<byte>, picked: byte): (r: Option<Session>) {
    match ReadMethods(wire)
    case None => None
    case Some((methods, rest)) =>
      match if picked == 2 then ReadLogin(rest) else Some((Login([], []), rest))
      case None => None
      case Some((login, tail)) =>
        match ReadRequest(tail)
        case None => None
        case Some((command, address, port)) =>
          Some(Session(methods, if picked == 2 then Some(login) else None, command, address, port))
  }

  /** Section 6 of RFC 1928: the reply that grants an endpoint, high byte of the port
      first. */
  function Reply(reserved: byte, address: seq<byte>, port: nat): (wire: seq<byte>)
    requires |address| in {4, 16} && port < 65536
  {
    [5, 0, reserved, if |address| == 4 then 1 else 4] + address + [port / 256, port % 256]
  }

  /** What a willing proxy answers: the method it picked, a successful login if that
      is 2, and the reply. */
  function Answer(picked: byte, reserved: byte, address: seq<byte>, port: nat): (wire: seq<byte>)
    requires |address| in {4, 16} && port < 65536
  {
    [5, picked] + (if picked == 2 then [1, 0] else []) + Reply(reserved, address, port)
  }

  /** The ways to begin a conversation at all. */
  predicate Reaches(c: Setup) {
    (c.literal || (c.lookup.None? && c.addresses > 0)) && c.connect.None?
  }

  predicate Offers(c: Setup, picked: byte) {
    picked == 0 || (picked == 2 && c.username != [])
  }

  // --- What the messages mean -------------------------------------------------------

  lemma LoginIsRead(c: Setup, tail: seq<byte>)
    requires c.Valid()
    ensures ReadLogin(Message(c, Auth) + tail) == Some((Login(c.username, c.password), tail))
  {
    var wire, n := Message(c, Auth) + tail, |c.username|;
    assert wire == [1, n] + c.username + ([|c.password|] + c.password + tail);
    assert wire[2 + n..] == [|c.password|] + c.password + tail;
    assert wire[2..2 + n] == c.username;
  }

  lemma MethodsAreRead(c: Setup, tail: seq<byte>)
    requires c.Valid()
    ensures ReadMethods(Message(c, Greet) + tail) == Some((if c.username == [] then [0] else [0, 2], tail))
  {
    var wire := Message(c, Greet) + tail;
    if c.username == [] {
      assert wire[2..3] == [0];
    } else {
      assert wire[2..4] == [0, 2];
    }
  }

  lemma RequestIsRead(c: Setup)
    requires c.Valid()
    ensures ReadRequest(Message(c, Associate)) == Some((3, [0, 0, 0, 0], 0))
  {
    assert Message(c, Associate)[4..8] == [0, 0, 0, 0];
  }

  /** The bytes behind an association, in the three messages' own terms. */
  lemma AssociatedSends(c: Setup)
    requires c.Valid() && OneShot(c).relay.Some?
    ensures 2 <= |c.stream| && Offers(c, c.stream[1])
    ensures OneShot(c).sent == Message(c, Greet)
                               + ((if c.stream[1] == 2 then Message(c, Auth) else []) + Message(c, Associate))
  {
    var g, a, u := Message(c, Greet), Message(c, Auth), Message(c, Associate);
    assert [] + g == g;
    AuthSends(c, 2, g);
    AssociateSends(c, 2, g);
    assert g + a + u == g + (a + u) && g + u == g + ([] + u);
  }

  /** A proxy that granted an association was offered exactly the methods the client
      has, picked one of them, was given the name and the password as such if that
      was the password method, and was asked for a UDP association from nowhere in
      particular. */
  lemma SessionIsRead(c: Setup)
    requires c.Valid() && OneShot(c).relay.Some?
    ensures 2 <= |c.stream| && Offers(c, c.stream[1])
    ensures ReadSession(OneShot(c).sent, c.stream[1])
            == Some(Session(if c.username == [] then [0] else [0, 2],
                            if c.stream[1] == 2 then Some(Login(c.username, c.password)) else None,
                            3, [0, 0, 0, 0], 0))
  {
    AssociatedSends(c);
    var u := Message(c, Associate);
    var rest := (if c.stream[1] == 2 then Message(c, Auth) else []) + u;
    MethodsAreRead(c, rest);
    LoginIsRead(c, u);
    RequestIsRead(c);
    assert c.stream[1] != 2 ==> rest == u;
  }

  // --- What the client makes of an answer -------------------------------------------

  lemma ReplyParts(reserved: byte, address: seq<byte>, port: nat, extra: seq<byte>)
    requires |address| in {4, 16} && port < 65536
    ensures var reply, n := Reply(reserved, address, port) + extra, |address|;
            && |reply| == 6 + n + |extra|
            && reply[0] == 5 && reply[1] == 0 && reply[3] == (if n == 4 then 1 else 4)
            && reply[4..4 + n] == address
            && reply[4 + n] == port / 256 && reply[5 + n] == port % 256
  {
    var reply, n := Reply(reserved, address, port) + extra, |address|;
    assert forall i :: 0 <= i < n ==> reply[4 + i] == address[i];
  }

  lemma ReplyTaken(c: Setup, at: nat, sent: seq<byte>, reserved: byte, address: seq<byte>, port: nat, extra: seq<byte>)
    requires |address| in {4, 16} && port < 65536 && at <= |c.stream|
    requires c.stream[at..] == Reply(reserved, address, port) + extra
    ensures WholeReply(c, at, sent)
            == if address == seq(|address|, _ => 0) && c.peerError.Some?
               then Verdict(Some(c.peerError.value), None, at + 6 + |address|, sent)
               else Verdict(c.udpConnect, Some(Endpoint(if address == seq(|address|, _ => 0) then c.peer else address, port)),
                            at + 6 + |address|, sent)
  {
    ReplyParts(reserved, address, port, extra);
    assert AllZero(address) <==> address == seq(|address|, _ => 0);
  }

  /** The length of an answer to a client that was asked for a login or was not. */
  function AnswerLength(picked: byte, address: seq<byte>): nat {
    (if picked == 2 then 10 else 8) + |address|
  }

  /** Every answer is taken as it was meant, whatever follows it: the endpoint it
      names is the relay, or the proxy itself if it names none, and none of what
      follows is consumed. */
  lemma AnswerIsTaken(c: Setup, picked: byte, reserved: byte, address: seq<byte>, port: nat, extra: seq<byte>)
    requires c.Valid() && Reaches(c) && Offers(c, picked) && c.writeLimit >= 527
    requires |address| in {4, 16} && port < 65536
    requires c.stream == Answer(picked, reserved, address, port) + extra
    ensures var v, nowhere := OneShot(c), address == seq(|address|, _ => 0);
            && v.consumed == AnswerLength(picked, address)
            && (nowhere && c.peerError.Some? ==> v.error == c.peerError && v.relay == None)
            && (!(nowhere && c.peerError.Some?) ==>
                  v.error == c.udpConnect && v.relay == Some(Endpoint(if nowhere then c.peer else address, port)))
  {
    var g, s, reply := Message(c, Greet), c.stream, Reply(reserved, address, port) + extra;
    assert [] + g == g;
    if picked == 2 {
      assert s == [5, 2, 1, 0] + reply;
      assert OneShot(c) == WholeReply(c, 4, g + Message(c, Auth) + Message(c, Associate));
      ReplyTaken(c, 4, g + Message(c, Auth) + Message(c, Associate), reserved, address, port, extra);
    } else {
      assert s == [5, 0] + reply;
      assert OneShot(c) == WholeReply(c, 2, g + Message(c, Associate));
      ReplyTaken(c, 2, g + Message(c, Associate), reserved, address, port, extra);
    }
  }

  lemma Pieces(s: seq<byte>, i: nat, j: nat, k: nat)
    requires i <= j <= k <= |s|
    ensures s[..i] + s[i..j] + s[j..k] == s[..k]
  {
  }

  /** The reply behind a relay. */
  lemma ReplyGiven(c: Setup, at: nat, sent: seq<byte>) returns (reserved: byte, address: seq<byte>, port: nat)
    requires at <= |c.stream| && WholeReply(c, at, sent).relay.Some?
    ensures |address| in {4, 16} && port < 65536
    ensures Reply(reserved, address, port) <= c.stream[at..]
    ensures WholeReply(c, at, sent).consumed == at + 6 + |address|
    ensures WholeReply(c, at, sent).relay.value
            == Endpoint(if address == seq(|address|, _ => 0) then c.peer else address, port)
  {
    var reply := c.stream[at..];
    var n := if reply[3] == 1 then 4 else 16;
    reserved, address := reply[2], reply[4..4 + n];
    port := Port(reply[4 + n], reply[5 + n]);
    assert reply[..4] == [5, 0, reserved, if n == 4 then 1 else 4];
    assert [port / 256, port % 256] == reply[4 + n..6 + n];
    Pieces(reply, 4, 4 + n, 6 + n);
    assert AllZero(address) <==> address == seq(n, _ => 0);
  }

  /** The association was made of the reply behind the method and the login. */
  lemma AssociatedReads(c: Setup) returns (at: nat, sent: seq<byte>)
    requires c.Valid() && OneShot(c).relay.Some?
    ensures Reaches(c) && 2 <= |c.stream| && Offers(c, c.stream[1])
    ensures at <= |c.stream|
    ensures c.stream[..at] == [5, c.stream[1]] + if c.stream[1] == 2 then [1, 0] else []
    ensures OneShot(c) == WholeReply(c, at, sent)
  {
    var g, s := Message(c, Greet), c.stream;
    assert [] + g == g;
    if s[1] == 2 {
      assert OneShot(c) == Whole(c, Auth, 2, g);
      assert s[..4] == [5, 2, 1, 0];
      at, sent := 4, g + Message(c, Auth) + Message(c, Associate);
    } else {
      assert OneShot(c) == Whole(c, Associate, 2, g);
      assert s[..2] == [5, 0];
      at, sent := 2, g + Message(c, Associate);
    }
  }

  /** And only an answer yields a relay. */
  lemma RelayWasAnswered(c: Setup) returns (reserved: byte, address: seq<byte>, port: nat)
    requires c.Valid() && OneShot(c).relay.Some?
    ensures Reaches(c) && 2 <= |c.stream| && Offers(c, c.stream[1])
    ensures |address| in {4, 16} && port < 65536
    ensures Answer(c.stream[1], reserved, address, port) <= c.stream
    ensures OneShot(c).consumed == AnswerLength(c.stream[1], address)
    ensures OneShot(c).relay.value
            == Endpoint(if address == seq(|address|, _ => 0) then c.peer else address, port)
  {
    var at, sent := AssociatedReads(c);
    reserved, address, port := ReplyGiven(c, at, sent);
    Joined(c.stream, at, Reply(reserved, address, port));
    assert Answer(c.stream[1], reserved, address, port) == c.stream[..at] + Reply(reserved, address, port);
  }

  lemma Joined(s: seq<byte>, at: nat, reply: seq<byte>)
    requires at <= |s| && reply <= s[at..]
    ensures s[..at] + reply <= s && |s[..at] + reply| == at + |reply|
  {
    assert s == s[..at] + s[at..];
  }

  // --- What the client makes of anything else ---------------------------------------

  ghost predicate CutShort(c: Setup, v: Verdict, full: Verdict) {
    && (|full.sent| <= c.writeLimit ==> v == full)
    && (c.writeLimit < |full.sent| ==>
          v.error == Some(c.writeError) && v.relay == None && v.sent == full.sent[..c.writeLimit])
  }

  lemma BrokenReply(c: Setup, at: nat, sent: seq<byte>)
    requires c.Valid() && at <= |c.stream| && |sent| <= Min(c.writeLimit, 517)
    ensures CutShort(c, Whole(c, Associate, at, sent), Whole(c.(writeLimit := 527), Associate, at, sent))
  {
    var w := c.(writeLimit := 527);
    assert Message(w, Associate) == Message(c, Associate);
    assert WholeReply(w, at, sent + Message(c, Associate)) == WholeReply(c, at, sent + Message(c, Associate));
  }

  lemma BrokenLogin(c: Setup, at: nat, sent: seq<byte>)
    requires c.Valid() && at <= |c.stream| && |sent| <= Min(c.writeLimit, 4)
    ensures CutShort(c, Whole(c, Auth, at, sent), Whole(c.(writeLimit := 527), Auth, at, sent))
  {
    var w := c.(writeLimit := 527);
    assert Message(w, Auth) == Message(c, Auth);
    var wanted := sent + Message(c, Auth);
    if |wanted| <= c.writeLimit && at + 2 <= |c.stream| {
      BrokenReply(c, at + 2, wanted);
    } else if c.writeLimit < |wanted| {
      assert wanted <= Whole(w, Auth, at, sent).sent;
    }
  }

  /** A connection that breaks while writing cuts off what would have been sent and
      ends with its own error; one that lasts changes nothing. */
  lemma BrokenWrite(c: Setup)
    requires c.Valid()
    ensures CutShort(c, OneShot(c), OneShot(c.(writeLimit := 527)))
  {
    var w, g := c.(writeLimit := 527), Message(c, Greet);
    assert Message(w, Greet) == g && [] + g == g;
    if c.writeLimit < |g| {
      GreetingGoesFirst(w);
    } else if 2 <= |c.stream| {
      BrokenReply(c, 2, g);
      BrokenLogin(c, 2, g);
    }
  }

  lemma GreetingGoesFirst(w: Setup)
    requires w.Valid() && w.writeLimit == 527
    ensures Message(w, Greet) <= Whole(w, Greet, 0, []).sent
  {
    assert [] + Message(w, Greet) == Message(w, Greet);
  }

  function Ended(c: Setup): Option<Error> {
    if c.ending.None? then Some(SocksConnectionFailed) else c.ending
  }

  /** No proxy to speak to. */
  lemma Unreachable(c: Setup)
    requires c.Valid() && !Reaches(c)
    ensures var v := OneShot(c);
            && v.relay == None && v.consumed == 0 && v.sent == []
            && v.error == (if !c.literal && c.lookup.Some? then c.lookup
                           else if !c.literal && c.addresses == 0 then Some(NameNotResolved) else c.connect)
  {
  }

  /** A proxy that says nothing to the greeting, or nothing that was offered. */
  lemma GreetingRefused(c: Setup)
    requires c.Valid() && Reaches(c) && c.writeLimit >= 527
    requires |c.stream| < 2 || c.stream[0] != 5 || !Offers(c, c.stream[1])
    ensures var v := OneShot(c);
            && v.relay == None && v.consumed == Min(2, |c.stream|)
            && v.error == (if |c.stream| < 2 then Ended(c) else Some(SocksConnectionFailed))
            && v.sent == if c.username == [] then [5, 1, 0] else [5, 2, 0, 2]
  {
  }

  /** A proxy that asked for the login and did not take it. */
  lemma LoginRefused(c: Setup)
    requires c.Valid() && Reaches(c) && c.writeLimit >= 527 && c.username != []
    requires 2 <= |c.stream| && c.stream[0] == 5 && c.stream[1] == 2
    requires |c.stream| < 4 || c.stream[2] != 1 || c.stream[3] != 0
    ensures var v := OneShot(c);
            && v.relay == None && v.consumed == Min(4, |c.stream|)
            && v.error == (if |c.stream| < 4 then Ended(c)
                           else if c.stream[2] != 1 then Some(SocksConnectionFailed) else Some(ProxyAuthUnsupported))
            && v.sent == [5, 2, 0, 2, 1, |c.username|] + c.username + [|c.password|] + c.password
  {
  }

  /** A proxy that took the client in and refused the association, or named its relay
      in a way that is not understood, or did not finish. */
  lemma AssociationRefused(c: Setup)
    requires c.Valid() && Reaches(c) && c.writeLimit >= 527
    requires 2 <= |c.stream| && c.stream[0] == 5 && Offers(c, c.stream[1])
    requires c.stream[1] == 2 ==> 4 <= |c.stream| && c.stream[2] == 1 && c.stream[3] == 0
    ensures var v, s, at := OneShot(c), c.stream, if c.stream[1] == 2 then 4 else 2;
            if |s| < at + 4 then v.relay == None && v.error == Ended(c) && v.consumed == |s|
            else if s[at] != 5 || s[at + 1] != 0 || s[at + 3] !in {1, 4}
            then v.relay == None && v.error == Some(SocksConnectionFailed) && v.consumed == at + 4
            else if |s| < at + (if s[at + 3] == 1 then 10 else 22)
            then v.relay == None && v.error == Ended(c) && v.consumed == |s|
            else v.consumed == at + if s[at + 3] == 1 then 10 else 22
  {
  }
}
