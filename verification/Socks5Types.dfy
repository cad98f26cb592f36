/** The SOCKS5 UDP association of patches/0004-socks5-udp-quic.patch: its messages,
    what surrounds it, and what a client that saw each message whole would do. */
module Socks5Types {
  import opened Prelude

  const SOCKS5_VERSION: byte := 5
  const METHOD_NONE: byte := 0
  const METHOD_PASSWORD: byte := 2
  const AUTH_VERSION: byte := 1
  const UDP_ASSOCIATE: byte := 3
  const TYPE_IPV4: byte := 1
  const TYPE_DOMAIN: byte := 3
  const TYPE_IPV6: byte := 4

  const GREET_REPLY: nat := 2
  const AUTH_REPLY: nat := 2
  const REPLY_PREFIX: nat := 4

  datatype Error =
    | SocksConnectionFailed
    | ProxyAuthUnsupported
    | NameNotResolved
    | MsgTooBig
    | Failed
    | Network(code: int)     // whatever the layer below reported

  datatype Endpoint = Endpoint(address: seq<byte>, port: nat)

  /** Everything outside the client: its credentials, what resolving and connecting
      come to, every byte the proxy will send and how the stream ends, how much
      the connection accepts before it breaks. None of it says how the bytes are
      cut into reads and writes. */
  datatype Setup = Setup(
    username: seq<byte>, password: seq<byte>,
    literal: bool, lookup: Option<Error>, addresses: nat,
    connect: Option<Error>,
    stream: seq<byte>, ending: Option<Error>,
    writeLimit: nat, writeError: Error,
    peer: seq<byte>, peerError: Option<Error>,
    udpConnect: Option<Error>)
  {
    /** Both lengths travel as one byte (section 2 of RFC 1929). */
    predicate Valid() {
      |username| < 256 && |password| < 256
    }

    predicate HasCredentials() {
      username != []
    }
  }

  /** The three request and reply exchanges. */
  datatype Exchange = Greet | Auth | Associate

  function Message(c: Setup, x: Exchange): (m: seq<byte>)
    requires c.Valid()
    ensures 0 < |m| <= 513
  {
    match x
    case Greet =>
      if c.HasCredentials() then [SOCKS5_VERSION, 2, METHOD_NONE, METHOD_PASSWORD]
      else [SOCKS5_VERSION, 1, METHOD_NONE]
    case Auth => [AUTH_VERSION, |c.username|] + c.username + [|c.password|] + c.password
    case Associate => [SOCKS5_VERSION, UDP_ASSOCIATE, 0, TYPE_IPV4, 0, 0, 0, 0, 0, 0]
  }

  /** How an attempt ends, and what has then crossed the control connection. */
  datatype Verdict = Verdict(error: Option<Error>, relay: Option<Endpoint>, consumed: nat, sent: seq<byte>)

  function Refused(e: Error, consumed: nat, sent: seq<byte>): Verdict {
    Verdict(Some(e), None, consumed, sent)
  }

  /** The proxy closed the stream, or reading it failed. */
  function EndError(c: Setup): Error {
    match c.ending case None => SocksConnectionFailed case Some(e) => e
  }

  function AddressLength(kind: byte): nat {
    if kind == TYPE_IPV4 then 4 else if kind == TYPE_IPV6 then 16 else 0
  }

  predicate AllZero(bytes: seq<byte>) {
    forall i | 0 <= i < |bytes| :: bytes[i] == 0
  }

  function Port(high: byte, low: byte): nat {
    256 * high + low
  }

  // A one-shot parse: each message is written whole, each reply is read whole.

  function Whole(c: Setup, x: Exchange, at: nat, sent: seq<byte>): (v: Verdict)
    requires c.Valid() && at <= |c.stream|
    decreases match x case Greet => 2 case Auth => 1 case Associate => 0
  {
    var wanted := sent + Message(c, x);
    if c.writeLimit < |wanted| then Refused(c.writeError, at, wanted[..c.writeLimit])
    else
      match x
      case Greet =>
        if |c.stream| < at + GREET_REPLY then Refused(EndError(c), |c.stream|, wanted)
        else if c.stream[at] != SOCKS5_VERSION then Refused(SocksConnectionFailed, at + GREET_REPLY, wanted)
        else if c.stream[at + 1] == METHOD_PASSWORD && c.HasCredentials() then Whole(c, Auth, at + GREET_REPLY, wanted)
        else if c.stream[at + 1] != METHOD_NONE then Refused(SocksConnectionFailed, at + GREET_REPLY, wanted)
        else Whole(c, Associate, at + GREET_REPLY, wanted)
      case Auth =>
        if |c.stream| < at + AUTH_REPLY then Refused(EndError(c), |c.stream|, wanted)
        else if c.stream[at] != AUTH_VERSION then Refused(SocksConnectionFailed, at + AUTH_REPLY, wanted)
        else if c.stream[at + 1] != 0 then Refused(ProxyAuthUnsupported, at + AUTH_REPLY, wanted)
        else Whole(c, Associate, at + AUTH_REPLY, wanted)
      case Associate => WholeReply(c, at, wanted)
  }

  function WholeReply(c: Setup, at: nat, sent: seq<byte>): Verdict
    requires at <= |c.stream|
  {
    if |c.stream| < at + REPLY_PREFIX then Refused(EndError(c), |c.stream|, sent)
    else
      var reply := c.stream[at..];
      var length := AddressLength(reply[3]);
      if reply[0] != SOCKS5_VERSION || reply[1] != 0 || length == 0
      then Refused(SocksConnectionFailed, at + REPLY_PREFIX, sent)
      else if |reply| < REPLY_PREFIX + length + 2 then Refused(EndError(c), |c.stream|, sent)
      else
        var address := reply[4..4 + length];
        var port := Port(reply[4 + length], reply[5 + length]);
        var end := at + REPLY_PREFIX + length + 2;
        if AllZero(address) && c.peerError.Some? then Refused(c.peerError.value, end, sent)
        else Verdict(c.udpConnect, Some(Endpoint(if AllZero(address) then c.peer else address, port)), end, sent)
  }

  function OneShot(c: Setup): Verdict
    requires c.Valid()
  {
    if !c.literal && c.lookup.Some? then Refused(c.lookup.value, 0, [])
    else if !c.literal && c.addresses == 0 then Refused(NameNotResolved, 0, [])
    else if c.connect.Some? then Refused(c.connect.value, 0, [])
    else Whole(c, Greet, 0, [])
  }

  /** What the one-shot parse makes of an authentication reply. */
  lemma AuthenticationRead(c: Setup, at: nat, before: seq<byte>, sent: seq<byte>, reply: seq<byte>)
    requires c.Valid() && at + AUTH_REPLY <= |c.stream| && reply == c.stream[at..at + AUTH_REPLY]
    requires sent == before + Message(c, Auth) && |sent| <= c.writeLimit
    ensures Whole(c, Auth, at, before)
            == if reply[0] != AUTH_VERSION then Refused(SocksConnectionFailed, at + AUTH_REPLY, sent)
               else if reply[1] != 0 then Refused(ProxyAuthUnsupported, at + AUTH_REPLY, sent)
               else Whole(c, Associate, at + AUTH_REPLY, sent)
  {
  }

  /** The relay a complete reply names; the proxy itself when it names none. */
  function Relay(c: Setup, reply: seq<byte>): Endpoint
    requires |reply| >= 4 && AddressLength(reply[3]) > 0 && |reply| == REPLY_PREFIX + AddressLength(reply[3]) + 2
  {
    var length := AddressLength(reply[3]);
    var address := reply[4..4 + length];
    Endpoint(if AllZero(address) then c.peer else address, Port(reply[4 + length], reply[5 + length]))
  }

  /** What the one-shot parse makes of a prefix that is refused. */
  lemma PrefixRefused(c: Setup, at: nat, sent: seq<byte>, reply: seq<byte>)
    requires at + REPLY_PREFIX <= |c.stream| && reply == c.stream[at..at + REPLY_PREFIX]
    requires reply[0] != SOCKS5_VERSION || reply[1] != 0 || AddressLength(reply[3]) == 0
    ensures WholeReply(c, at, sent) == Refused(SocksConnectionFailed, at + REPLY_PREFIX, sent)
  {
    assert forall i :: 0 <= i < 4 ==> c.stream[at..][i] == reply[i];
  }

  /** What the one-shot parse makes of a reply that is accepted. */
  lemma ReplyAccepted(c: Setup, at: nat, sent: seq<byte>, reply: seq<byte>)
    requires at + |reply| <= |c.stream| && reply == c.stream[at..at + |reply|]
    requires |reply| >= 4 && reply[0] == SOCKS5_VERSION && reply[1] == 0
    requires AddressLength(reply[3]) > 0 && |reply| == REPLY_PREFIX + AddressLength(reply[3]) + 2
    ensures WholeReply(c, at, sent)
            == if AllZero(reply[4..|reply| - 2]) && c.peerError.Some?
               then Refused(c.peerError.value, at + |reply|, sent)
               else Verdict(c.udpConnect, Some(Relay(c, reply)), at + |reply|, sent)
  {
    var all := c.stream[at..];
    var length := AddressLength(reply[3]);
    assert forall i :: 0 <= i < |reply| ==> all[i] == reply[i];
    assert all[4..4 + length] == reply[4..4 + length];
  }

  /** What the one-shot client may send: a prefix of the greeting, the
      authentication request if it was asked for, and UDP ASSOCIATE, in order;
      and it never reads past the end of the reply that settles the matter. */
  lemma OneShotSends(c: Setup)
    requires c.Valid()
    ensures var v := OneShot(c);
            var plain := Message(c, Greet) + Message(c, Associate);
            var authed := Message(c, Greet) + Message(c, Auth) + Message(c, Associate);
            && (v.sent <= plain || (c.HasCredentials() && v.sent <= authed))
            && (v.relay.Some? ==> v.sent == plain || (c.HasCredentials() && v.sent == authed))
            && v.consumed <= |c.stream|
            && (v.relay.Some? ==> v.consumed in {12, 24, 14, 26})
  {
    GreetSends(c);
  }

  lemma GreetSends(c: Setup)
    requires c.Valid()
    ensures var v := Whole(c, Greet, 0, []);
            var g, a, u := Message(c, Greet), Message(c, Auth), Message(c, Associate);
            && (v.sent <= g + u || (c.HasCredentials() && v.sent <= g + a + u))
            && (v.relay.Some? ==> v.sent == g + u || (c.HasCredentials() && v.sent == g + a + u))
            && v.consumed <= |c.stream|
            && (v.relay.Some? ==> v.consumed in {12, 24, 14, 26})
  {
    GreetGoes(c);
    AssociateSends(c, GREET_REPLY, Message(c, Greet));
    AuthSends(c, GREET_REPLY, Message(c, Greet));
  }

  /** The greeting fails, or goes on to one of the other two exchanges. */
  lemma GreetGoes(c: Setup)
    requires c.Valid()
    ensures var v, g := Whole(c, Greet, 0, []), Message(c, Greet);
            || (v.relay.None? && v.sent <= g && v.consumed <= |c.stream|)
            || (GREET_REPLY <= |c.stream| && c.HasCredentials() && v == Whole(c, Auth, GREET_REPLY, g))
            || (GREET_REPLY <= |c.stream| && v == Whole(c, Associate, GREET_REPLY, g))
  {
    assert [] + Message(c, Greet) == Message(c, Greet);
  }

  lemma AuthSends(c: Setup, at: nat, sent: seq<byte>)
    requires c.Valid() && at <= 2
    ensures at <= |c.stream| ==>
              var v := Whole(c, Auth, at, sent);
              var whole := sent + Message(c, Auth) + Message(c, Associate);
              && v.sent <= whole
              && v.consumed <= |c.stream|
              && (v.relay.Some? ==> v.sent == whole && v.consumed in {at + 12, at + 24})
  {
    AssociateSends(c, at + AUTH_REPLY, sent + Message(c, Auth));
  }

  lemma AssociateSends(c: Setup, at: nat, sent: seq<byte>)
    requires c.Valid() && at <= 4
    ensures at <= |c.stream| ==>
              var v := Whole(c, Associate, at, sent);
              && v.sent <= sent + Message(c, Associate)
              && v.consumed <= |c.stream|
              && (v.relay.Some? ==> v.sent == sent + Message(c, Associate) && v.consumed in {at + 10, at + 22})
  {
  }
}
