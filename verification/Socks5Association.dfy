/** SOCKS5UDPClientSocket's connection machine over a control connection that cuts
    reads and writes wherever it likes and completes them now or later. */
module Socks5Association {
  import opened Prelude
  import opened Socks5Types
  import opened Socks5Reading

  /** What an I/O step came to. `Got([])` is the end of the stream. */
  datatype Rv = Ok | Pending | Sent(n: nat) | Got(data: seq<byte>) | Err(e: Error)

  function FromError(e: Option<Error>): Rv {
    match e case None => Ok case Some(err) => Err(err)
  }

  datatype Operation = Fixed(rv: Rv) | ReadUpTo(max: nat) | WriteFrom(data: seq<byte>)

  /** What has crossed the control connection. */
  datatype Crossed = Crossed(received: nat, sent: seq<byte>)

  /** What a completed operation may come to: a read takes some of what is left, a
      write some of what is offered. */
  ghost predicate Completes(c: Setup, op: Operation, from: Crossed, to: Crossed, rv: Rv) {
    match op
    case Fixed(r) => rv == r && to == from
    case ReadUpTo(max) =>
      && to.sent == from.sent && from.received <= to.received <= |c.stream|
      && (if from.received == |c.stream| then rv == (match c.ending case None => Got([]) case Some(e) => Err(e))
          else rv.Got? && 1 <= |rv.data| <= max && rv.data == c.stream[from.received..to.received])
    case WriteFrom(data) =>
      && to.received == from.received
      && (if |from.sent| == c.writeLimit then to.sent == from.sent && rv == Err(c.writeError)
          else rv.Sent? && 1 <= rv.n <= |data| && to.sent == from.sent + data[..rv.n])
  }

  /** A read that follows the bytes `had` from `start` on has come to `rv`. */
  ghost predicate Extends(c: Setup, start: nat, had: seq<byte>, max: nat, to: Crossed, rv: Rv) {
    && start <= to.received <= |c.stream|
    && match rv
       case Got(data) =>
         && had + data == c.stream[start..to.received] && |data| <= max
         && (data == [] ==> to.received == |c.stream| && c.ending.None?)
       case Err(e) => had == c.stream[start..to.received] && to.received == |c.stream| && c.ending == Some(e)
       case _ => false
  }

  lemma ReadExtends(c: Setup, start: nat, max: nat, from: Crossed, to: Crossed, rv: Rv)
    requires start <= from.received <= |c.stream| && Completes(c, ReadUpTo(max), from, to, rv)
    ensures Extends(c, start, c.stream[start..from.received], max, to, rv)
  {
  }

  /** A write of `rest` towards `wanted` has come to `rv`. */
  ghost predicate Shortens(c: Setup, rest: seq<byte>, wanted: seq<byte>, to: Crossed, rv: Rv) {
    match rv
    case Sent(n) => 1 <= n <= |rest| && to.sent + rest[n..] == wanted
    case Err(e) => e == c.writeError && |to.sent| == c.writeLimit && to.sent + rest == wanted
    case _ => false
  }

  lemma WriteShortens(c: Setup, rest: seq<byte>, wanted: seq<byte>, from: Crossed, to: Crossed, rv: Rv)
    requires from.sent + rest == wanted && Completes(c, WriteFrom(rest), from, to, rv)
    ensures Shortens(c, rest, wanted, to, rv)
  {
    if rv.Sent? {
      assert rest == rest[..rv.n] + rest[rv.n..];
    }
  }

  class ControlSocket {
    const c: Setup
    var received: nat
    var sent: seq<byte>
    var outstanding: Option<Operation>

    constructor (c: Setup)
      ensures this.c == c && received == 0 && sent == [] && outstanding == None
    {
      this.c := c;
      received, sent, outstanding := 0, [], None;
    }

    ghost predicate Valid()
      reads this
    {
      received <= |c.stream| && |sent| <= c.writeLimit
    }

    ghost function Crossing(): Crossed
      reads this
    {
      Crossed(received, sent)
    }

    /** Carries out an operation, cutting it wherever it likes. */
    method Perform(op: Operation) returns (rv: Rv)
      requires Valid()
      requires op.ReadUpTo? ==> op.max > 0
      requires op.WriteFrom? ==> op.data != []
      requires op.Fixed? ==> !op.rv.Pending?
      modifies this`received, this`sent
      ensures Valid() && Completes(c, op, old(Crossing()), Crossing(), rv) && !rv.Pending?
    {
      match op
      case Fixed(r) =>
        rv := r;
      case ReadUpTo(max) =>
        var left := |c.stream| - received;
        if left == 0 {
          rv := match c.ending case None => Got([]) case Some(e) => Err(e);
        } else {
          var n :| 1 <= n && n <= max && n <= left;
          rv := Got(c.stream[received..received + n]);
          received := received + n;
        }
      case WriteFrom(data) =>
        var room := c.writeLimit - |sent|;
        if room == 0 {
          rv := Err(c.writeError);
        } else {
          var n :| 1 <= n && n <= |data| && n <= room;
          sent := sent + data[..n];
          rv := Sent(n);
        }
    }

    /** Starts an operation, which completes at once or is left outstanding. */
    method Begin(op: Operation) returns (rv: Rv)
      requires Valid() && outstanding.None?
      requires op.ReadUpTo? ==> op.max > 0
      requires op.WriteFrom? ==> op.data != []
      requires op.Fixed? ==> !op.rv.Pending?
      modifies this
      ensures Valid()
      ensures if rv.Pending? then Crossing() == old(Crossing()) && outstanding == Some(op)
              else Completes(c, op, old(Crossing()), Crossing(), rv) && outstanding.None?
    {
      var later: bool := *;
      if later {
        outstanding := Some(op);
        rv := Pending;
      } else {
        rv := Perform(op);
      }
    }

    /** The outstanding operation completes. */
    method Await() returns (rv: Rv)
      requires Valid() && outstanding.Some?
      requires outstanding.value.ReadUpTo? ==> outstanding.value.max > 0
      requires outstanding.value.WriteFrom? ==> outstanding.value.data != []
      requires outstanding.value.Fixed? ==> !outstanding.value.rv.Pending?
      modifies this
      ensures Valid() && outstanding.None?
      ensures Completes(c, old(outstanding).value, old(Crossing()), Crossing(), rv) && !rv.Pending?
    {
      var op := outstanding.value;
      outstanding := None;
      rv := Perform(op);
    }
  }

  datatype State =
    | ResolveProxy | ResolveProxyComplete
    | TcpConnect | TcpConnectComplete
    | Write(x: Exchange) | WriteComplete(x: Exchange)
    | Read(x: Exchange) | ReadComplete(x: Exchange)
    | UdpConnect
    | NoState

  /** read_buf_: its bytes before the offset, and its capacity. */
  datatype ReadBuffer = ReadBuffer(bytes: seq<byte>, capacity: nat)

  function FirstCapacity(x: Exchange): nat {
    match x case Greet => GREET_REPLY case Auth => AUTH_REPLY case Associate => REPLY_PREFIX
  }

  class Association {
    const socket: ControlSocket
    var next: State
    var writeBuf: Option<seq<byte>>
    var readBuf: Option<ReadBuffer>
    var replyRemaining: nat
    var relay: Option<Endpoint>
    // Where the exchange at hand began: bytes read and bytes sent by then.
    ghost var at: nat
    ghost var before: seq<byte>

    constructor (c: Setup)
      ensures socket.c == c && fresh(socket)
      ensures socket.received == 0 && socket.sent == [] && socket.outstanding == None
      ensures next == NoState && writeBuf == None && readBuf == None && relay == None
    {
      socket := new ControlSocket(c);
      next, writeBuf, readBuf, replyRemaining, relay := NoState, None, None, 0, None;
      at, before := 0, [];
    }

    // --- What each state stands for -------------------------------------------

    /** What the attempt is going to come to, seen from the exchange at hand. */
    ghost predicate OnCourse(x: Exchange)
      reads this, socket
    {
      && socket.c.Valid() && socket.Valid()
      && at <= socket.received
      && OneShot(socket.c) == Whole(socket.c, x, at, before)
      && relay.None?
    }

    ghost predicate Writing(x: Exchange)
      reads this, socket
    {
      && OnCourse(x)
      && socket.received == at && readBuf.None?
      && match writeBuf
         case None => socket.sent == before
         case Some(rest) => rest != [] && socket.sent + rest == before + Message(socket.c, x)
    }

    /** A write of what `writeBuf` holds has come to `rv`. */
    ghost predicate WriteLanded(x: Exchange, rv: Rv)
      reads this, socket
    {
      && OnCourse(x)
      && socket.received == at && readBuf.None? && writeBuf.Some?
      && writeBuf.value != [] && Shortens(socket.c, writeBuf.value, before + Message(socket.c, x), socket.Crossing(), rv)
    }

    /** The buffer has room, and is sized for what is being read. */
    ghost predicate Buffered(x: Exchange, b: ReadBuffer)
      reads this
    {
      |b.bytes| < b.capacity && Sized(x, b)
    }

    /** The buffer has room for what the reply to x is known to be. */
    ghost predicate Sized(x: Exchange, b: ReadBuffer)
      reads this
    {
      if x.Associate? && replyRemaining > 0
      then && b.capacity == REPLY_PREFIX + replyRemaining && REPLY_PREFIX <= |b.bytes|
           && b.bytes[0] == SOCKS5_VERSION && b.bytes[1] == 0
           && AddressLength(b.bytes[3]) > 0 && replyRemaining == AddressLength(b.bytes[3]) + 2
      else b.capacity == FirstCapacity(x)
    }

    ghost predicate Asked(x: Exchange)
      reads this, socket
    {
      && OnCourse(x)
      && writeBuf.None? && socket.sent == before + Message(socket.c, x)
    }

    ghost predicate Reading(x: Exchange)
      reads this, socket
    {
      && Asked(x)
      && match readBuf
         case None => socket.received == at && (x.Associate? ==> replyRemaining == 0)
         case Some(b) => Buffered(x, b) && socket.received == at + |b.bytes|
                         && b.bytes == socket.c.stream[at..socket.received]
    }

    /** A read into what is left of `readBuf` has come to `rv`. */
    ghost predicate ReadLanded(x: Exchange, rv: Rv)
      reads this, socket
    {
      && Asked(x)
      && readBuf.Some? && Buffered(x, readBuf.value)
      && Extends(socket.c, at, readBuf.value.bytes, readBuf.value.capacity - |readBuf.value.bytes|,
                 socket.Crossing(), rv)
    }

    ghost predicate Fresh()
      reads this, socket
    {
      && socket.c.Valid() && socket.received == 0 && socket.sent == []
      && writeBuf.None? && readBuf.None? && relay.None?
    }

    ghost predicate Resolved()
      reads socket
    {
      socket.c.literal || (socket.c.lookup.None? && socket.c.addresses > 0)
    }

    /** The loop may handle `next`, the last result being `rv`. */
    ghost predicate Ready(rv: Rv)
      reads this, socket
    {
      && socket.outstanding.None?
      && match next
         case ResolveProxy => Fresh()
         case ResolveProxyComplete => Fresh() && rv == LookupResult()
         case TcpConnect => Fresh() && Resolved()
         case TcpConnectComplete => Fresh() && Resolved() && rv == FromError(socket.c.connect)
         case Write(x) => Writing(x)
         case WriteComplete(x) => WriteLanded(x, rv)
         case Read(x) => Reading(x)
         case ReadComplete(x) => ReadLanded(x, rv)
         case UdpConnect => socket.c.Valid() && relay.Some? && OneShot(socket.c) == Now(socket.c.udpConnect)
         case NoState => false
    }

    /** The machine waits for the outstanding operation. */
    ghost predicate Suspended()
      reads this, socket
    {
      && socket.outstanding.Some?
      && match next
         case ResolveProxyComplete => Fresh() && socket.outstanding.value == Fixed(LookupResult())
         case TcpConnectComplete =>
           Fresh() && Resolved() && socket.outstanding.value == Fixed(FromError(socket.c.connect))
         case WriteComplete(x) =>
           Writing(x) && writeBuf.Some? && socket.outstanding.value == WriteFrom(writeBuf.value)
         case ReadComplete(x) =>
           Reading(x) && readBuf.Some?
           && socket.outstanding.value == ReadUpTo(readBuf.value.capacity - |readBuf.value.bytes|)
         case _ => false
    }

    ghost function LookupResult(): Rv
      reads socket
    {
      if socket.c.literal then Ok else FromError(socket.c.lookup)
    }

    /** What has happened by now, should it end with `error`. */
    ghost function Now(error: Option<Error>): Verdict
      reads this, socket
    {
      Verdict(error, relay, socket.received, socket.sent)
    }

    /** The attempt is over and came to what the one-shot client comes to. */
    ghost predicate Settled(rv: Rv)
      reads this, socket
    {
      && socket.outstanding.None? && socket.c.Valid()
      && (rv.Ok? || rv.Err?)
      && OneShot(socket.c) == Now(if rv.Ok? then None else Some(rv.e))
    }

    ghost predicate Progress(rv: Rv)
      reads this, socket
    {
      if rv.Pending? then Suspended() else if next.NoState? then Settled(rv) else Ready(rv)
    }

    // --- Termination: exchanges in order, bytes within one, issue then complete ---

    ghost function Stage(): nat
      reads this
    {
      match next
      case ResolveProxy => 20
      case ResolveProxyComplete => 19
      case TcpConnect => 18
      case TcpConnectComplete => 17
      case Write(x) => WriteStage(x)
      case WriteComplete(x) => WriteStage(x)
      case Read(x) => ReadStage(x)
      case ReadComplete(x) => ReadStage(x)
      case UdpConnect => 1
      case NoState => 0
    }

    ghost function WriteStage(x: Exchange): nat {
      match x case Greet => 16 case Auth => 12 case Associate => 8
    }

    ghost function ReadStage(x: Exchange): nat
      reads this
    {
      match x case Greet => 14 case Auth => 10 case Associate => if replyRemaining == 0 then 6 else 4
    }

    ghost function BytesLeft(): nat
      reads this
    {
      if next.Write? || next.WriteComplete? then
        match writeBuf case None => 600 case Some(rest) => |rest|
      else if next.Read? || next.ReadComplete? then
        match readBuf case None => 600
        case Some(b) => if b.capacity >= |b.bytes| then b.capacity - |b.bytes| else 0
      else 0
    }

    ghost function Issue(): nat
      reads this
    {
      if next.Write? || next.Read? then 1 else 0
    }

    twostate predicate Advanced()
      reads this
    {
      || Stage() < old(Stage())
      || (Stage() == old(Stage()) && BytesLeft() < old(BytesLeft()))
      || (Stage() == old(Stage()) && BytesLeft() == old(BytesLeft()) && Issue() < old(Issue()))
    }

    // --- The steps ------------------------------------------------------------

    method DoResolveProxy() returns (rv: Rv)
      requires socket.outstanding.None? && next.ResolveProxy? && Fresh()
      modifies this`next, socket
      ensures Progress(rv) && Advanced()
    {
      next := ResolveProxyComplete;
      if socket.c.literal {
        return Ok;
      }
      rv := socket.Begin(Fixed(FromError(socket.c.lookup)));
    }

    method DoResolveProxyComplete(result: Rv) returns (rv: Rv)
      requires next.ResolveProxyComplete? && Ready(result)
      modifies this`next
      ensures Progress(rv) && Advanced()
    {
      if result != Ok {
        next := NoState;
        return result;
      }
      if !socket.c.literal && socket.c.addresses == 0 {
        next := NoState;
        return Err(NameNotResolved);
      }
      next := TcpConnect;
      rv := Ok;
    }

    method DoTcpConnect() returns (rv: Rv)
      requires socket.outstanding.None? && next.TcpConnect? && Fresh() && Resolved()
      modifies this`next, socket
      ensures Progress(rv) && Advanced()
    {
      next := TcpConnectComplete;
      rv := socket.Begin(Fixed(FromError(socket.c.connect)));
    }

    method DoTcpConnectComplete(result: Rv) returns (rv: Rv)
      requires next.TcpConnectComplete? && Ready(result)
      modifies this`next, this`at, this`before
      ensures Progress(rv) && Advanced()
    {
      if result != Ok {
        next := NoState;
        return result;
      }
      next := Write(Greet);
      at, before := 0, [];
      rv := Ok;
    }

    /** DoGreetWrite, DoAuthWrite and DoAssociateWrite. */
    method DoWrite(x: Exchange) returns (rv: Rv)
      requires socket.outstanding.None? && next == Write(x) && Writing(x)
      modifies this`next, this`writeBuf, socket
      ensures Progress(rv) && Advanced()
    {
      next := WriteComplete(x);
      if writeBuf.None? {
        writeBuf := Some(Message(socket.c, x));
      }
      ghost var wanted := before + Message(socket.c, x);
      ghost var from := socket.Crossing();
      rv := socket.Begin(WriteFrom(writeBuf.value));
      if !rv.Pending? {
        WriteShortens(socket.c, writeBuf.value, wanted, from, socket.Crossing(), rv);
      }
    }

    /** DoGreetWriteComplete, DoAuthWriteComplete and DoAssociateWriteComplete. */
    method DoWriteComplete(x: Exchange, result: Rv) returns (rv: Rv)
      requires next == WriteComplete(x) && socket.outstanding.None? && WriteLanded(x, result)
      modifies this`next, this`writeBuf, this`replyRemaining
      ensures Progress(rv) && Advanced()
    {
      if result.Err? {
        next := NoState;
        var wanted := before + Message(socket.c, x);
        assert socket.sent == wanted[..socket.c.writeLimit];
        return result;
      }
      var rest := writeBuf.value[result.n..];
      if rest == [] {
        writeBuf := None;
        next := Read(x);
        if x.Associate? {
          replyRemaining := 0;
        }
      } else {
        writeBuf := Some(rest);
        next := Write(x);
      }
      rv := Ok;
    }

    /** DoGreetRead, DoAuthRead and DoAssociateRead. */
    method DoRead(x: Exchange) returns (rv: Rv)
      requires socket.outstanding.None? && next == Read(x) && Reading(x)
      modifies this`next, this`readBuf, socket
      ensures Progress(rv) && Advanced()
    {
      next := ReadComplete(x);
      if readBuf.None? {
        readBuf := Some(ReadBuffer([], FirstCapacity(x)));
      }
      var room := readBuf.value.capacity - |readBuf.value.bytes|;
      assert readBuf.value.bytes == socket.c.stream[at..socket.received];
      ghost var from := socket.Crossing();
      rv := socket.Begin(ReadUpTo(room));
      if !rv.Pending? {
        ReadExtends(socket.c, at, room, from, socket.Crossing(), rv);
      }
    }

    /** The reply to x has arrived in full: that is what the accepting steps need. */
    ghost predicate Arrived(x: Exchange, reply: seq<byte>)
      reads this, socket
    {
      && socket.outstanding.None? && Asked(x)
      && reply == socket.c.stream[at..socket.received]
    }

    /** The common part of the three read completions: fill the buffer. */
    method DoReadComplete(x: Exchange, result: Rv) returns (rv: Rv)
      requires next == ReadComplete(x) && socket.outstanding.None? && ReadLanded(x, result)
      modifies this`next, this`readBuf, this`replyRemaining, this`relay, this`at, this`before
      ensures Progress(rv) && Advanced()
    {
      var b := readBuf.value;
      if result.Err? || result.data == [] {
        rv := StopReading(x, result);
        return;
      }
      var bytes := b.bytes + result.data;
      readBuf := Some(b.(bytes := bytes));
      if |bytes| < b.capacity {
        next := Read(x);
        return Ok;
      }
      rv := Accept(x, bytes);
    }

    /** The stream has failed or ended inside the reply. */
    method StopReading(x: Exchange, result: Rv) returns (rv: Rv)
      requires next == ReadComplete(x) && socket.outstanding.None? && ReadLanded(x, result)
      requires result.Err? || result == Got([])
      modifies this`next
      ensures Progress(rv) && Advanced()
    {
      EndsShort(x, readBuf.value);
      next := NoState;
      return if result.Err? then result else Err(SocksConnectionFailed);
    }

    /** What each completing step does with a reply that has arrived in full. */
    method Accept(x: Exchange, bytes: seq<byte>) returns (rv: Rv)
      requires next == ReadComplete(x) && Arrived(x, bytes)
      requires readBuf.Some? && readBuf.value.bytes == bytes && |bytes| == readBuf.value.capacity && Sized(x, readBuf.value)
      modifies this`next, this`readBuf, this`replyRemaining, this`relay, this`at, this`before
      ensures Progress(rv) && Advanced()
    {
      match x
      case Greet => rv := AcceptGreeting(bytes);
      case Auth => rv := AcceptAuthentication(bytes);
      case Associate =>
        if replyRemaining == 0 {
          rv := AcceptPrefix(bytes);
        } else {
          rv := AcceptReply(bytes);
        }
    }

    /** The stream ended inside a reply, which the one-shot client sees as well. */
    lemma EndsShort(x: Exchange, b: ReadBuffer)
      requires Asked(x) && readBuf == Some(b) && Buffered(x, b)
      requires b.bytes == socket.c.stream[at..socket.received] && socket.received == |socket.c.stream|
      ensures OneShot(socket.c) == Now(Some(EndError(socket.c)))
    {
    }

    method AcceptGreeting(reply: seq<byte>) returns (rv: Rv)
      requires next == ReadComplete(Greet) && Arrived(Greet, reply) && |reply| == GREET_REPLY
      modifies this`next, this`readBuf, this`at, this`before
      ensures Progress(rv) && Advanced()
    {
      if reply[0] != SOCKS5_VERSION {
        next := NoState;
        return Err(SocksConnectionFailed);
      }
      var how := reply[1];
      readBuf := None;
      if how == METHOD_PASSWORD && socket.c.HasCredentials() {
        at, before, next := socket.received, socket.sent, Write(Auth);
        assert writeBuf.None?;
        return Ok;
      }
      if how != METHOD_NONE {
        next := NoState;
        return Err(SocksConnectionFailed);
      }
      at, before, next := socket.received, socket.sent, Write(Associate);
      rv := Ok;
    }

    method AcceptAuthentication(reply: seq<byte>) returns (rv: Rv)
      requires next == ReadComplete(Auth) && Arrived(Auth, reply) && |reply| == AUTH_REPLY
      modifies this`next, this`readBuf, this`at, this`before
      ensures Progress(rv) && Advanced()
    {
      AuthenticationRead(socket.c, at, before, socket.sent, reply);
      readBuf := None;
      if reply[0] != AUTH_VERSION {
        next := NoState;
        return Err(SocksConnectionFailed);
      }
      if reply[1] != 0 {
        next := NoState;
        return Err(ProxyAuthUnsupported);
      }
      at, before, next := socket.received, socket.sent, Write(Associate);
      rv := Ok;
    }

    method RefusePrefix(reply: seq<byte>) returns (rv: Rv)
      requires next == ReadComplete(Associate) && Arrived(Associate, reply) && |reply| == REPLY_PREFIX
      requires reply[0] != SOCKS5_VERSION || reply[1] != 0 || AddressLength(reply[3]) == 0
      modifies this`next
      ensures Progress(rv) && Advanced()
    {
      PrefixRefused(socket.c, at, socket.sent, reply);
      next := NoState;
      rv := Err(SocksConnectionFailed);
    }

    /** The fixed prefix is in; it says how much address follows. */
    method AcceptPrefix(reply: seq<byte>) returns (rv: Rv)
      requires next == ReadComplete(Associate) && Arrived(Associate, reply)
      requires |reply| == REPLY_PREFIX && replyRemaining == 0 && readBuf == Some(ReadBuffer(reply, REPLY_PREFIX))
      modifies this`next, this`readBuf, this`replyRemaining
      ensures Progress(rv) && Advanced()
    {
      if reply[0] != SOCKS5_VERSION || reply[1] != 0 {
        rv := RefusePrefix(reply);
        return;
      }
      if reply[3] == TYPE_IPV4 {
        replyRemaining := 4 + 2;
      } else if reply[3] == TYPE_IPV6 {
        replyRemaining := 16 + 2;
      } else {
        rv := RefusePrefix(reply);
        return;
      }
      readBuf := Some(ReadBuffer(reply, REPLY_PREFIX + replyRemaining));
      next := Read(Associate);
      rv := Ok;
    }

    /** The whole reply is in: it names the relay, or the proxy itself. */
    method AcceptReply(reply: seq<byte>) returns (rv: Rv)
      requires next == ReadComplete(Associate) && Arrived(Associate, reply)
      requires replyRemaining > 0 && |reply| == REPLY_PREFIX + replyRemaining
      requires reply[0] == SOCKS5_VERSION && reply[1] == 0
      requires AddressLength(reply[3]) > 0 && replyRemaining == AddressLength(reply[3]) + 2
      modifies this`next, this`readBuf, this`relay
      ensures Progress(rv) && Advanced()
    {
      ReplyAccepted(socket.c, at, socket.sent, reply);
      var named := NamedRelay(socket.c, reply);
      if named.None? {
        next := NoState;
        return Err(socket.c.peerError.value);
      }
      rv := UseRelay(reply, named.value);
    }

    method UseRelay(reply: seq<byte>, named: Endpoint) returns (rv: Rv)
      requires next == ReadComplete(Associate) && Arrived(Associate, reply)
      requires OneShot(socket.c) == Verdict(socket.c.udpConnect, Some(named), socket.received, socket.sent)
      modifies this`next, this`readBuf, this`relay
      ensures Progress(rv) && Advanced()
    {
      relay := Some(named);
      readBuf := None;
      next := UdpConnect;
      rv := Ok;
    }

    /** The endpoint of a reply; an all-zero address stands for the proxy's own,
        which may not be known. */
    static method NamedRelay(c: Setup, reply: seq<byte>) returns (named: Option<Endpoint>)
      requires |reply| >= 4 && AddressLength(reply[3]) > 0 && |reply| == REPLY_PREFIX + AddressLength(reply[3]) + 2
      ensures named == if AllZero(reply[4..|reply| - 2]) && c.peerError.Some? then None else Some(Relay(c, reply))
    {
      var length := if reply[3] == TYPE_IPV4 then 4 else 16;
      var address := reply[4..4 + length];
      var port := Port(reply[4 + length], reply[5 + length]);
      if AllZero(address) {
        if c.peerError.Some? {
          return None;
        }
        address := c.peer;
      }
      named := Some(Endpoint(address, port));
    }

    method DoUdpConnect() returns (rv: Rv)
      requires next.UdpConnect? && Ready(Ok)
      modifies this`next
      ensures Progress(rv) && Advanced()
    {
      next := NoState;
      rv := FromError(socket.c.udpConnect);
    }

    /** One turn of DoLoop. */
    method Turn(last: Rv) returns (rv: Rv)
      requires Ready(last)
      modifies this, socket
      ensures Progress(rv) && Advanced()
    {
      match next
      case ResolveProxy => rv := DoResolveProxy();
      case ResolveProxyComplete => rv := DoResolveProxyComplete(last);
      case TcpConnect => rv := DoTcpConnect();
      case TcpConnectComplete => rv := DoTcpConnectComplete(last);
      case Write(x) => rv := DoWrite(x);
      case WriteComplete(x) => rv := DoWriteComplete(x, last);
      case Read(x) => rv := DoRead(x);
      case ReadComplete(x) => rv := DoReadComplete(x, last);
      case UdpConnect => rv := DoUdpConnect();
    }

    method DoLoop(last: Rv) returns (rv: Rv)
      requires Ready(last)
      modifies this, socket
      ensures rv.Pending? ==> Suspended()
      ensures !rv.Pending? ==> Settled(rv)
      ensures Advanced()
    {
      rv := Turn(last);
      while !rv.Pending? && !next.NoState?
        invariant Progress(rv) && Advanced()
        decreases Stage(), BytesLeft(), Issue()
      {
        rv := Turn(rv);
      }
    }

    /** OnIOComplete, once for each operation that did not complete at once. */
    method Resume() returns (last: Rv)
      requires Suspended()
      modifies socket
      ensures Ready(last)
    {
      ghost var wanted := if next.WriteComplete? then before + Message(socket.c, next.x) else [];
      ghost var from := socket.Crossing();
      last := socket.Await();
      if next.ReadComplete? {
        var room := readBuf.value.capacity - |readBuf.value.bytes|;
        ReadExtends(socket.c, at, room, from, socket.Crossing(), last);
      } else if next.WriteComplete? {
        WriteShortens(socket.c, writeBuf.value, wanted, from, socket.Crossing(), last);
      }
    }

    /** ConnectAsync, driven to its callback. However reads and writes are cut and
        whichever of them are completed later, the attempt ends, with the relay
        or the error the one-shot client ends with, having sent and consumed
        exactly the bytes it does. */
    method ConnectAsync() returns (error: Option<Error>)
      requires socket.c.Valid() && socket.outstanding.None?
      requires socket.received == 0 && socket.sent == []
      requires next.NoState? && writeBuf.None? && readBuf.None? && relay.None?
      modifies this, socket
      ensures OneShot(socket.c) == Verdict(error, relay, socket.received, socket.sent)
    {
      next := ResolveProxy;
      var rv := DoLoop(Ok);
      while rv.Pending?
        invariant rv.Pending? ==> Suspended()
        invariant !rv.Pending? ==> Settled(rv)
        decreases Stage(), BytesLeft(), Issue(), rv.Pending?
      {
        var last := Resume();
        rv := DoLoop(last);
      }
      error := if rv.Ok? then None else Some(rv.e);
    }
  }

  /** Fragmentation independence, for every setup: a new association connects to
      what the one-shot client connects to. And a proxy that granted it has read
      the client's methods, its name and password if that was the method picked,
      and a request for a UDP association. */
  method Connect(c: Setup) returns (v: Verdict)
    requires c.Valid()
    ensures v == OneShot(c)
    ensures v.relay.Some? ==>
              && 2 <= |c.stream| && Offers(c, c.stream[1])
              && ReadSession(v.sent, c.stream[1])
                 == Some(Session(if c.username == [] then [0] else [0, 2],
                                 if c.stream[1] == 2 then Some(Login(c.username, c.password)) else None,
                                 3, [0, 0, 0, 0], 0))
  {
    if OneShot(c).relay.Some? {
      SessionIsRead(c);
    }
    var association := new Association(c);
    var error := association.ConnectAsync();
    v := Verdict(error, association.relay, association.socket.received, association.socket.sent);
  }
}
