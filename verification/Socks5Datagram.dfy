/** Datagrams through the relay: the header of section 7 of RFC 1928 around every
    payload, put on by Write and taken off by Read. */
module Socks5Datagram {
  import opened Prelude
  import opened Socks5Types

  const HEADER_IPV4: nat := 2 + 1 + 1 + 4 + 2
  const HEADER_IPV6: nat := 2 + 1 + 1 + 16 + 2

  predicate IsIPv4(e: Endpoint) {
    |e.address| == 4
  }

  /** An IPEndPoint holds a four- or sixteen-byte address and a sixteen-bit port. */
  predicate IsEndpoint(e: Endpoint) {
    (|e.address| == 4 || |e.address| == 16) && e.port < 65536
  }

  function UdpHeaderSize(e: Endpoint): nat {
    if IsIPv4(e) then HEADER_IPV4 else HEADER_IPV6
  }

  /** The header as section 7 of RFC 1928 lays it out. */
  function Header(e: Endpoint): seq<byte>
    requires IsEndpoint(e)
  {
    [0, 0, 0, if IsIPv4(e) then TYPE_IPV4 else TYPE_IPV6] + e.address + [e.port / 256, e.port % 256]
  }

  method WriteUdpHeader(destination: Endpoint, out: array<byte>)
    requires IsEndpoint(destination) && UdpHeaderSize(destination) <= out.Length
    modifies out
    ensures out[..UdpHeaderSize(destination)] == Header(destination)
    ensures out[UdpHeaderSize(destination)..] == old(out[UdpHeaderSize(destination)..])
  {
    var bytes := destination.address;
    out[0], out[1], out[2] := 0, 0, 0;
    out[3] := if IsIPv4(destination) then TYPE_IPV4 else TYPE_IPV6;
    forall i | 0 <= i < |bytes| {
      out[4 + i] := bytes[i];
    }
    out[4 + |bytes|] := destination.port / 256;
    out[5 + |bytes|] := destination.port % 256;
  }

  /** Where a relayed datagram's payload begins; or that the header is malformed; or
      that finding out takes a byte the datagram does not have. The span the source
      indexes checks its bounds, so there is then no result at all. */
  datatype Offset = At(n: nat) | Malformed | OutOfBounds

  function UdpPayloadOffset(d: seq<byte>): Offset {
    if |d| < 4 then Malformed
    else if d[3] == TYPE_IPV4 then if |d| >= HEADER_IPV4 then At(HEADER_IPV4) else Malformed
    else if d[3] == TYPE_IPV6 then if |d| >= HEADER_IPV6 then At(HEADER_IPV6) else Malformed
    else if d[3] == TYPE_DOMAIN then
      if |d| <= 4 then OutOfBounds
      else
        var name: nat := d[4];
        if |d| >= 5 + name + 2 then At(5 + name + 2) else Malformed
    else Malformed
  }

  /** The bytes the parse looks at. */
  function Looks(d: seq<byte>): seq<nat> {
    if |d| < 4 then [] else if d[3] == TYPE_DOMAIN then [3, 4] else [3]
  }

  /** The parse stays inside the datagram, and so has a result, for all datagrams but
      those of four bytes that announce a name. */
  lemma ParseStaysInside(d: seq<byte>)
    ensures (forall i :: i in Looks(d) ==> i < |d|) <==> !(|d| == 4 && d[3] == TYPE_DOMAIN)
    ensures (forall i :: i in Looks(d) ==> i < |d|) <==> !UdpPayloadOffset(d).OutOfBounds?
  {
    if |d| == 4 && d[3] == TYPE_DOMAIN {
      assert 4 in Looks(d);
    }
  }

  /** The three addresses a header may carry. */
  datatype Address = IP(endpoint: Endpoint) | Domain(name: seq<byte>, port: nat)

  predicate IsAddress(a: Address) {
    match a
    case IP(e) => IsEndpoint(e)
    case Domain(name, port) => |name| < 256 && port < 65536
  }

  function AddressHeader(a: Address): seq<byte>
    requires IsAddress(a)
  {
    match a
    case IP(e) => Header(e)
    case Domain(name, port) => [0, 0, 0, TYPE_DOMAIN, |name|] + name + [port / 256, port % 256]
  }

  /** The offset is the length of the header that is there, and the payload is
      what was put behind it, for every address and every payload. */
  lemma OffsetIsHeaderLength(a: Address, payload: seq<byte>)
    requires IsAddress(a)
    ensures UdpPayloadOffset(AddressHeader(a) + payload) == At(|AddressHeader(a)|)
    ensures (AddressHeader(a) + payload)[|AddressHeader(a)|..] == payload
  {
    var d := AddressHeader(a) + payload;
    if a.IP? {
      assert d[3] == AddressHeader(a)[3];
    } else {
      assert d[3] == TYPE_DOMAIN && d[4] == |a.name|;
    }
  }

  /** What a relay reads. */
  datatype Relayed = Relayed(fragment: byte, address: Address, payload: seq<byte>)

  /** Section 7 of RFC 1928 in its own numbers: two zeros, the fragment number, the
      type of the address, the address, the port with its high byte first, and then
      the payload. */
  function ReadDatagram(d: seq<byte>): (r: Option<Relayed>) {
    if |d| < 4 || d[0] != 0 || d[1] != 0 then None
    else if d[3] == 1 && |d| >= 10 then
      Some(Relayed(d[2], IP(Endpoint(d[4..8], 256 * d[8] as int + d[9] as int)), d[10..]))
    else if d[3] == 4 && |d| >= 22 then
      Some(Relayed(d[2], IP(Endpoint(d[4..20], 256 * d[20] as int + d[21] as int)), d[22..]))
    else if d[3] == 3 && |d| >= 5 && |d| >= 7 + d[4] as int then
      var end := 5 + d[4] as int;
      Some(Relayed(d[2], Domain(d[5..end], 256 * d[end] as int + d[end + 1] as int), d[end + 2..]))
    else None
  }

  /** A relay reads from a wrapped payload that it is no fragment, the address it
      was wrapped for, and the payload. */
  lemma WrappedIsRead(a: Address, payload: seq<byte>)
    requires IsAddress(a)
    ensures ReadDatagram(AddressHeader(a) + payload) == Some(Relayed(0, a, payload))
  {
    match a
    case IP(e) => IpIsRead(e, payload);
    case Domain(name, port) => DomainIsRead(name, port, payload);
  }

  lemma IpIsRead(e: Endpoint, payload: seq<byte>)
    requires IsEndpoint(e)
    ensures ReadDatagram(Header(e) + payload) == Some(Relayed(0, IP(e), payload))
  {
    var d, n := Header(e) + payload, |e.address|;
    assert d[4..4 + n] == e.address && d[6 + n..] == payload;
    assert d[4 + n] == e.port / 256 && d[5 + n] == e.port % 256;
  }

  lemma DomainIsRead(name: seq<byte>, port: nat, payload: seq<byte>)
    requires |name| < 256 && port < 65536
    ensures var a := Domain(name, port);
            ReadDatagram(AddressHeader(a) + payload) == Some(Relayed(0, a, payload))
  {
    var d, n := AddressHeader(Domain(name, port)) + payload, |name|;
    assert d[5..5 + n] == name && d[7 + n..] == payload;
    assert d[5 + n] == port / 256 && d[6 + n] == port % 256;
  }

  /** A datagram starts with a header: three bytes nobody looks at, then one of the
      three addresses. */
  ghost predicate StartsWith(d: seq<byte>, a: Address)
    requires IsAddress(a)
  {
    |d| >= |AddressHeader(a)| && d[3..|AddressHeader(a)|] == AddressHeader(a)[3..]
  }

  ghost predicate HasHeader(d: seq<byte>) {
    exists a :: IsAddress(a) && StartsWith(d, a)
  }

  lemma HeaderIsAccepted(d: seq<byte>, a: Address)
    requires IsAddress(a) && StartsWith(d, a)
    ensures UdpPayloadOffset(d) == At(|AddressHeader(a)|)
  {
    var h := AddressHeader(a);
    assert d[3] == d[3..|h|][0] == h[3..][0] == h[3];
    assert d[4] == d[3..|h|][1] == h[3..][1] == h[4];
  }

  lemma StartsBytewise(d: seq<byte>, a: Address)
    requires IsAddress(a) && |d| >= |AddressHeader(a)|
    requires forall i :: 3 <= i < |AddressHeader(a)| ==> d[i] == AddressHeader(a)[i]
    ensures StartsWith(d, a)
  {
  }

  lemma PortBytes(high: byte, low: byte)
    ensures Port(high, low) / 256 == high && Port(high, low) % 256 == low && Port(high, low) < 65536
  {
  }

  lemma AcceptedIp(d: seq<byte>, n: nat)
    requires n == 4 || n == 16
    requires |d| >= 6 + n && d[3] == if n == 4 then TYPE_IPV4 else TYPE_IPV6
    ensures var a := IP(Endpoint(d[4..4 + n], Port(d[4 + n], d[5 + n])));
            IsAddress(a) && StartsWith(d, a)
  {
    PortBytes(d[4 + n], d[5 + n]);
    StartsBytewise(d, IP(Endpoint(d[4..4 + n], Port(d[4 + n], d[5 + n]))));
  }

  lemma AcceptedDomain(d: seq<byte>, n: nat)
    requires |d| >= 7 + n && d[3] == TYPE_DOMAIN && d[4] == n
    ensures var a := Domain(d[5..5 + n], Port(d[5 + n], d[6 + n]));
            IsAddress(a) && StartsWith(d, a)
  {
    PortBytes(d[5 + n], d[6 + n]);
    StartsBytewise(d, Domain(d[5..5 + n], Port(d[5 + n], d[6 + n])));
  }

  lemma AcceptedHasHeader(d: seq<byte>)
    requires UdpPayloadOffset(d).At?
    ensures HasHeader(d)
  {
    if d[3] == TYPE_DOMAIN {
      AcceptedDomain(d, d[4]);
    } else {
      AcceptedIp(d, if d[3] == TYPE_IPV4 then 4 else 16);
    }
  }

  /** A datagram is accepted exactly when it starts with a header. */
  lemma AcceptedIffHeader(d: seq<byte>)
    ensures UdpPayloadOffset(d).At? <==> HasHeader(d)
  {
    if UdpPayloadOffset(d).At? {
      AcceptedHasHeader(d);
    }
    if a: Address :| IsAddress(a) && StartsWith(d, a) {
      HeaderIsAccepted(d, a);
    }
  }

  /** What section 7 of RFC 1928 has a client accept that does not reassemble: a
      header whose fragment number is zero. */
  ghost predicate AcceptedUnfragmented(d: seq<byte>) {
    HasHeader(d) && |d| > 2 && d[2] == 0
  }

  lemma IpIsUnfragmented(e: Endpoint, payload: seq<byte>)
    requires IsEndpoint(e)
    ensures ReadDatagram(Header(e) + payload) == Some(Relayed(0, IP(e), payload))
    ensures AcceptedUnfragmented(Header(e) + payload)
  {
    IpIsRead(e, payload);
    assert (Header(e) + payload)[3..|Header(e)|] == Header(e)[3..];
    assert StartsWith(Header(e) + payload, IP(e));
  }

  /** The fragment number is not looked at. The client does as that section says for
      exactly the datagrams that are no fragment or have no header anyway. */
  lemma FragmentsAreNotDropped(d: seq<byte>)
    ensures (UdpPayloadOffset(d).At? <==> AcceptedUnfragmented(d))
            <==> !HasHeader(d) || d[2] == 0
  {
    AcceptedIffHeader(d);
  }

  /** What a datagram operation came to; `Aborted` is none, the process having ended. */
  datatype Io = Count(n: nat) | Fail(e: Error) | Aborted

  /** The connected UDP socket below: what it has put on the wire, what is waiting
      to be read. */
  class DatagramSocket {
    var wire: seq<seq<byte>>
    var inbox: seq<seq<byte>>

    constructor ()
      ensures wire == [] && inbox == []
    {
      wire, inbox := [], [];
    }

    /** A datagram goes out whole or not at all; anything but its length means it
        did not go out. */
    method Write(datagram: seq<byte>) returns (r: Io)
      modifies this`wire
      ensures !r.Aborted? && (r.Count? ==> r.n <= |datagram|)
      ensures wire == if r == Count(|datagram|) then old(wire) + [datagram] else old(wire)
    {
      var short: nat :| short <= |datagram|;
      var fails: bool := *;
      if fails {
        r := Fail(Network(-1));
      } else {
        r := Count(short);
        if short == |datagram| {
          wire := wire + [datagram];
        }
      }
    }

    /** A datagram longer than the buffer is an error, not a truncation. */
    method Read(capacity: nat) returns (r: Io, datagram: seq<byte>)
      requires inbox != []
      modifies this`inbox
      ensures inbox == old(inbox)[1..]
      ensures var d := old(inbox)[0];
              if |d| <= capacity then r == Count(|d|) && datagram == d else r == Fail(MsgTooBig)
    {
      datagram := inbox[0];
      inbox := inbox[1..];
      r := if |datagram| <= capacity then Count(|datagram|) else Fail(MsgTooBig);
    }
  }

  /** What Read makes of one datagram, given the caller's room. */
  function Received(d: seq<byte>, room: nat): Io {
    if |d| > room + HEADER_IPV6 then Fail(MsgTooBig)
    else if |d| == 0 then Count(0)
    else
      match UdpPayloadOffset(d)
      case OutOfBounds => Aborted
      case Malformed => Fail(SocksConnectionFailed)
      case At(offset) => if |d| - offset > room then Fail(MsgTooBig) else Count(|d| - offset)
  }

  /** SOCKS5UDPClientSocket once associated. */
  class Tunnel {
    const udp: DatagramSocket
    const destination: Endpoint

    constructor (udp: DatagramSocket, destination: Endpoint)
      requires IsEndpoint(destination)
      ensures this.udp == udp && this.destination == destination
    {
      this.udp := udp;
      this.destination := destination;
    }

    /** The payload length comes back exactly when the whole datagram, header in
        front, has gone out; the relay reads from it the payload, the destination,
        and that it is no fragment. */
    method Write(payload: seq<byte>) returns (r: Io)
      requires IsEndpoint(destination)
      modifies udp`wire
      ensures udp.wire == if r == Count(|payload|) then old(udp.wire) + [Header(destination) + payload]
                          else old(udp.wire)
      ensures !r.Aborted? && (r.Count? ==> r.n <= |payload|)
      ensures r == Count(|payload|) ==>
                && |udp.wire| == |old(udp.wire)| + 1
                && ReadDatagram(udp.wire[|old(udp.wire)|]) == Some(Relayed(0, IP(destination), payload))
                && AcceptedUnfragmented(udp.wire[|old(udp.wire)|])
    {
      IpIsUnfragmented(destination, payload);
      var headerSize := UdpHeaderSize(destination);
      var wrapped := new byte[headerSize + |payload|](_ => 0);
      WriteUdpHeader(destination, wrapped);
      forall i | 0 <= i < |payload| {
        wrapped[headerSize + i] := payload[i];
      }
      assert wrapped[..headerSize] == Header(destination);
      assert wrapped[..] == wrapped[..headerSize] + payload;
      var sent := udp.Write(wrapped[..]);
      if sent.Fail? {
        return sent;
      }
      if sent.n < headerSize {
        return Fail(Failed);
      }
      r := Count(sent.n - headerSize);
    }

    method Read(buf: array<byte>, bufLen: nat) returns (r: Io)
      requires udp.inbox != [] && bufLen <= buf.Length
      modifies udp`inbox, buf
      ensures udp.inbox == old(udp.inbox)[1..]
      ensures var d := old(udp.inbox)[0];
              && r == Received(d, bufLen)
              && (r.Count? ==> r.n <= |d| && r.n <= buf.Length && buf[..r.n] == d[|d| - r.n..]
                               && buf[r.n..] == old(buf[r.n..]))
              && (!r.Count? ==> buf[..] == old(buf[..]))
    {
      var got, datagram := udp.Read(bufLen + HEADER_IPV6);
      if got.Fail? || got.n == 0 {
        return got;
      }
      var offset := UdpPayloadOffset(datagram);
      if offset.OutOfBounds? {
        return Aborted;
      }
      if offset.Malformed? {
        return Fail(SocksConnectionFailed);
      }
      var payload := datagram[offset.n..];
      if |payload| > bufLen {
        return Fail(MsgTooBig);
      }
      forall i | 0 <= i < |payload| {
        buf[i] := payload[i];
      }
      assert buf[..|payload|] == payload;
      r := Count(|payload|);
    }
  }

  /** Transparency: what the other side wraps for an IP address is read back whole
      whenever the payload fits; for a domain name, exactly when the header fits
      in the room an IPv6 header would have left. */
  lemma TunnelIsTransparent(a: Address, payload: seq<byte>, room: nat)
    requires IsAddress(a)
    ensures Received(AddressHeader(a) + payload, room) == Count(|payload|)
            <==> |payload| <= room && (a.IP? || |a.name| + 7 + |payload| <= room + HEADER_IPV6)
  {
    OffsetIsHeaderLength(a, payload);
    assert |AddressHeader(a)| <= HEADER_IPV6 || a.Domain?;
  }

  /** What becomes of a datagram, in terms of a relay's reading of it, which would
      insist on the first two bytes: one that is too long and one whose payload is
      are errors, an empty one is an empty payload, one that cannot be read is the
      end of the association. */
  lemma ReceivedIsRead(d: seq<byte>, room: nat)
    requires !(|d| == 4 && d[3] == 3)
    ensures |d| > room + 22 ==> Received(d, room) == Fail(MsgTooBig)
    ensures d == [] ==> Received(d, room) == Count(0)
    ensures 0 < |d| <= room + 22 ==>
              Received(d, room) ==
              match if |d| < 3 then None else ReadDatagram([0, 0, 0] + d[3..])
              case None => Fail(SocksConnectionFailed)
              case Some(read) => if |read.payload| > room then Fail(MsgTooBig) else Count(|read.payload|)
  {
    if |d| >= 3 {
      var w := [0, 0, 0] + d[3..];
      assert |w| == |d| && forall i :: 3 <= i < |d| ==> w[i] == d[i];
    }
  }

  /** A datagram is answered at all, whatever the room, unless it is one of those
      four-byte ones and is read. */
  lemma AbortsExactly(d: seq<byte>, room: nat)
    ensures Received(d, room).Aborted? <==> |d| == 4 && d[3] == TYPE_DOMAIN
  {
    ParseStaysInside(d);
  }

  lemma FourBytesAbort(room: nat)
    ensures Received([0, 0, 0, TYPE_DOMAIN], room) == Aborted
  {
    AbortsExactly([0, 0, 0, TYPE_DOMAIN], room);
  }

  /** The first fragment of something passes for a whole datagram. */
  lemma FragmentIsReceived(room: nat)
    requires room > 0
    ensures var d := [0, 0, 1, TYPE_IPV4, 10, 0, 0, 1, 1, 187, 7];
            d[2] != 0 && HasHeader(d) && Received(d, room) == Count(1)
  {
    AcceptedIp([0, 0, 1, TYPE_IPV4, 10, 0, 0, 1, 1, 187, 7], 4);
  }

  /** A name of sixteen bytes is already too long for a payload that fills the
      caller's buffer. */
  lemma LongNameIsRefused(room: nat)
    ensures exists a, payload :: IsAddress(a) && |payload| == room
              && Received(AddressHeader(a) + payload, room) == Fail(MsgTooBig)
  {
    var a := Domain(seq(16, _ => 97), 443);
    var payload: seq<byte> := seq(room, _ => 0);
    assert |AddressHeader(a) + payload| == 23 + room;
    assert IsAddress(a) && |payload| == room;
  }
}
