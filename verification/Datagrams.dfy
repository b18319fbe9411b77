/** Whole packets, from Ethernet to the transport layer: the transport header that a sender has put
    behind the headers of all layers is the one that is found. */
module Datagrams {
  import opened Bytes
  import opened Layers
  import opened LayerStacks
  import opened Transport
  import opened PacketLayers

  /** What the innermost network layer carries: IPv4, IPv6, IPv6 in IPv4, or something else. */
  datatype Datagram =
    | V4(h: Header4, data: seq<Byte>)
    | V6(header: seq<Byte>, chain: Chain)
    | Tunnel(h: Header4, header: seq<Byte>, chain: Chain)
    | Foreign(kind: nat, body: seq<Byte>)

  /** A fixed IPv6 header and a chain of extension headers that the walk can pass. */
  predicate Formed6(header: seq<Byte>, chain: Chain) {
    |header| == 40 && header[6] == Protocol(chain) && ChainFormed(chain) && Transport.Passable(chain)
  }

  predicate Formed(d: Datagram) {
    match d
    case V4(h, data) => h.WellFormed() && h.protocol != 41
    case V6(header, chain) => Formed6(header, chain)
    case Tunnel(h, header, chain) => h.WellFormed() && h.protocol == 41 && Formed6(header, chain)
    case Foreign(kind, body) => kind != 0x0800 && kind != 0x86DD && !Shim(kind) && kind < 0x10000 && |body| > 0
  }

  function KindOf(d: Datagram): nat {
    match d
    case V4(_, _) => 0x0800
    case V6(_, _) => 0x86DD
    case Tunnel(_, _, _) => 0x0800
    case Foreign(kind, _) => kind
  }

  function BytesOf(d: Datagram): (b: seq<Byte>)
    requires Formed(d)
    ensures |b| > 0
  {
    match d
    case V4(h, data) => h.Bytes() + data
    case V6(header, chain) => header + Payload(chain)
    case Tunnel(h, header, chain) => h.Bytes() + (header + Payload(chain))
    case Foreign(_, body) => body
  }

  /** Where the transport header is if the datagram is at `at`: behind the IPv4 options, or behind the last
      extension header; IPv4 has none in later fragments. */
  function UpperOf(d: Datagram, at: nat): Cursor
    requires Formed(d)
  {
    match d
    case V4(h, data) => if h.offset == 0 then Cursor(at + |h.Bytes()|, h.protocol, |data|) else Nowhere
    case V6(header, chain) => UpperAt(chain, at + 40)
    case Tunnel(h, header, chain) => if h.offset == 0 then UpperAt(chain, at + |h.Bytes()| + 40) else Nowhere
    case Foreign(_, _) => Nowhere
  }

  lemma TransportFinds(m: seq<Byte>, at: nat, d: Datagram)
    requires Formed(d) && Holds(m, at, BytesOf(d))
    ensures TransportOf(m, Cursor(at, KindOf(d), |BytesOf(d)|)) == UpperOf(d, at)
  {
    hide Holds, FromIp, FromIp6, Header4.Bytes, Header4.WellFormed, Payload, ChainFormed, Transport.Passable, Protocol, UpperAt;
    match d
    case V4(h, data) => IpFinds(m, at, h, data);
    case V6(header, chain) => Ip6Finds(m, at, header, chain);
    case Tunnel(h, header, chain) =>
      var inner := header + Payload(chain);
      IpFinds(m, at, h, inner);
      HoldsParts(m, at, h.Bytes(), inner);
      Ip6Finds(m, at + |h.Bytes()|, header, chain);
    case Foreign(_, _) =>
  }

  /** The frame `f` is what a sender makes of `d` with the headers of `s` in between. */
  ghost predicate Carries(f: Frame, addresses: seq<Byte>, s: Stack, d: Datagram) {
    && |addresses| == 12 && WellFormed(s) && Formed(d) && Innermost(s) == Stack.Network(KindOf(d), BytesOf(d))
    && f.Remaining() == |Ethernet(addresses, s)| && Holds(f.mem, f.payload, Ethernet(addresses, s))
  }

  /** Where `d` is. */
  ghost function StartOf(f: Frame, addresses: seq<Byte>, s: Stack, d: Datagram): nat
    requires Carries(f, addresses, s, d)
  {
    f.payload + |Ethernet(addresses, s)| - |BytesOf(d)|
  }

  lemma DatagramHeld(f: Frame, addresses: seq<Byte>, s: Stack, d: Datagram)
    requires Carries(f, addresses, s, d) && LayerStacks.Passable(s)
    ensures Holds(f.mem, StartOf(f, addresses, s, d), BytesOf(d))
    ensures f.Network() == Cursor(StartOf(f, addresses, s, d), KindOf(d), |BytesOf(d)|)
  {
    hide Holds, Layer3, WellFormed, Formed, Encode, Innermost, LayerStacks.Stop, StopKind, BytesOf, KindOf, Reachable,
      LayerStacks.Passable, Frame.Remaining;
    Layer3Finds(f.mem, f.payload, addresses, s);
    StopExactly(s);
    StopHeld(f.mem, f.payload, addresses, s);
    NetworkEncoding(Innermost(s));
    Lengths(addresses, s);
  }

  /** trace_get_transport finds the transport header of every packet with a network layer that
      trace_get_layer3 finds, and none where there is none. */
  lemma SegmentFinds(f: Frame, addresses: seq<Byte>, s: Stack, d: Datagram)
    requires Carries(f, addresses, s, d) && LayerStacks.Passable(s)
    ensures Segment(f) == UpperOf(d, StartOf(f, addresses, s, d))
  {
    DatagramHeld(f, addresses, s, d);
    hide Carries, Frame.Network, StartOf, TransportOf, UpperOf, LayerStacks.Passable;
    DatagramFormed(f, addresses, s, d);
    TransportFinds(f.mem, StartOf(f, addresses, s, d), d);
  }

  lemma DatagramFormed(f: Frame, addresses: seq<Byte>, s: Stack, d: Datagram)
    requires Carries(f, addresses, s, d)
    ensures Formed(d)
  {
  }

  /** IPv6 in a PPPoE session has no transport header. */
  lemma NoTransportInSession(addresses: seq<Byte>, session: seq<Byte>, body: seq<Byte>)
    requires |addresses| == 12 && |session| == 6 && |body| > 0 && body[0] / 16 == 6 && |body| < 0x8000
    ensures var s := Pppoe(session, Stack.Network(ETHERTYPE_IPV6, body));
            && WellFormed(s) && |Ethernet(addresses, s)| < 0x10000
            && Segment(Padded(addresses, s, [])) == Nowhere
  {
    Ipv6InSession(addresses, session, body);
    hide WellFormed, Ethernet, Padded, Frame.Network;
  }

  // ----- Payload lengths -----

  /** The length fields say what is there. */
  predicate Honest(d: Datagram)
    requires Formed(d)
  {
    && |BytesOf(d)| < 0x10000
    && match d
       case V4(h, _) => h.service[1..3] == Number16(|BytesOf(d)|)
       case V6(header, chain) => header[4..6] == Number16(|Payload(chain)|)
       case Tunnel(h, _, _) => h.service[1..3] == Number16(|BytesOf(d)|)
       case Foreign(_, _) => true
  }

  function ProtocolOf(d: Datagram): nat {
    match d
    case V4(h, _) => h.protocol
    case V6(_, chain) => Last(chain).protocol
    case Tunnel(_, _, chain) => Last(chain).protocol
    case Foreign(_, _) => 0
  }

  function DataOf(d: Datagram): seq<Byte> {
    match d
    case V4(_, data) => data
    case V6(_, chain) => Last(chain).data
    case Tunnel(_, _, chain) => Last(chain).data
    case Foreign(_, body) => []
  }

  /** The bytes of IPv6 extension headers. */
  function ExtensionBytes(d: Datagram): nat {
    match d
    case V6(_, chain) => |Payload(chain)| - |Last(chain).data|
    case Tunnel(_, _, chain) => |Payload(chain)| - |Last(chain).data|
    case _ => 0
  }

  /** `head` is a whole transport header: of TCP as long as it says, of the others 8 bytes. */
  predicate HeaderOf(proto: nat, head: seq<Byte>) {
    if proto == 6 then |head| >= 20 && |head| == 4 * (head[12] / 16) as int
    else (proto == 17 || proto == 1 || proto == 58) && |head| == 8
  }

  lemma FieldHeld(m: seq<Byte>, at: nat, b: seq<Byte>, i: nat, n: nat)
    requires Holds(m, at, b) && i + 2 <= |b| && b[i..i + 2] == Number16(n) && n < 0x10000
    ensures BigEndian16(m, at + i) == n
  {
    assert b == b[..i] + (b[i..i + 2] + b[i + 2..]);
    HoldsParts(m, at, b[..i], b[i..i + 2] + b[i + 2..]);
    HoldsParts(m, at + i, b[i..i + 2], b[i + 2..]);
    HoldsNumber(m, at + i, n);
  }

  /** What the IP header announces, of a datagram with a transport header. */
  lemma AnnouncedLength(m: seq<Byte>, at: nat, d: Datagram)
    requires Formed(d) && Honest(d) && Holds(m, at, BytesOf(d)) && !d.Foreign?
    ensures IpCarries(m, Cursor(at, KindOf(d), |BytesOf(d)|)) == |DataOf(d)| + ExtensionBytes(d)
  {
    hide Holds, At, BigEndian16, Number16, Payload, ChainFormed, Transport.Passable, Protocol, Last;
    match d
    case V4(h, data) =>
      HoldsParts(m, at, h.Bytes(), data);
      Announced4(m, at, h, |BytesOf(d)|);
    case V6(header, chain) =>
      HoldsParts(m, at, header, Payload(chain));
      FieldHeld(m, at, header, 4, |Payload(chain)|);
    case Tunnel(h, header, chain) =>
      HoldsParts(m, at, h.Bytes(), header + Payload(chain));
      Announced4(m, at, h, |BytesOf(d)|);
  }

  lemma Announced4(m: seq<Byte>, at: nat, h: Header4, n: nat)
    requires h.WellFormed() && Holds(m, at, h.Bytes()) && n < 0x10000 && h.service[1..3] == Number16(n)
    ensures BigEndian16(m, at + 2) == n && 4 * (At(m, at) % 16) == |h.Bytes()| && At(m, at + 9) == h.protocol
  {
    hide Holds, At, BigEndian16, Number16;
    HoldsAt(m, at, h.Bytes(), 0);
    HoldsAt(m, at, h.Bytes(), 9);
    assert h.Bytes()[2..4] == h.service[1..3];
    FieldHeld(m, at, h.Bytes(), 2, n);
  }

  /** trace_get_payload_length on a whole packet is the length behind the transport header, and the bytes
      of IPv6 extension headers on top of that: right exactly if there are none. */
  lemma PayloadFinds(f: Frame, addresses: seq<Byte>, s: Stack, d: Datagram, head: seq<Byte>, payload: seq<Byte>)
    requires Carries(f, addresses, s, d) && LayerStacks.Passable(s) && Honest(d) && UpperOf(d, 0).Cursor?
    requires DataOf(d) == head + payload && HeaderOf(ProtocolOf(d), head)
    ensures PayloadSize(f) == |payload| + ExtensionBytes(d)
    ensures PayloadSize(f) == |payload| <==> ExtensionBytes(d) == 0
  {
    SegmentFinds(f, addresses, s, d);
    DatagramHeld(f, addresses, s, d);
    DatagramFormed(f, addresses, s, d);
    var at := StartOf(f, addresses, s, d);
    AnnouncedLength(f.mem, at, d);
    UpperHeld(f.mem, at, d, head, payload);
    hide Carries, Frame.Network, StartOf, TransportOf, LayerStacks.Passable, Honest, Holds, IpCarries, Formed, Segment, BytesOf,
      At;
    LongEnough(d);
  }

  /** It is 0 for other protocols, and where the fixed part of the transport header is not all there. */
  lemma NoPayload(f: Frame, addresses: seq<Byte>, s: Stack, d: Datagram)
    requires Carries(f, addresses, s, d) && LayerStacks.Passable(s)
    requires ProtocolOf(d) !in {1, 6, 17, 58} || |DataOf(d)| < (if ProtocolOf(d) == 6 then 20 else 8)
    ensures PayloadSize(f) == 0
  {
    SegmentFinds(f, addresses, s, d);
    DatagramHeld(f, addresses, s, d);
    DatagramFormed(f, addresses, s, d);
    hide Carries, Frame.Network, StartOf, TransportOf, LayerStacks.Passable, Holds, IpCarries, Formed, Segment, BytesOf, At;
  }

  lemma LongEnough(d: Datagram)
    requires Formed(d) && !d.Foreign?
    ensures |BytesOf(d)| >= if KindOf(d) == 0x0800 then 20 else 40
  {
  }

  lemma {:induction false} LastHeld(m: seq<Byte>, at: nat, chain: Chain)
    requires Holds(m, at, Payload(chain))
    ensures Holds(m, UpperAt(chain, at).at, Last(chain).data)
    decreases chain
  {
    hide Holds, Leading;
    if !chain.Upper? {
      HoldsParts(m, at, Leading(chain), Payload(chain.next));
      LastHeld(m, at + |Leading(chain)|, chain.next);
    }
  }

  /** The transport header, and where its length is if it has one. */
  lemma UpperHeld(m: seq<Byte>, at: nat, d: Datagram, head: seq<Byte>, payload: seq<Byte>)
    requires Formed(d) && Holds(m, at, BytesOf(d)) && UpperOf(d, 0).Cursor?
    requires DataOf(d) == head + payload && HeaderOf(ProtocolOf(d), head)
    ensures var t := UpperOf(d, at);
            && t.Cursor? && t.kind == ProtocolOf(d) && t.remaining == |head| + |payload| && 4 * HeaderWords(m, t) == |head|
  {
    hide Holds, At, Payload, ChainFormed, Transport.Passable, Protocol, Last, Header4.Bytes;
    var t := UpperOf(d, at);
    match d {
      case V4(h, data) => HoldsParts(m, at, h.Bytes(), data);
      case V6(header, chain) =>
        HoldsParts(m, at, header, Payload(chain));
        LastHeld(m, at + 40, chain);
      case Tunnel(h, header, chain) =>
        HoldsParts(m, at, h.Bytes(), header + Payload(chain));
        HoldsParts(m, at + |h.Bytes()|, header, Payload(chain));
        LastHeld(m, at + |h.Bytes()| + 40, chain);
    }
    assert Holds(m, t.at, head + payload);
    if ProtocolOf(d) == 6 {
      HoldsAt(m, t.at, head + payload, 12);
    }
  }
}
