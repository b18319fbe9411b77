/** From the network layer to the transport layer: the IPv4 header, the IPv6 extension headers, and
    the options of either protocol. */
module Transport {
  import opened Bytes
  import opened Layers
  import opened LayerStacks

  const ICMP: nat := 1
  const TCP: nat := 6
  const UDP: nat := 17
  const ICMP6: nat := 58
  const IPPROTO_IPV6: nat := 41
  const IPPROTO_ROUTING: nat := 43
  const IPPROTO_FRAGMENT: nat := 44
  const IPPROTO_AH: nat := 51
  const IPPROTO_DSTOPTS: nat := 60
  const IP6_HEADER: nat := 40

  // ----- IPv4 -----

  function HeaderLength(first: Byte): nat {
    4 * (first % 16)
  }

  /** Not the first fragment: the low 13 bits of the offset field are not all 0. */
  predicate LaterFragment(m: seq<Byte>, at: nat) {
    BigEndian16(m, at + 6) % 0x2000 != 0
  }

  /** The payload of an IPv4 header; the kind of the cursor is the protocol. */
  function FromIp(m: seq<Byte>, at: nat, remaining: nat): (c: Cursor)
    ensures c.Cursor? ==> c.at + c.remaining == at + remaining && at <= c.at <= at + 60
  {
    if At(m, at) / 16 != 4 then Nowhere
    else if LaterFragment(m, at) then Nowhere
    else if remaining < HeaderLength(At(m, at)) then Nowhere
    else
      var length := HeaderLength(At(m, at));
      Cursor(at + length, At(m, at + 9), remaining - length)
  }

  /** The bytes that decide: enough was captured to know the answer. */
  predicate IpDecided(m: seq<Byte>, at: nat, remaining: nat) {
    || remaining >= 10
    || (remaining >= 1 && (At(m, at) / 16 != 4 || remaining < HeaderLength(At(m, at))))
    || (remaining >= 7 && At(m, at + 6) % 32 != 0)
    || (remaining >= 8 && At(m, at + 7) != 0)
  }

  ghost predicate IpIndependent(m: seq<Byte>, at: nat, remaining: nat) {
    forall n: seq<Byte> :: Agree(m, n, at, at + remaining) ==> FromIp(n, at, remaining) == FromIp(m, at, remaining)
  }

  lemma FragmentBits(m: seq<Byte>, at: nat)
    ensures LaterFragment(m, at) <==> At(m, at + 6) % 32 != 0 || At(m, at + 7) != 0
  {
    JoinModulo(At(m, at + 6), At(m, at + 7));
  }

  lemma JoinModulo(high: nat, low: nat)
    requires low < 256
    ensures Join(high, low) % 0x2000 == Join(high % 32, low)
  {
    assert high == 32 * (high / 32) + high % 32;
    assert Join(high, low) == 0x2000 * (high / 32) + Join(high % 32, low);
  }

  lemma IpDecidedSuffices(m: seq<Byte>, n: seq<Byte>, at: nat, remaining: nat)
    requires IpDecided(m, at, remaining) && Agree(m, n, at, at + remaining)
    ensures FromIp(n, at, remaining) == FromIp(m, at, remaining)
  {
    hide LaterFragment, HeaderLength, At;
    FragmentBits(m, at);
    FragmentBits(n, at);
  }

  /** `m` with `b` at `at`, made longer where need be. */
  function With(m: seq<Byte>, at: nat, b: Byte): (n: seq<Byte>)
    ensures forall i: nat :: At(n, i) == if i == at then b else At(m, i)
  {
    if at < |m| then m[at := b] else m + seq(at - |m|, _ => 0) + [b]
  }

  /** Another packet with the same captured bytes and another answer. */
  function OtherPacket(m: seq<Byte>, at: nat, remaining: nat): (n: seq<Byte>) {
    if remaining >= 8 then With(m, at + 9, (At(m, at + 9) + 1) % 256)
    else if FromIp(m, at, remaining).Cursor? then With(m, at + 7, 1)
    else
      var n := With(m, at + 7, 0);
      var k := if remaining < 7 then With(n, at + 6, 0) else n;
      if remaining == 0 then With(k, at, 0x40) else k
  }

  lemma IpUndecided(m: seq<Byte>, at: nat, remaining: nat)
    requires !IpDecided(m, at, remaining)
    ensures Agree(m, OtherPacket(m, at, remaining), at, at + remaining)
    ensures FromIp(OtherPacket(m, at, remaining), at, remaining) != FromIp(m, at, remaining)
  {
    hide LaterFragment, At, With;
    var n := OtherPacket(m, at, remaining);
    FragmentBits(m, at);
    FragmentBits(n, at);
    assert remaining == 0 || At(n, at) == At(m, at);
    assert remaining < 7 || At(n, at + 6) == At(m, at + 6);
  }

  /** The answer is a function of the captured bytes exactly when these decide it. */
  lemma IpIndependentExactly(m: seq<Byte>, at: nat, remaining: nat)
    ensures IpIndependent(m, at, remaining) <==> IpDecided(m, at, remaining)
  {
    if IpDecided(m, at, remaining) {
      forall n | Agree(m, n, at, at + remaining)
        ensures FromIp(n, at, remaining) == FromIp(m, at, remaining)
      {
        IpDecidedSuffices(m, n, at, remaining);
      }
    } else {
      IpUndecided(m, at, remaining);
    }
  }

  /** An IPv4 header as its sender writes it. */
  datatype Header4 = Header4(service: seq<Byte>, flags: nat, offset: nat, ttl: Byte, protocol: Byte,
                             addressing: seq<Byte>, options: seq<Byte>) {
    predicate WellFormed() {
      && |service| == 5 && flags < 8 && offset < 0x2000 && |addressing| == 10
      && |options| % 4 == 0 && |options| <= 40
    }

    /** Version and length, five bytes up to the fragment field, that field, time to live, protocol,
        checksum and addresses, options. */
    function Bytes(): (b: seq<Byte>)
      requires WellFormed()
      ensures |b| == 20 + |options|
    {
      [0x45 + |options| / 4] + service + Number16(0x2000 * flags + offset) + [ttl, protocol] + addressing + options
    }
  }

  /** The payload of a first fragment is found behind the options, with its protocol; later fragments
      have no transport header. */
  lemma IpFinds(m: seq<Byte>, at: nat, h: Header4, data: seq<Byte>)
    requires h.WellFormed() && Holds(m, at, h.Bytes() + data)
    ensures FromIp(m, at, |h.Bytes() + data|) ==
            if h.offset == 0 then Cursor(at + |h.Bytes()|, h.protocol, |data|) else Nowhere
  {
    hide At, Number16, Holds, BigEndian16;
    HoldsParts(m, at, h.Bytes(), data);
    HoldsAt(m, at, h.Bytes(), 0);
    HoldsAt(m, at, h.Bytes(), 9);
    FragmentHeld(m, at, h);
  }

  lemma FragmentHeld(m: seq<Byte>, at: nat, h: Header4)
    requires h.WellFormed() && Holds(m, at, h.Bytes())
    ensures LaterFragment(m, at) <==> h.offset != 0
  {
    hide Holds, Number16, BigEndian16;
    var first, field := [0x45 + |h.options| / 4] + h.service, Number16(0x2000 * h.flags + h.offset);
    var rest := [h.ttl, h.protocol] + h.addressing + h.options;
    assert h.Bytes() == first + field + rest;
    HoldsParts(m, at, first + field, rest);
    HoldsParts(m, at, first, field);
    HoldsNumber(m, at + 6, 0x2000 * h.flags + h.offset);
  }

  // ----- IPv6 -----

  /** Headers with their length in units of 8 bytes, not counting the first. */
  predicate Extension(kind: nat) {
    kind == 0 || kind == IPPROTO_ROUTING || kind == IPPROTO_AH || kind == IPPROTO_DSTOPTS
  }

  function ExtensionLength(m: seq<Byte>, c: Cursor): (n: nat)
    requires c.Cursor?
    ensures n >= 8
  {
    if c.kind == IPPROTO_FRAGMENT then 8 else 8 + 8 * At(m, c.at + 1)
  }

  /** Skip extension headers as long as there are any. */
  function Extensions(m: seq<Byte>, c: Cursor): (r: Cursor)
    requires c.Cursor?
    ensures r.Cursor? ==> r.at + r.remaining == c.at + c.remaining && r.at >= c.at
    ensures r.Cursor? ==> !Extension(r.kind) && r.kind != IPPROTO_FRAGMENT
    decreases c.remaining
  {
    if !Extension(c.kind) && c.kind != IPPROTO_FRAGMENT then c
    else
      var length := ExtensionLength(m, c);
      if c.remaining < length then Nowhere
      else Extensions(m, Cursor(c.at + length, At(m, c.at), c.remaining - length))
  }

  function FromIp6(m: seq<Byte>, at: nat, remaining: nat): (c: Cursor)
    ensures c.Cursor? ==> c.at + c.remaining == at + remaining && c.at >= at + IP6_HEADER
  {
    if remaining < IP6_HEADER then Nowhere
    else Extensions(m, Cursor(at + IP6_HEADER, At(m, at + 6), remaining - IP6_HEADER))
  }

  lemma {:induction false} ExtensionsLocal(m: seq<Byte>, n: seq<Byte>, c: Cursor)
    requires c.Cursor? && Agree(m, n, c.at, c.at + c.remaining)
    ensures Extensions(n, c) == Extensions(m, c)
    decreases c.remaining
  {
    hide At;
    if Extension(c.kind) || c.kind == IPPROTO_FRAGMENT {
      var length := ExtensionLength(m, c);
      if length <= c.remaining {
        ExtensionsLocal(m, n, Cursor(c.at + length, At(m, c.at), c.remaining - length));
      }
    }
  }

  /** The IPv6 walk depends on captured bytes only, however little was captured. */
  lemma Ip6Local(m: seq<Byte>, n: seq<Byte>, at: nat, remaining: nat)
    requires Agree(m, n, at, at + remaining)
    ensures FromIp6(n, at, remaining) == FromIp6(m, at, remaining)
  {
    if remaining >= IP6_HEADER {
      ExtensionsLocal(m, n, Cursor(at + IP6_HEADER, At(m, at + 6), remaining - IP6_HEADER));
    }
  }

  /** An IPv6 payload as its sender chains it.  The length of an authentication header is in units of
      4 bytes, of which 2 are not counted (section 2.2 of RFC 4302); other headers count units of 8,
      and not the first. */
  datatype Chain =
    | Upper(protocol: Byte, data: seq<Byte>)
    | Extended(header: Byte, units: Byte, content: seq<Byte>, next: Chain)
    | Authenticated(words: Byte, content: seq<Byte>, next: Chain)
    | Fragmented(rest: seq<Byte>, next: Chain)

  function Protocol(s: Chain): Byte {
    match s
    case Upper(protocol, _) => protocol
    case Extended(header, _, _, _) => header
    case Authenticated(_, _, _) => 51
    case Fragmented(_, _) => 44
  }

  function Last(s: Chain): (r: Chain)
    ensures r.Upper?
  {
    if s.Upper? then s else Last(s.next)
  }

  /** Hop-by-hop options, routing and destination options are headers of the common kind, besides which
      there are fragment and authentication headers. */
  predicate ChainFormed(s: Chain) {
    match s
    case Upper(protocol, _) => protocol !in {0, 43, 44, 51, 60}
    case Extended(header, units, content, next) =>
      header in {0, 43, 60} && |content| == 6 + 8 * units as int && ChainFormed(next)
    case Authenticated(words, content, next) => |content| == 4 * (words as int + 2) - 2 && ChainFormed(next)
    case Fragmented(rest, next) => |rest| == 7 && ChainFormed(next)
  }

  function Leading(s: Chain): seq<Byte>
    requires !s.Upper?
  {
    match s
    case Extended(_, units, content, next) => [Protocol(next), units] + content
    case Authenticated(words, content, next) => [Protocol(next), words] + content
    case Fragmented(rest, next) => [Protocol(next)] + rest
  }

  function Payload(s: Chain): (b: seq<Byte>)
    ensures |b| >= |Last(s).data|
  {
    if s.Upper? then s.data else Leading(s) + Payload(s.next)
  }

  /** Where the upper layer is in memory. */
  function UpperAt(s: Chain, at: nat): Cursor {
    Cursor(at + |Payload(s)| - |Last(s).data|, Last(s).protocol, |Last(s).data|)
  }

  /** Every authentication header has a length that comes to the same in either unit. */
  predicate Passable(s: Chain) {
    !s.Upper? ==> (s.Authenticated? ==> s.words == 0) && Passable(s.next)
  }

  /** A header is taken for as long as it is, exactly unless it is an authentication header with a
      length field other than 0; the shortest that RFC 4302 allows has 1. */
  lemma LengthExactly(m: seq<Byte>, at: nat, s: Chain, remaining: nat)
    requires ChainFormed(s) && !s.Upper? && Holds(m, at, Leading(s))
    ensures ExtensionLength(m, Cursor(at, Protocol(s), remaining)) == |Leading(s)| <==>
            !(s.Authenticated? && s.words != 0)
    ensures s.Authenticated? ==> ExtensionLength(m, Cursor(at, Protocol(s), remaining)) == |Leading(s)| + 4 * s.words
    ensures At(m, at) == Protocol(s.next)
  {
    HoldsAt(m, at, Leading(s), 0);
    HoldsAt(m, at, Leading(s), 1);
  }

  /** The walk finds the upper layer protocol and data, behind any chain of extension headers that it
      can pass. */
  lemma {:induction false} ExtensionsFind(m: seq<Byte>, at: nat, s: Chain)
    requires ChainFormed(s) && Passable(s) && Holds(m, at, Payload(s))
    ensures Extensions(m, Cursor(at, Protocol(s), |Payload(s)|)) == UpperAt(s, at)
    decreases s
  {
    hide At, Holds, ExtensionLength, Leading;
    if !s.Upper? {
      HoldsParts(m, at, Leading(s), Payload(s.next));
      LengthExactly(m, at, s, |Payload(s)|);
      ExtensionsFind(m, at + |Leading(s)|, s.next);
    }
  }

  lemma Ip6Finds(m: seq<Byte>, at: nat, header: seq<Byte>, s: Chain)
    requires |header| == IP6_HEADER && header[6] == Protocol(s) && ChainFormed(s) && Passable(s)
    requires Holds(m, at, header + Payload(s))
    ensures FromIp6(m, at, |header + Payload(s)|) == UpperAt(s, at + IP6_HEADER)
  {
    hide Holds, At, Extensions, Payload, ChainFormed, Protocol, Last, Passable;
    HoldsParts(m, at, header, Payload(s));
    HoldsAt(m, at, header, 6);
    ExtensionsFind(m, at + IP6_HEADER, s);
  }

  /** An authentication header, if there is one, is the last header before the upper layer. */
  predicate AuthenticatedLast(s: Chain) {
    !s.Upper? ==> (s.Authenticated? ==> s.next.Upper?) && AuthenticatedLast(s.next)
  }

  /** Then the upper layer is found exactly if the header can be passed: otherwise the walk ends behind
      the start of the upper layer, or nowhere. */
  lemma {:induction false} AuthenticatedExactly(m: seq<Byte>, at: nat, s: Chain)
    requires ChainFormed(s) && AuthenticatedLast(s) && Holds(m, at, Payload(s))
    ensures Extensions(m, Cursor(at, Protocol(s), |Payload(s)|)) == UpperAt(s, at) <==> Passable(s)
    decreases s
  {
    hide At, Holds, ExtensionLength, Leading;
    if !s.Upper? {
      HoldsParts(m, at, Leading(s), Payload(s.next));
      LengthExactly(m, at, s, |Payload(s)|);
      if s.Authenticated? {
        assert ExtensionLength(m, Cursor(at, Protocol(s), |Payload(s)|)) == |Leading(s)| + 4 * s.words;
      } else {
        AuthenticatedExactly(m, at + |Leading(s)|, s.next);
      }
    }
  }

  /** TCP behind an authentication header of 24 bytes (a 12-byte check value): the walk ends 16 bytes
      into the segment. */
  lemma AuthenticatedTcp(m: seq<Byte>, at: nat, content: seq<Byte>, data: seq<Byte>)
    requires |content| == 22 && |data| >= 16 && Holds(m, at, Payload(Authenticated(4, content, Upper(6, data))))
    ensures Extensions(m, Cursor(at, IPPROTO_AH, 24 + |data|)) == Cursor(at + 40, 6, |data| - 16)
  {
    var s := Authenticated(4, content, Upper(6, data));
    HoldsParts(m, at, Leading(s), Payload(s.next));
    LengthExactly(m, at, s, |Payload(s)|);
  }

  /** The offset in a fragment header, in units of 8 bytes, behind its first byte. */
  function FragmentOffset(rest: seq<Byte>): nat
    requires |rest| == 7
  {
    Join(rest[1], rest[2]) / 8
  }

  /** Where the IPv4 walk finds no transport header, the IPv6 walk goes on into the data of a later
      fragment, and returns that as the header if no extension header is announced. */
  lemma LaterFragment6(m: seq<Byte>, at: nat, next: Byte, rest: seq<Byte>, data: seq<Byte>)
    requires |rest| == 7 && FragmentOffset(rest) > 0 && Holds(m, at, [next] + rest + data)
    ensures var c := Extensions(m, Cursor(at, IPPROTO_FRAGMENT, 8 + |data|));
            && c == Extensions(m, Cursor(at + 8, next, |data|))
            && (!Extension(next) && next != IPPROTO_FRAGMENT ==> c == Cursor(at + 8, next, |data|))
  {
    HoldsAt(m, at, [next] + rest + data, 0);
  }

  // ----- Both -----

  /** trace_get_transport, from the layer 3 header on. */
  function TransportOf(m: seq<Byte>, c: Cursor): (t: Cursor)
    ensures t.Cursor? ==> c.Cursor? && t.at + t.remaining == c.at + c.remaining && t.at >= c.at
  {
    if c.Nowhere? then Nowhere
    else if c.kind == ETHERTYPE_IP then
      var t := FromIp(m, c.at, c.remaining);
      if t.Cursor? && t.kind == IPPROTO_IPV6 then FromIp6(m, t.at, t.remaining) else t
    else if c.kind == ETHERTYPE_IPV6 then FromIp6(m, c.at, c.remaining)
    else Nowhere
  }

  /** What is left behind a transport header of `words` words, of which `captured` bytes were captured with
      what follows, of the `carried` bytes that the IP header announces; 0 if the fixed part of the header
      is cut short or the header does not fit.  The comparison is between unsigned numbers, so that a
      negative number does not count as too short. */
  function BehindHeader(carried: int, proto: nat, words: nat, captured: nat): (n: int)
    ensures n <= carried || n == 0
  {
    if captured < (if proto == TCP then 20 else 8) then 0
    else if 0 <= carried < 4 * words then 0
    else carried - 4 * words
  }

  /** The length of what an IP header carries, less a second IPv6 header; it may come out negative. */
  function IpCarries(m: seq<Byte>, c: Cursor): int
    requires c.Cursor?
  {
    if c.kind == ETHERTYPE_IPV6 then BigEndian16(m, c.at + 4)
    else BigEndian16(m, c.at + 2) - 4 * (At(m, c.at) % 16) as int - if At(m, c.at + 9) == IPPROTO_IPV6 then 40 else 0
  }

  function HeaderWords(m: seq<Byte>, t: Cursor): nat
    requires t.Cursor?
  {
    if t.kind == TCP then At(m, t.at + 12) / 16 else 2
  }

  /** trace_get_payload_length, from the layer 3 and transport headers on. */
  function PayloadLength(m: seq<Byte>, c: Cursor, t: Cursor): int {
    if c.Nowhere? || t.Nowhere? then 0
    else if !(c.kind == ETHERTYPE_IP && c.remaining >= 20) && !(c.kind == ETHERTYPE_IPV6 && c.remaining >= 40) then 0
    else if t.kind != TCP && t.kind != UDP && t.kind != ICMP && t.kind != ICMP6 then 0
    else BehindHeader(IpCarries(m, c), t.kind, HeaderWords(m, t), t.remaining)
  }

  lemma PayloadLengthSame(m: seq<Byte>, n: seq<Byte>, c: Cursor, t: Cursor, k: nat)
    requires |m| == |n| && k <= |m| && m[k..] == n[k..]
    requires c.Cursor? && t.Cursor? ==> k <= c.at <= t.at
    ensures PayloadLength(n, c, t) == PayloadLength(m, c, t)
  {
    hide At;
    if c.Cursor? && t.Cursor? {
      SameTail(m, n, k, c.at, 10);
      SameTail(m, n, k, t.at, 13);
      assert At(m, c.at + 0) == At(n, c.at + 0);
    }
  }

  lemma IpSame(m: seq<Byte>, n: seq<Byte>, at: nat, remaining: nat)
    requires Agree(m, n, at, at + 10)
    ensures FromIp(n, at, remaining) == FromIp(m, at, remaining)
  {
    hide At, Join;
    assert At(m, at + 6) == At(n, at + 6) && At(m, at + 7) == At(n, at + 7);
  }

  lemma TransportSame(m: seq<Byte>, n: seq<Byte>, c: Cursor, k: nat)
    requires |m| == |n| && k <= |m| && m[k..] == n[k..]
    requires c.Cursor? ==> k <= c.at
    ensures TransportOf(n, c) == TransportOf(m, c)
  {
    hide FromIp, FromIp6, Agree;
    if c.Cursor? {
      SameTail(m, n, k, c.at, c.remaining);
      Ip6Local(m, n, c.at, c.remaining);
      SameTail(m, n, k, c.at, 10);
      IpSame(m, n, c.at, c.remaining);
      var t := FromIp(m, c.at, c.remaining);
      if t.Cursor? {
        SameTail(m, n, k, t.at, t.remaining);
        Ip6Local(m, n, t.at, t.remaining);
      }
    }
  }

  /** Stripping a packet does not change where its transport header is, what its protocol is or how
      much of it remains. */
  lemma StripPreservesTransport(f: Frame)
    requires f.Valid() && !(Strips(f) && 0 <= f.wire < f.capture)
    ensures TransportOf(Strip(f).mem, Strip(f).Network()) == TransportOf(f.mem, f.Network())
  {
    hide TransportOf, Layer3, Strip, Strips;
    StripPreservesNetwork(f);
    var c := f.Network();
    if c.Cursor? {
      StripKeepsBytes(f);
      TransportSame(f.mem, Strip(f).mem, c, c.at);
    } else {
      assert TransportOf(f.mem, Nowhere) == TransportOf(Strip(f).mem, Nowhere) by {
        NoTransport(f.mem);
        NoTransport(Strip(f).mem);
      }
    }
  }

  lemma NoTransport(m: seq<Byte>)
    ensures TransportOf(m, Nowhere) == Nowhere
  {
  }

  lemma SameTail(m: seq<Byte>, n: seq<Byte>, k: nat, at: nat, remaining: nat)
    requires |m| == |n| && k <= |m| && m[k..] == n[k..] && k <= at
    ensures Agree(m, n, at, at + remaining)
  {
    forall i | at <= i < at + remaining
      ensures At(m, i) == At(n, i)
    {
      if i < |m| {
        assert m[k..][i - k] == n[k..][i - k];
      }
    }
  }

  // ----- Options -----

  /** What one call of the option parser does: the new pointer and length, and the option passed; or
      that there is none. */
  datatype Step = Stop | Pad(at: nat, len: int) | Option(at: nat, len: int, code: Byte, data: seq<Byte>)

  /** trace_get_next_option */
  function NextOption(m: seq<Byte>, at: nat, len: int): (s: Step)
    ensures !s.Stop? ==> s.at + s.len == at + len && at < s.at && s.len >= 0
  {
    if len <= 0 || At(m, at) == 0 then Stop
    else if At(m, at) == 1 then Pad(at + 1, len - 1)
    else
      var length := At(m, at + 1);
      if length < 2 || length > len then Stop
      else Option(at + length, len - length, At(m, at), Window(m, at + 2, length - 2))
  }

  /** The options that a caller sees who goes on until there are no more. */
  function Options(m: seq<Byte>, at: nat, len: int): seq<Step>
    decreases len
  {
    var s := NextOption(m, at, len);
    if s.Stop? then [] else [s] + Options(m, s.at, s.len)
  }

  /** An option as its sender writes it: a padding byte, or a code, a length and data. */
  datatype Sent = Padding | Coded(code: Byte, data: seq<Byte>)

  predicate Sendable(o: Sent) {
    o.Coded? ==> o.code > 1 && |o.data| < 254
  }

  function Written(o: Sent): (b: seq<Byte>)
    requires Sendable(o)
    ensures |b| > 0
  {
    if o.Padding? then [1] else [o.code, |o.data| + 2] + o.data
  }

  function AllWritten(s: seq<Sent>): seq<Byte>
    requires forall o :: o in s ==> Sendable(o)
  {
    if s == [] then [] else Written(s[0]) + AllWritten(s[1..])
  }

  predicate SameOption(o: Sent, s: Step) {
    if o.Padding? then s.Pad? else s.Option? && s.code == o.code && s.data == o.data
  }

  ghost predicate SameOptions(s: seq<Sent>, t: seq<Step>) {
    |s| == |t| && forall i :: 0 <= i < |s| ==> SameOption(s[i], t[i])
  }

  lemma NextOptionFinds(m: seq<Byte>, at: nat, o: Sent, len: int)
    requires Sendable(o) && Holds(m, at, Written(o)) && len >= |Written(o)|
    ensures var s := NextOption(m, at, len); !s.Stop? && SameOption(o, s) && s.at == at + |Written(o)|
  {
    HoldsAt(m, at, Written(o), 0);
    if o.Coded? {
      HoldsParts(m, at, [o.code, |o.data| + 2], o.data);
      assert At(m, at + 1) == Written(o)[1];
      assert NextOption(m, at, len).data == o.data;
    }
  }

  /** No option follows: there are no bytes left, the list ends, or a length is less than the 2 bytes in
      front of the data or more than there is. */
  predicate NoOption(m: seq<Byte>, at: nat, len: int) {
    len <= 0 || At(m, at) == 0 || (At(m, at) > 1 && (At(m, at + 1) < 2 || At(m, at + 1) > len))
  }

  /** Parsing what was written gives back the options, in order, and no more exactly if no option follows
      them. */
  lemma {:induction false} OptionsFind(m: seq<Byte>, at: nat, s: seq<Sent>, len: int)
    requires forall o :: o in s ==> Sendable(o)
    requires Holds(m, at, AllWritten(s)) && len >= |AllWritten(s)|
    ensures |Options(m, at, len)| >= |s| && SameOptions(s, Options(m, at, len)[..|s|])
    ensures |Options(m, at, len)| == |s| <==> NoOption(m, at + |AllWritten(s)|, len - |AllWritten(s)|)
    decreases s
  {
    hide Written, NextOption, SameOption, Holds, At;
    if s == [] {
      NoMoreOptions(m, at, len);
    } else {
      HoldsParts(m, at, Written(s[0]), AllWritten(s[1..]));
      NextOptionFinds(m, at, s[0], len);
      var t := NextOption(m, at, len);
      OptionsFind(m, t.at, s[1..], t.len);
      var rest := Options(m, t.at, t.len);
      SameOptionsFirst(s, t, rest[..|s| - 1]);
      assert ([t] + rest)[..|s|] == [t] + rest[..|s| - 1];
    }
  }

  lemma NoMoreOptions(m: seq<Byte>, at: nat, len: int)
    ensures |Options(m, at, len)| == 0 <==> NoOption(m, at, len)
  {
  }

  lemma SameOptionsFirst(s: seq<Sent>, t: Step, rest: seq<Step>)
    requires s != [] && SameOption(s[0], t) && SameOptions(s[1..], rest)
    ensures SameOptions(s, [t] + rest)
  {
    forall i | 0 <= i < |s|
      ensures SameOption(s[i], ([t] + rest)[i])
    {
      if i > 0 {
        assert SameOption(s[1..][i - 1], rest[i - 1]);
      }
    }
  }

  /** The option parser looks at nothing behind the options. */
  lemma {:induction false} OptionsLocal(m: seq<Byte>, n: seq<Byte>, at: nat, len: int)
    requires Agree(m, n, at, at + if len < 0 then 0 else len)
    ensures Options(n, at, len) == Options(m, at, len)
    decreases len
  {
    NextOptionLocal(m, n, at, len);
    var s := NextOption(m, at, len);
    if !s.Stop? {
      OptionsLocal(m, n, s.at, s.len);
    }
  }

  lemma NextOptionLocal(m: seq<Byte>, n: seq<Byte>, at: nat, len: int)
    requires Agree(m, n, at, at + if len < 0 then 0 else len)
    ensures NextOption(n, at, len) == NextOption(m, at, len)
  {
    var s, t := NextOption(m, at, len), NextOption(n, at, len);
    if s.Option? {
      assert s.data == t.data;
    }
  }
}
