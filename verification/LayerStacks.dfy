/** What the layer 3 walk is for: whatever headers a sender puts between Ethernet and the network
    layer, the walk is to find the packet behind them. */
module LayerStacks {
  import opened Bytes
  import opened Layers

  /** A packet as its sender nests it.  `Bridged` is an Ethernet frame inside of MPLS. */
  datatype Stack =
    | Network(kind: nat, body: seq<Byte>)
    | Vlan(tag: seq<Byte>, inner: Stack)
    | Mpls(entry: seq<Byte>, extra: Byte, ttl: Byte, inner: Stack)
    | Pppoe(session: seq<Byte>, inner: Stack)
    | Bridged(addresses: seq<Byte>, inner: Stack)

  /** The type that announces `s`; the walk has 0 for Ethernet. */
  function Kind(s: Stack): nat {
    match s
    case Network(kind, _) => kind
    case Vlan(_, _) => 0x8100
    case Mpls(_, _, _, _) => 0x8847
    case Pppoe(_, _) => 0x8864
    case Bridged(_, _) => 0
  }

  /** The innermost packet. */
  function Innermost(s: Stack): (r: Stack)
    ensures r.Network? && (WellFormed(s) ==> WellFormed(r))
  {
    if s.Network? then s else Innermost(s.inner)
  }

  /** An IPv4 or IPv6 packet, whose first nibble says so; MPLS has no other way to tell. */
  predicate Recognisable(s: Stack) {
    s.Network? && |s.body| > 0 &&
    ((s.kind == 0x0800 && s.body[0] / 16 == 4) || (s.kind == 0x86DD && s.body[0] / 16 == 6))
  }

  /** PPP has numbers of its own for IPv4, IPv6 and MPLS. */
  predicate PppCarries(s: Stack) {
    s.Mpls? || (s.Network? && (s.kind == 0x0800 || s.kind == 0x86DD))
  }

  function PppProtocol(s: Stack): nat {
    if s.Mpls? then 0x0281 else if s.Network? && s.kind == 0x86DD then 0x0057 else 0x0021
  }

  /** Header fields have their sizes.  Behind the last MPLS label comes IP or an Ethernet frame. */
  predicate WellFormed(s: Stack) {
    match s
    case Network(kind, body) => !Shim(kind) && kind < 0x10000 && |body| > 0
    case Vlan(tag, inner) => |tag| == 2 && WellFormed(inner) && !inner.Bridged?
    case Mpls(entry, extra, _, inner) =>
      |entry| == 2 && extra < 128 && WellFormed(inner) && (inner.Mpls? || inner.Bridged? || Recognisable(inner))
    case Pppoe(session, inner) => |session| == 6 && WellFormed(inner) && PppCarries(inner)
    case Bridged(addresses, inner) => |addresses| == 12 && WellFormed(inner) && !inner.Bridged?
  }

  /** The third byte of an MPLS label ends in the bottom-of-stack bit. */
  function LabelEnd(extra: Byte, inner: Stack): Byte
    requires extra < 128
  {
    2 * extra + if inner.Mpls? then 0 else 1
  }

  function Header(s: Stack): seq<Byte>
    requires WellFormed(s)
  {
    match s
    case Network(_, _) => []
    case Vlan(tag, inner) => tag + Number16(Kind(inner))
    case Mpls(entry, extra, ttl, inner) => entry + [LabelEnd(extra, inner), ttl]
    case Pppoe(session, inner) => session + Number16(PppProtocol(inner))
    case Bridged(addresses, inner) => addresses + Number16(Kind(inner))
  }

  function Encode(s: Stack): (b: seq<Byte>)
    requires WellFormed(s)
    ensures |b| >= |Innermost(s).body| > 0 && (|b| == |Innermost(s).body| <==> s.Network?)
  {
    if s.Network? then s.body else Header(s) + Encode(s.inner)
  }

  function Ethernet(addresses: seq<Byte>, s: Stack): seq<Byte>
    requires |addresses| == 12 && WellFormed(s)
  {
    addresses + Number16(Kind(s)) + Encode(s)
  }

  // ----- Where the walk ends -----

  /** The walk takes what is behind the last MPLS label for IP if its first nibble looks like it. */
  function Guess(first: Byte): nat {
    if first / 16 == 4 then ETHERTYPE_IP else if first / 16 == 6 then ETHERTYPE_IPV6 else 0
  }

  function FirstOf(addresses: seq<Byte>): Byte {
    if addresses == [] then 0 else addresses[0]
  }

  /** The type that the walk finds behind the outer header of `s`. */
  function Seen(s: Stack): nat
    requires !s.Network?
  {
    match s
    case Mpls(_, _, _, inner) => if inner.Bridged? then Guess(FirstOf(inner.addresses)) else Kind(inner)
    case Pppoe(_, inner) => if inner.Network? && inner.kind == ETHERTYPE_IP then ETHERTYPE_IP else 0
    case Vlan(_, inner) => Kind(inner)
    case Bridged(_, inner) => Kind(inner)
  }

  /** What the walk ends at. */
  function Stop(s: Stack): (r: Stack)
    requires WellFormed(s)
    ensures WellFormed(r) && |Encode(r)| <= |Encode(s)|
  {
    match s
    case Vlan(_, inner) => Stop(inner)
    case Mpls(_, _, _, inner) => Stop(inner)
    case Pppoe(_, inner) => inner
    case _ => s
  }

  /** The type that the walk ends with. */
  function StopKind(s: Stack): (kind: nat)
    requires WellFormed(s)
    ensures !Shim(kind) && kind < 0x10000
  {
    match s
    case Vlan(_, inner) => StopKind(inner)
    case Mpls(_, _, _, inner) => if inner.Bridged? then Seen(s) else StopKind(inner)
    case Pppoe(_, _) => Seen(s)
    case _ => Kind(s)
  }

  /** No PPPoE session carries MPLS and no MPLS path carries Ethernet. */
  predicate Reachable(s: Stack) {
    match s
    case Network(_, _) => true
    case Vlan(_, inner) => Reachable(inner)
    case Mpls(_, _, _, inner) => Reachable(inner)
    case Pppoe(_, inner) => inner.Network?
    case Bridged(_, _) => false
  }

  /** Neither do they, and PPPoE sessions carry IPv4 only. */
  predicate Passable(s: Stack) {
    match s
    case Network(_, _) => true
    case Vlan(_, inner) => Passable(inner)
    case Mpls(_, _, _, inner) => Passable(inner)
    case Pppoe(_, inner) => inner.Network? && inner.kind == ETHERTYPE_IP
    case Bridged(_, _) => false
  }

  lemma {:induction false} StopExactly(s: Stack)
    requires WellFormed(s)
    ensures |Encode(Stop(s))| == |Innermost(s).body| <==> Reachable(s)
    ensures Reachable(s) ==> Stop(s) == Innermost(s)
    ensures Reachable(s) && StopKind(s) == Innermost(s).kind <==> Passable(s)
  {
    match s
    case Vlan(_, inner) => StopExactly(inner);
    case Mpls(_, _, _, inner) => StopExactly(inner);
    case _ =>
  }

  /** `b` lies in memory at `at`. */
  ghost predicate Holds(m: seq<Byte>, at: nat, b: seq<Byte>) {
    forall i :: 0 <= i < |b| ==> At(m, at + i) == b[i]
  }

  lemma HoldsParts(m: seq<Byte>, at: nat, a: seq<Byte>, b: seq<Byte>)
    requires Holds(m, at, a + b)
    ensures Holds(m, at, a) && Holds(m, at + |a|, b)
  {
    forall i | 0 <= i < |a|
      ensures At(m, at + i) == a[i]
    {
      assert (a + b)[i] == a[i];
    }
    forall i | 0 <= i < |b|
      ensures At(m, at + |a| + i) == b[i]
    {
      assert (a + b)[|a| + i] == b[i];
    }
  }

  lemma HoldsAt(m: seq<Byte>, at: nat, b: seq<Byte>, i: nat)
    requires Holds(m, at, b) && i < |b|
    ensures At(m, at + i) == b[i]
  {
  }

  lemma HoldsNumber(m: seq<Byte>, at: nat, n: nat)
    requires Holds(m, at, Number16(n)) && n < 0x10000
    ensures BigEndian16(m, at) == n
  {
    assert At(m, at + 0) == Number16(n)[0] && At(m, at + 1) == Number16(n)[1];
    JoinHalves(n);
  }

  lemma KindFits(s: Stack)
    requires WellFormed(s)
    ensures Kind(s) < 0x10000 && PppProtocol(s) < 0x10000
  {
  }

  lemma SkipTag(m: seq<Byte>, at: nat, tag: seq<Byte>, kind: nat, remaining: nat)
    requires |tag| == 2 && kind < 0x10000 && remaining >= 4 && Holds(m, at, tag + Number16(kind))
    ensures SkipVlan(m, Cursor(at, ETHERTYPE_8021Q, remaining)) == Cursor(at + 4, kind, remaining - 4)
  {
    HoldsParts(m, at, tag, Number16(kind));
    HoldsNumber(m, at + 2, kind);
  }

  lemma SkipLabel(m: seq<Byte>, at: nat, s: Stack, remaining: nat)
    requires WellFormed(s) && s.Mpls? && remaining >= 5 && Holds(m, at, Header(s))
    requires Recognisable(s.inner) ==> At(m, at + 4) == s.inner.body[0]
    requires s.inner.Bridged? ==> At(m, at + 4) == FirstOf(s.inner.addresses)
    ensures SkipMpls(m, Cursor(at, ETHERTYPE_MPLS, remaining)) == Cursor(at + 4, Seen(s), remaining - 4)
  {
    assert At(m, at + 2) == Header(s)[2] == LabelEnd(s.extra, s.inner);
  }

  lemma SkipSession(m: seq<Byte>, at: nat, session: seq<Byte>, protocol: nat, remaining: nat)
    requires |session| == 6 && protocol < 0x10000 && remaining >= 8 && Holds(m, at, session + Number16(protocol))
    ensures SkipPppoe(m, Cursor(at, ETHERTYPE_PPP_SES, remaining)) ==
            Cursor(at + 8, if protocol == 0x0021 then ETHERTYPE_IP else 0, remaining - 8)
  {
    HoldsParts(m, at, session, Number16(protocol));
    HoldsNumber(m, at + 6, protocol);
  }

  /** Skipping an outer header leaves the walk at the encoding of what is inside, and its type is right
      except behind PPPoE, where it is right for IPv4 only, and where an Ethernet frame inside of MPLS
      looks like IP. */
  lemma SkipEnters(m: seq<Byte>, at: nat, s: Stack)
    requires WellFormed(s) && !s.Network? && !s.Bridged?
    requires Holds(m, at, Encode(s))
    ensures Skip(m, Cursor(at, Kind(s), |Encode(s)|)) == Cursor(at + |Header(s)|, Seen(s), |Encode(s.inner)|)
    ensures Seen(s) == Kind(s.inner) <==> SeenRight(s)
  {
    hide *;
    SeenExactly(s);
    EncodeOuter(s);
    HoldsParts(m, at, Header(s), Encode(s.inner));
    match s
    case Vlan(_, _) => SkipEntersVlan(m, at, s, |Encode(s.inner)|);
    case Mpls(_, _, _, _) => SkipEntersMpls(m, at, s);
    case Pppoe(_, _) => SkipEntersPppoe(m, at, s, |Encode(s.inner)|);
  }

  /** Not PPPoE with anything but IPv4, and not MPLS with an Ethernet frame that starts like IP. */
  predicate SeenRight(s: Stack)
    requires !s.Network?
  {
    && (s.Pppoe? ==> s.inner.Network? && s.inner.kind == ETHERTYPE_IP)
    && (s.Mpls? && s.inner.Bridged? ==> FirstOf(s.inner.addresses) / 16 != 4 && FirstOf(s.inner.addresses) / 16 != 6)
  }

  lemma SeenExactly(s: Stack)
    requires WellFormed(s) && !s.Network?
    ensures Seen(s) == Kind(s.inner) <==> SeenRight(s)
  {
  }

  lemma EncodeOuter(s: Stack)
    requires WellFormed(s) && !s.Network?
    ensures WellFormed(s.inner) && Encode(s) == Header(s) + Encode(s.inner)
  {
  }

  lemma SkipEntersVlan(m: seq<Byte>, at: nat, s: Stack, rest: nat)
    requires WellFormed(s) && s.Vlan? && Holds(m, at, Header(s))
    ensures Skip(m, Cursor(at, Kind(s), |Header(s)| + rest)) == Cursor(at + |Header(s)|, Seen(s), rest)
  {
    hide SkipVlan, Holds, Number16, WellFormed;
    InnerFormed(s);
    KindFits(s.inner);
    TagLength(s);
    SkipTag(m, at, s.tag, Kind(s.inner), |Header(s)| + rest);
  }

  lemma TagLength(s: Stack)
    requires WellFormed(s)
    ensures (s.Vlan? ==> |s.tag| == 2) && (s.Pppoe? ==> |s.session| == 6)
    ensures s.Pppoe? ==> (PppProtocol(s.inner) == 0x0021 <==> s.inner.Network? && s.inner.kind == ETHERTYPE_IP)
  {
  }

  lemma SkipEntersMpls(m: seq<Byte>, at: nat, s: Stack)
    requires WellFormed(s) && s.Mpls? && WellFormed(s.inner)
    requires Holds(m, at, Header(s)) && Holds(m, at + |Header(s)|, Encode(s.inner))
    ensures Skip(m, Cursor(at, Kind(s), |Header(s)| + |Encode(s.inner)|)) ==
            Cursor(at + |Header(s)|, Seen(s), |Encode(s.inner)|)
  {
    hide *;
    LabelSize(s);
    HoldsAt(m, at + 4, Encode(s.inner), 0);
    FirstInside(s.inner);
    SkipLabel(m, at, s, 4 + |Encode(s.inner)|);
    SkipIsMpls(m, Cursor(at, Kind(s), 4 + |Encode(s.inner)|));
  }

  lemma LabelSize(s: Stack)
    requires WellFormed(s) && s.Mpls?
    ensures |Header(s)| == 4 && Kind(s) == ETHERTYPE_MPLS
  {
  }

  lemma FirstInside(s: Stack)
    requires WellFormed(s)
    ensures Recognisable(s) ==> s.Network? && |s.body| > 0 && Encode(s)[0] == s.body[0]
    ensures s.Bridged? ==> Encode(s)[0] == FirstOf(s.addresses)
  {
    if s.Bridged? {
      FirstAddress(s);
    }
  }

  lemma SkipIsMpls(m: seq<Byte>, c: Cursor)
    requires c.Cursor? && c.kind == ETHERTYPE_MPLS
    ensures Shim(c.kind) && Skip(m, c) == SkipMpls(m, c)
  {
    hide SkipMpls;
  }

  lemma FirstAddress(s: Stack)
    requires WellFormed(s) && s.Bridged?
    ensures Encode(s)[0] == FirstOf(s.addresses)
  {
  }

  lemma SkipEntersPppoe(m: seq<Byte>, at: nat, s: Stack, rest: nat)
    requires WellFormed(s) && s.Pppoe? && Holds(m, at, Header(s))
    ensures Skip(m, Cursor(at, Kind(s), |Header(s)| + rest)) == Cursor(at + |Header(s)|, Seen(s), rest)
  {
    hide SkipPppoe, Holds, Number16, WellFormed, PppProtocol;
    InnerFormed(s);
    KindFits(s.inner);
    TagLength(s);
    SkipSession(m, at, s.session, PppProtocol(s.inner), |Header(s)| + rest);
  }

  lemma KindIsShim(s: Stack)
    requires WellFormed(s)
    ensures Shim(Kind(s)) <==> !s.Network? && !s.Bridged?
  {
  }

  /** The walk goes on inside of `s`. */
  predicate GoesOn(s: Stack) {
    s.Vlan? || (s.Mpls? && !s.inner.Bridged?)
  }

  lemma StopInside(s: Stack)
    requires WellFormed(s)
    ensures GoesOn(s) ==> Seen(s) == Kind(s.inner) && Stop(s) == Stop(s.inner) && StopKind(s) == StopKind(s.inner)
    ensures !GoesOn(s) && !s.Network? && !s.Bridged? ==> Stop(s) == s.inner && StopKind(s) == Seen(s) && !Shim(Seen(s))
    ensures s.Network? || s.Bridged? ==> Stop(s) == s && StopKind(s) == Kind(s)
  {
  }

  lemma WalkStops(m: seq<Byte>, c: Cursor)
    requires c.Cursor? && c.remaining > 0
    ensures if Shim(c.kind) then Walk(m, c) == Walk(m, Skip(m, c)) else Walk(m, c) == c
  {
  }

  lemma {:induction false} WalkFinds(m: seq<Byte>, at: nat, s: Stack)
    requires WellFormed(s) && Holds(m, at, Encode(s))
    ensures var rest := |Encode(Stop(s))|;
            Walk(m, Cursor(at, Kind(s), |Encode(s)|)) == Cursor(at + |Encode(s)| - rest, StopKind(s), rest)
    decreases s
  {
    hide Skip, Holds, Header, Shim, Walk, WellFormed, Stop, StopKind, Seen, Kind, Encode;
    KindIsShim(s);
    StopInside(s);
    WalkStops(m, Cursor(at, Kind(s), |Encode(s)|));
    if !s.Network? && !s.Bridged? {
      SkipEnters(m, at, s);
      EncodeOuter(s);
      HoldsParts(m, at, Header(s), Encode(s.inner));
      WalkStops(m, Cursor(at + |Header(s)|, Seen(s), |Encode(s.inner)|));
      if GoesOn(s) {
        WalkFinds(m, at + |Header(s)|, s.inner);
      }
    }
  }

  lemma WalkOverEthernet(m: seq<Byte>, at: nat, addresses: seq<Byte>, s: Stack)
    requires |addresses| == 12 && WellFormed(s) && Holds(m, at, Ethernet(addresses, s))
    ensures var size, rest := |Ethernet(addresses, s)|, |Encode(Stop(s))|;
            Layer3(m, at, size) == Cursor(at + size - rest, StopKind(s), rest)
  {
    hide Walk, Holds, Encode, Number16, BigEndian16, Kind, Stop, StopKind, WellFormed;
    HoldsParts(m, at, addresses + Number16(Kind(s)), Encode(s));
    HoldsParts(m, at, addresses, Number16(Kind(s)));
    KindFits(s);
    HoldsNumber(m, at + 12, Kind(s));
    WalkFinds(m, at + ETHER_HEADER, s);
  }

  /** trace_get_layer3 finds the innermost packet with its type and length, however it is nested and
      wherever in memory it lies, if and only if PPPoE sessions in it carry IPv4 only and MPLS no
      Ethernet; where a session carries IPv6, only the type is wrong. */
  lemma Layer3Finds(m: seq<Byte>, at: nat, addresses: seq<Byte>, s: Stack)
    requires |addresses| == 12 && WellFormed(s) && Holds(m, at, Ethernet(addresses, s))
    ensures var n, size := Innermost(s), |Ethernet(addresses, s)|;
            var c := Layer3(m, at, size);
            && c.Cursor?
            && (c == Cursor(at + size - |n.body|, n.kind, |n.body|) <==> Passable(s))
            && (c.at == at + size - |n.body| && c.remaining == |n.body| <==> Reachable(s))
  {
    WalkOverEthernet(m, at, addresses, s);
    StopExactly(s);
    hide Ethernet, Holds, Layer3, Encode, Stop, StopKind, WellFormed, Innermost, Passable, Reachable;
  }

  /** What trace_strip_packet makes of the packet: the Ethernet encoding of what the walk ends at, with
      the type it has for that. */
  lemma StripYieldsStop(f: Frame, addresses: seq<Byte>, s: Stack)
    requires f.Valid() && |addresses| == 12 && WellFormed(s)
    requires f.capture == f.Remaining() == |Ethernet(addresses, s)| && Holds(f.mem, f.payload, Ethernet(addresses, s))
    ensures var g, found := Strip(f), addresses + Number16(StopKind(s)) + Encode(Stop(s));
            g.capture == |found| && Holds(g.mem, g.payload, found)
  {
    hide Walk, Layer3, Strip, Untouched, Holds, Encode, Number16, BigEndian16, WellFormed, Stop, StopKind, Kind;
    var g := Strip(f);
    WalkOverEthernet(f.mem, f.payload, addresses, s);
    if Untouched(f) {
      PlainNotNested(f, addresses, s);
    } else {
      NetworkAtEnd(f);
      StrippedBytes(f);
      StopHeld(f.mem, f.payload, addresses, s);
      HeldAfter(f, g, addresses, StopKind(s), Encode(Stop(s)));
    }
  }

  /** It is the encoding of the innermost packet exactly in the cases in which the walk finds that. */
  lemma StripYieldsInnermost(f: Frame, addresses: seq<Byte>, s: Stack)
    requires f.Valid() && |addresses| == 12 && WellFormed(s)
    requires f.capture == f.Remaining() == |Ethernet(addresses, s)| && Holds(f.mem, f.payload, Ethernet(addresses, s))
    ensures var g, n := Strip(f), Innermost(s);
            g.capture == |Ethernet(addresses, n)| && Holds(g.mem, g.payload, Ethernet(addresses, n)) <==> Passable(s)
    ensures var g, found := Strip(f), addresses + Number16(StopKind(s)) + Encode(Stop(s));
            g.capture == |found| && Holds(g.mem, g.payload, found)
  {
    hide Strip, Holds, Encode, Number16, BigEndian16, WellFormed, Innermost, Stop, StopKind, Kind, Reachable, Passable,
      Frame.Valid, Frame.Remaining;
    var g, n := Strip(f), Innermost(s);
    StripYieldsStop(f, addresses, s);
    StopExactly(s);
    NetworkEncoding(n);
    if g.capture == |Ethernet(addresses, n)| && Holds(g.mem, g.payload, Ethernet(addresses, n)) {
      TypeHeld(g.mem, g.payload, addresses, n.kind, n.body);
      TypeHeld(g.mem, g.payload, addresses, StopKind(s), Encode(Stop(s)));
    }
  }

  lemma NetworkEncoding(s: Stack)
    requires s.Network? && WellFormed(s)
    ensures Encode(s) == s.body && Innermost(s) == s && Kind(s) == s.kind < 0x10000
    ensures Stop(s) == s && StopKind(s) == s.kind && Passable(s)
  {
  }

  lemma NetworkAtEnd(f: Frame)
    requires f.Network().Cursor?
    ensures f.End() == f.Network() && FinalType(f.End()) == f.Network().kind
  {
  }

  /** The packet that `s` encodes, captured with padding that does not belong to it. */
  function Padded(addresses: seq<Byte>, s: Stack, padding: seq<Byte>): (f: Frame)
    requires |addresses| == 12 && WellFormed(s) && |Ethernet(addresses, s)| + |padding| < 0x10000
    ensures f.Valid()
  {
    var size := |Ethernet(addresses, s)|;
    Frame(Ethernet(addresses, s) + padding, 0, size + |padding|, size)
  }

  lemma PaddedFinds(addresses: seq<Byte>, s: Stack, padding: seq<Byte>)
    requires |addresses| == 12 && WellFormed(s) && |Ethernet(addresses, s)| + |padding| < 0x10000
    ensures var f, size, rest := Padded(addresses, s, padding), |Ethernet(addresses, s)|, |Encode(Stop(s))|;
            f.Remaining() == size && Holds(f.mem, f.payload, Ethernet(addresses, s)) &&
            f.Network() == Cursor(size - rest, StopKind(s), rest)
  {
    hide Holds, Layer3, WellFormed, Encode, Stop, StopKind;
    HoldsStart(Ethernet(addresses, s), padding);
    WalkOverEthernet(Ethernet(addresses, s) + padding, 0, addresses, s);
  }

  /** A nested packet captured with padding behind it: stripping makes as much of the padding part of
      the layer 3 packet as it takes headers off. */
  lemma PaddedStrips(addresses: seq<Byte>, s: Stack, padding: seq<Byte>)
    requires |addresses| == 12 && WellFormed(s) && !s.Network? && !s.Bridged?
    requires |Ethernet(addresses, s)| + |padding| < 0x10000
    ensures var f, size, rest := Padded(addresses, s, padding), |Ethernet(addresses, s)|, |Encode(Stop(s))|;
            var gone := size - rest - ETHER_HEADER;
            var more := if |padding| < gone then |padding| else gone;
            gone > 0 && Strip(f).Network() == Cursor(size - rest, StopKind(s), rest + more)
  {
    hide *;
    var f := Padded(addresses, s, padding);
    PaddedFinds(addresses, s, padding);
    StopShorter(s);
    Lengths(addresses, s);
    PaddedIs(addresses, s, padding);
    if Untouched(f) {
      PlainNotNested(f, addresses, s);
    } else {
      NetworkAtEnd(f);
      NetworkAfter(f);
      StrippedBytes(f);
      RemainingIs(Strip(f), f.wire);
    }
  }

  lemma Lengths(addresses: seq<Byte>, s: Stack)
    requires |addresses| == 12 && WellFormed(s)
    ensures |Ethernet(addresses, s)| == ETHER_HEADER + |Encode(s)| && |Encode(Stop(s))| > 0 && ETHER_HEADER == 14
  {
    hide WellFormed, Stop;
  }

  lemma PaddedIs(addresses: seq<Byte>, s: Stack, padding: seq<Byte>)
    requires |addresses| == 12 && WellFormed(s) && |Ethernet(addresses, s)| + |padding| < 0x10000
    ensures var f, size := Padded(addresses, s, padding), |Ethernet(addresses, s)|;
            f.Valid() && f.payload == 0 && f.capture == size + |padding| && f.wire == size && Strip(f).wire == size
  {
    hide Ethernet, WellFormed, Untouched, MoveUp;
  }

  lemma RemainingIs(g: Frame, wire: nat)
    requires g.wire == wire
    ensures g.Remaining() == if wire < g.capture then wire else g.capture
  {
  }

  lemma StopShorter(s: Stack)
    requires WellFormed(s) && !s.Network? && !s.Bridged?
    ensures |Encode(Stop(s))| < |Encode(s)|
  {
  }

  lemma HoldsStart(a: seq<Byte>, b: seq<Byte>)
    ensures Holds(a + b, 0, a)
  {
  }

  /** A frame that stripping leaves alone has nothing between Ethernet and the innermost packet. */
  lemma PlainNotNested(f: Frame, addresses: seq<Byte>, s: Stack)
    requires f.Valid() && |addresses| == 12 && WellFormed(s) && Untouched(f)
    requires f.Remaining() == |Ethernet(addresses, s)| && Holds(f.mem, f.payload, Ethernet(addresses, s))
    ensures (s.Network? || s.Bridged?) && Strip(f) == f && Stop(s) == s && StopKind(s) == Kind(s)
  {
    WalkOverEthernet(f.mem, f.payload, addresses, s);
    KindFits(s);
    TypeHeld(f.mem, f.payload, addresses, Kind(s), Encode(s));
    KindIsShim(s);
    StopInside(s);
    hide Holds, BigEndian16, Kind, WellFormed, Encode, Shim, Stop, StopKind;
    if LooksPlain(f) {
      PlainIsDone(f);
    } else {
      NetworkThere(f);
    }
  }

  lemma NetworkThere(f: Frame)
    requires f.Network().Cursor?
    ensures f.Remaining() > ETHER_HEADER && f.End().Cursor?
  {
  }

  lemma TypeHeld(m: seq<Byte>, at: nat, addresses: seq<Byte>, kind: nat, b: seq<Byte>)
    requires |addresses| == 12 && kind < 0x10000 && Holds(m, at, addresses + Number16(kind) + b)
    ensures BigEndian16(m, at + 12) == kind
  {
    hide Holds, BigEndian16;
    HoldsParts(m, at, addresses + Number16(kind), b);
    HoldsParts(m, at, addresses, Number16(kind));
    HoldsNumber(m, at + 12, kind);
  }

  lemma InnerFormed(s: Stack)
    requires WellFormed(s) && !s.Network?
    ensures WellFormed(s.inner)
  {
  }

  lemma {:induction false} EncodeEnds(m: seq<Byte>, at: nat, s: Stack)
    requires WellFormed(s) && Holds(m, at, Encode(s))
    ensures var b := Encode(Stop(s)); |b| <= |Encode(s)| && Holds(m, at + |Encode(s)| - |b|, b)
    decreases s
  {
    hide Header, Holds, Kind, WellFormed;
    if !s.Network? && !s.Bridged? {
      InnerFormed(s);
      HoldsParts(m, at, Header(s), Encode(s.inner));
      EncodeEnds(m, at + |Header(s)|, s.inner);
    }
  }

  lemma StopHeld(m: seq<Byte>, at: nat, addresses: seq<Byte>, s: Stack)
    requires |addresses| == 12 && WellFormed(s) && Holds(m, at, Ethernet(addresses, s))
    ensures var b := Encode(Stop(s));
            |b| <= |Encode(s)| && Holds(m, at, addresses) && Holds(m, at + ETHER_HEADER + |Encode(s)| - |b|, b)
  {
    hide Holds, Encode, WellFormed, Stop, Number16, Kind;
    HoldsParts(m, at, addresses + Number16(Kind(s)), Encode(s));
    HoldsParts(m, at, addresses, Number16(Kind(s)));
    EncodeEnds(m, at + ETHER_HEADER, s);
  }

  lemma NumberHeld(m: seq<Byte>, at: nat, n: nat)
    requires n < 0x10000 && BigEndian16(m, at) == n
    ensures Holds(m, at, Number16(n))
  {
    var hi, lo := At(m, at), At(m, at + 1);
    assert n / 256 == hi && n % 256 == lo;
  }

  lemma HoldsJoin(m: seq<Byte>, at: nat, a: seq<Byte>, b: seq<Byte>)
    requires Holds(m, at, a) && Holds(m, at + |a|, b)
    ensures Holds(m, at, a + b)
  {
    forall i | 0 <= i < |a + b|
      ensures At(m, at + i) == (a + b)[i]
    {
      if i >= |a| {
        assert At(m, at + |a| + (i - |a|)) == b[i - |a|];
      }
    }
  }

  lemma HoldsCarried(m: seq<Byte>, at: nat, n: seq<Byte>, to: nat, b: seq<Byte>)
    requires Holds(m, at, b) && at + |b| <= |m| && to + |b| <= |n|
    requires n[to..to + |b|] == m[at..at + |b|]
    ensures Holds(n, to, b)
  {
    forall i | 0 <= i < |b|
      ensures At(n, to + i) == b[i]
    {
      assert n[to..to + |b|][i] == m[at..at + |b|][i];
      assert At(m, at + i) == b[i];
    }
  }

  lemma HeldAfter(f: Frame, g: Frame, addresses: seq<Byte>, kind: nat, b: seq<Byte>)
    requires f.Valid() && g.Valid() && |g.mem| == |f.mem| && |addresses| == 12 && kind < 0x10000
    requires f.payload + 12 <= |f.mem| && g.payload + ETHER_HEADER + |b| <= |g.mem|
    requires g.mem[g.payload..g.payload + 12] == f.mem[f.payload..f.payload + 12]
    requires g.mem[g.payload + ETHER_HEADER..] == f.mem[g.payload + ETHER_HEADER..]
    requires BigEndian16(g.mem, g.payload + 12) == kind
    requires Holds(f.mem, f.payload, addresses) && Holds(f.mem, g.payload + ETHER_HEADER, b)
    ensures Holds(g.mem, g.payload, addresses + Number16(kind) + b)
  {
    var at := g.payload + ETHER_HEADER;
    HoldsCarried(f.mem, f.payload, g.mem, g.payload, addresses);
    assert g.mem[at..at + |b|] == g.mem[at..][..|b|];
    assert f.mem[at..at + |b|] == f.mem[at..][..|b|];
    HoldsCarried(f.mem, at, g.mem, at, b);
    NumberHeld(g.mem, g.payload + 12, kind);
    HoldsJoin(g.mem, g.payload, addresses, Number16(kind));
    HoldsJoin(g.mem, g.payload, addresses + Number16(kind), b);
  }

  // ----- Packets that the walk does not get right -----

  /** IPv6 in a PPPoE session is found with type 0, and stripping writes that into the Ethernet header. */
  lemma Ipv6InSession(addresses: seq<Byte>, session: seq<Byte>, body: seq<Byte>)
    requires |addresses| == 12 && |session| == 6 && |body| > 0 && body[0] / 16 == 6 && |body| < 0x8000
    ensures var s := Pppoe(session, Network(ETHERTYPE_IPV6, body));
            && WellFormed(s) && |Ethernet(addresses, s)| < 0x10000
            && var f := Padded(addresses, s, []);
            && f.Network() == Cursor(22, 0, |body|)
            && BigEndian16(Strip(f).mem, Strip(f).payload + 12) == 0 && Strip(f).Network() == Cursor(22, 0, |body|)
  {
    hide *;
    var s := Pppoe(session, Network(ETHERTYPE_IPV6, body));
    SessionFormed(session, body);
    SessionStack(s);
    Lengths(addresses, s);
    PaddedFinds(addresses, s, []);
    PaddedStrips(addresses, s, []);
    PaddedIs(addresses, s, []);
    var f := Padded(addresses, s, []);
    if Untouched(f) {
      PlainNotNested(f, addresses, s);
    } else {
      NetworkAtEnd(f);
      StrippedBytes(f);
    }
  }

  lemma SessionFormed(session: seq<Byte>, body: seq<Byte>)
    requires |session| == 6 && |body| > 0
    ensures WellFormed(Pppoe(session, Network(ETHERTYPE_IPV6, body))) && ETHERTYPE_IPV6 == 0x86DD
  {
  }

  lemma SessionStack(s: Stack)
    requires WellFormed(s) && s.Pppoe? && s.inner.Network?
    ensures |Encode(s)| == 8 + |s.inner.body| && Stop(s) == s.inner && Encode(s.inner) == s.inner.body
    ensures s.inner.kind == ETHERTYPE_IPV6 ==> StopKind(s) == 0
  {
  }

  /** An Ethernet frame inside of MPLS is where the walk ends, and an address that starts with 4 or 6
      makes it look like IP. */
  lemma FrameInMpls(addresses: seq<Byte>, entry: seq<Byte>, extra: Byte, ttl: Byte, within: seq<Byte>, body: seq<Byte>)
    requires |addresses| == 12 && |entry| == 2 && extra < 128 && |within| == 12 && 0 < |body| < 0x8000
    ensures var s := Mpls(entry, extra, ttl, Bridged(within, Network(ETHERTYPE_IP, body)));
            && WellFormed(s)
            && Layer3(Ethernet(addresses, s), 0, |Ethernet(addresses, s)|) == Cursor(18, Guess(within[0]), ETHER_HEADER + |body|)
  {
    var s := Mpls(entry, extra, ttl, Bridged(within, Network(ETHERTYPE_IP, body)));
    assert Encode(s.inner.inner) == body;
    assert |Encode(s.inner)| == ETHER_HEADER + |body|;
    assert |Encode(s)| == 4 + |Encode(s.inner)|;
    var e := Ethernet(addresses, s);
    HoldsStart(e, []);
    assert e + [] == e;
    WalkOverEthernet(e, 0, addresses, s);
  }
}
