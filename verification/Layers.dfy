/** Walking through the protocol layers of an Ethernet packet: the headers between Ethernet and the
    network layer, IPv4 and IPv6 with its extension headers, and stripping what lies in between. */
module Layers {
  import opened Bytes

  const ETHERTYPE_IP: nat := 0x0800
  const ETHERTYPE_8021Q: nat := 0x8100
  const ETHERTYPE_IPV6: nat := 0x86DD
  const ETHERTYPE_MPLS: nat := 0x8847
  const ETHERTYPE_PPP_SES: nat := 0x8864
  const ETHER_HEADER: nat := 14

  /** A pointer into the packet with the type of what is there and the bytes remaining; or NULL. */
  datatype Cursor = Nowhere | Cursor(at: nat, kind: nat, remaining: nat)

  // ----- From Ethernet to layer 3 -----

  function EthernetPayload(m: seq<Byte>, at: nat, remaining: nat): (c: Cursor)
    ensures c.Cursor? ==> c.at + c.remaining == at + remaining && c.at == at + ETHER_HEADER
  {
    if remaining < ETHER_HEADER then Nowhere
    else Cursor(at + ETHER_HEADER, BigEndian16(m, at + 12), remaining - ETHER_HEADER)
  }

  function SkipVlan(m: seq<Byte>, c: Cursor): Cursor
    requires c.Cursor?
  {
    if c.remaining < 4 then Nowhere else Cursor(c.at + 4, BigEndian16(m, c.at + 2), c.remaining - 4)
  }

  /** Another label follows unless the bottom-of-stack bit is set; what follows the last label is
      guessed from its first nibble. */
  function MplsNext(m: seq<Byte>, c: Cursor): nat
    requires c.Cursor?
  {
    if At(m, c.at + 2) % 2 == 0 then ETHERTYPE_MPLS
    else if c.remaining < 5 then c.kind
    else if At(m, c.at + 4) / 16 == 4 then ETHERTYPE_IP
    else if At(m, c.at + 4) / 16 == 6 then ETHERTYPE_IPV6
    else 0
  }

  function SkipMpls(m: seq<Byte>, c: Cursor): Cursor
    requires c.Cursor?
  {
    if c.remaining < 4 then Nowhere else Cursor(c.at + 4, MplsNext(m, c), c.remaining - 4)
  }

  function SkipPpp(m: seq<Byte>, c: Cursor): Cursor
    requires c.Cursor?
  {
    if c.remaining < 2 then Nowhere
    else Cursor(c.at + 2, if BigEndian16(m, c.at) == 0x0021 then ETHERTYPE_IP else 0, c.remaining - 2)
  }

  function SkipPppoe(m: seq<Byte>, c: Cursor): Cursor
    requires c.Cursor?
  {
    if c.remaining < 6 then Nowhere else SkipPpp(m, c.(at := c.at + 6, remaining := c.remaining - 6))
  }

  /** Headers that sit between Ethernet and layer 3. */
  predicate Shim(kind: nat) {
    kind == ETHERTYPE_8021Q || kind == ETHERTYPE_MPLS || kind == ETHERTYPE_PPP_SES
  }

  /** Skipping a header moves the pointer by what it takes off the remaining count. */
  function Skip(m: seq<Byte>, c: Cursor): (r: Cursor)
    requires c.Cursor? && Shim(c.kind)
    ensures r.Cursor? ==> r.at + r.remaining == c.at + c.remaining && r.remaining < c.remaining
  {
    if c.kind == ETHERTYPE_8021Q then SkipVlan(m, c)
    else if c.kind == ETHERTYPE_MPLS then SkipMpls(m, c)
    else SkipPppoe(m, c)
  }

  predicate Done(c: Cursor) {
    c.Nowhere? || c.remaining == 0 || !Shim(c.kind)
  }

  /** Skip headers as long as there are any. */
  function Walk(m: seq<Byte>, c: Cursor): (r: Cursor)
    ensures Done(r)
    ensures r.Cursor? ==> c.Cursor? && r.at + r.remaining == c.at + c.remaining && r.at >= c.at
    decreases if c.Cursor? then c.remaining + 1 else 0
  {
    if Done(c) then c else Walk(m, Skip(m, c))
  }

  /** The layer 3 header of the Ethernet packet at `at`. */
  function Layer3(m: seq<Byte>, at: nat, remaining: nat): (r: Cursor)
    ensures r.Cursor? ==> r.at + r.remaining == at + remaining && r.remaining > 0 && r.at >= at + ETHER_HEADER
  {
    var c := Walk(m, EthernetPayload(m, at, remaining));
    if c.Cursor? && c.remaining > 0 then c else Nowhere
  }

  /** The walk looks at nothing beyond the bytes remaining. */
  lemma SkipLocal(m: seq<Byte>, n: seq<Byte>, c: Cursor)
    requires c.Cursor? && Shim(c.kind) && Agree(m, n, c.at, c.at + c.remaining)
    ensures Skip(n, c) == Skip(m, c)
  {
  }

  lemma {:induction false} WalkLocal(m: seq<Byte>, n: seq<Byte>, c: Cursor)
    requires c.Cursor? ==> Agree(m, n, c.at, c.at + c.remaining)
    ensures Walk(n, c) == Walk(m, c)
    decreases if c.Cursor? then c.remaining + 1 else 0
  {
    if !Done(c) {
      SkipLocal(m, n, c);
      WalkLocal(m, n, Skip(m, c));
    }
  }

  /** A packet with a corrupt, negative wire length is decoded like one that was captured whole. */
  lemma CorruptWire(f: Frame)
    requires f.Valid() && f.wire < 0
    ensures var g := f.(wire := f.capture);
            && f.Network() == g.Network() && f.End() == g.End()
            && Strip(f) == Strip(g).(wire := f.wire)
  {
    hide Walk, MoveUp;
  }

  // ----- Stripping -----

  /** A packet in its buffer.  A negative wire length is a corrupt one. */
  datatype Frame = Frame(mem: seq<Byte>, payload: nat, capture: nat, wire: int) {
    ghost predicate Valid() {
      capture < 0x10000 && payload + capture <= |mem|
    }

    /** trace_get_packet_buffer: the smaller of capture and wire length, unless the latter is corrupt. */
    function Remaining(): (r: nat)
      ensures r <= capture
    {
      if wire < 0 then capture else if wire < capture then wire else capture
    }

    function Network(): Cursor {
      Layer3(mem, payload, Remaining())
    }

    /** Where the headers to strip end. */
    function End(): Cursor {
      Walk(mem, EthernetPayload(mem, payload, Remaining()))
    }
  }

  /** The type that stripping writes into the Ethernet header. */
  function FinalType(c: Cursor): nat
    requires c.Cursor?
  {
    if c.remaining == 0 then 0 else c.kind
  }

  /** The test at the start of trace_strip_packet, which compares the type in network byte order with
      numbers in host byte order. */
  predicate LooksPlain(f: Frame) {
    LittleEndian16(f.mem, f.payload + 12) == ETHERTYPE_IP || LittleEndian16(f.mem, f.payload + 12) == ETHERTYPE_IPV6
  }

  predicate Untouched(f: Frame) {
    LooksPlain(f) || f.Remaining() <= ETHER_HEADER || f.End().Nowhere?
  }

  /** The Ethernet header at `from` with another type. */
  function Retyped(m: seq<Byte>, from: nat, kind: nat): (h: seq<Byte>)
    requires from + 12 <= |m|
    ensures |h| == ETHER_HEADER
  {
    m[from..from + 12] + [kind / 256 % 256, kind % 256]
  }

  /** Give the Ethernet header at `from` another type, then move it up to `to`. */
  function MoveUp(m: seq<Byte>, from: nat, to: nat, kind: nat): (n: seq<Byte>)
    requires from <= to && to + ETHER_HEADER <= |m|
    ensures |n| == |m|
  {
    var h := Retyped(m, from, kind);
    Overwrite(Overwrite(m, from + 12, h[12..]), to, h)
  }

  /** trace_strip_packet */
  function Strip(f: Frame): (g: Frame)
    requires f.Valid()
    ensures g.Valid() && |g.mem| == |f.mem|
  {
    if Untouched(f) then f
    else
      var to := f.End().at - ETHER_HEADER;
      Frame(MoveUp(f.mem, f.payload, to, FinalType(f.End())), to, f.capture - (to - f.payload), f.wire)
  }

  lemma WalkKind(m: seq<Byte>, c: Cursor)
    requires c.Cursor? ==> c.kind < 0x10000
    ensures var r := Walk(m, c); r.Cursor? ==> r.kind < 0x10000
    decreases if c.Cursor? then c.remaining + 1 else 0
  {
    if !Done(c) {
      WalkKind(m, Skip(m, c));
    }
  }

  lemma EndKind(f: Frame)
    ensures f.End().Cursor? ==> f.End().kind < 0x10000
  {
    WalkKind(f.mem, EthernetPayload(f.mem, f.payload, f.Remaining()));
  }

  /** A header that looks plain has no type that can be stripped. */
  lemma PlainIsDone(f: Frame)
    requires LooksPlain(f)
    ensures !Shim(BigEndian16(f.mem, f.payload + 12))
  {
  }

  /** The headers were actually there to strip. */
  predicate Strips(f: Frame) {
    !Untouched(f) && f.End().at > f.payload + ETHER_HEADER
  }

  /** The header arrives with its addresses and the new type; everything behind it stays. */
  lemma MovedUp(m: seq<Byte>, from: nat, to: nat, kind: nat)
    requires from <= to && to + ETHER_HEADER <= |m| && kind < 0x10000
    ensures var n := MoveUp(m, from, to, kind);
            && n[to..to + 12] == m[from..from + 12]
            && n[to + ETHER_HEADER..] == m[to + ETHER_HEADER..]
            && BigEndian16(n, to + 12) == kind
  {
    var n, h := MoveUp(m, from, to, kind), Retyped(m, from, kind);
    assert n[to..to + ETHER_HEADER] == h;
    assert n[to..to + 12] == h[..12];
    assert n[to + 12] == h[12] && n[to + 13] == h[13];
    JoinHalves(kind);
  }

  /** The stripped packet starts with the old addresses and the final type, and is unchanged from the
      layer 3 header on. */
  lemma StrippedBytes(f: Frame)
    requires f.Valid() && !Untouched(f)
    ensures var g, at := Strip(f), f.End().at;
            && g.payload + ETHER_HEADER == at && g.payload + g.capture == f.payload + f.capture
            && g.mem[g.payload..g.payload + 12] == f.mem[f.payload..f.payload + 12]
            && BigEndian16(g.mem, g.payload + 12) == FinalType(f.End())
            && g.mem[at..] == f.mem[at..]
  {
    hide BigEndian16, Walk, MoveUp;
    EndKind(f);
    MovedUp(f.mem, f.payload, Strip(f).payload, FinalType(f.End()));
  }

  /** The layer 3 view after stripping, from the new lengths. */
  lemma NetworkAfter(f: Frame)
    requires f.Valid() && !Untouched(f)
    ensures var g, c := Strip(f), f.End();
            && (g.Remaining() > ETHER_HEADER ==>
                 g.Network() == Cursor(c.at, FinalType(c), g.Remaining() - ETHER_HEADER))
            && (g.Remaining() <= ETHER_HEADER ==> g.Network() == Nowhere)
  {
    StrippedBytes(f);
  }

  /** Stripping leaves the layer 3 pointer, type and remaining count as they were, or the absence of a
      layer 3 header, exactly unless it took headers off a packet captured with padding beyond its
      wire length. */
  lemma StripPreservesNetwork(f: Frame)
    requires f.Valid()
    ensures Strip(f).Network() == f.Network() <==> !(Strips(f) && 0 <= f.wire < f.capture)
  {
    if !Untouched(f) {
      NetworkAfter(f);
    }
  }

  /** The bytes of the layer 3 header and everything behind it stay in place. */
  lemma StripKeepsBytes(f: Frame)
    requires f.Valid() && f.Network().Cursor?
    ensures Strip(f).mem[f.Network().at..] == f.mem[f.Network().at..]
  {
    if !Untouched(f) {
      StrippedBytes(f);
    }
  }

  lemma StripStopsHere(f: Frame)
    requires f.Valid()
    ensures Untouched(Strip(f)) || Strip(f).End().at == Strip(f).payload + ETHER_HEADER
  {
    if !Untouched(f) {
      StrippedBytes(f);
    }
  }

  /** Stripping a stripped packet changes nothing. */
  lemma StripIdempotent(f: Frame)
    requires f.Valid()
    ensures Strip(Strip(f)) == Strip(f)
  {
    if !Untouched(f) {
      var g := Strip(f);
      StrippedBytes(f);
      StripStopsHere(f);
      if !Untouched(g) {
        StrippedBytes(g);
        NothingMoves(g);
      }
    }
  }

  lemma NothingMoves(g: Frame)
    requires g.Valid() && !Untouched(g) && g.End().at == g.payload + ETHER_HEADER && g.End().remaining > 0
    ensures Strip(g) == g
  {
    hide MoveUp, BigEndian16;
    MoveNowhere(g.mem, g.payload);
  }

  lemma MoveNowhere(m: seq<Byte>, at: nat)
    requires at + ETHER_HEADER <= |m|
    ensures MoveUp(m, at, at, BigEndian16(m, at + 12)) == m
  {
    hide BigEndian16;
    var h := Retyped(m, at, BigEndian16(m, at + 12));
    Halves(m, at + 12);
    assert h == m[at..at + ETHER_HEADER];
  }

  lemma Halves(m: seq<Byte>, i: nat)
    ensures BigEndian16(m, i) / 256 % 256 == At(m, i) && BigEndian16(m, i) % 256 == At(m, i + 1)
  {
  }
}
