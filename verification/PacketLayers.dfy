/** An Ethernet packet object with its layer caches. */
module PacketLayers {
  import opened Bytes
  import opened Layers
  import opened Transport

  class Packet {
    const mem: array<Byte>
    var payload: nat
    var captureLength: nat
    var wireLength: int
    // The cached headers; `Nowhere` is an empty cache.
    var l2: Cursor
    var l3: Cursor
    var l4: Cursor
    // The cached lengths; -1 is an empty cache.
    var cachedCapture: int
    var cachedWire: int
    var cachedPayload: int

    constructor (mem: array<Byte>, payload: nat, captureLength: nat, wireLength: int)
      requires captureLength < 0x10000 && payload + captureLength <= mem.Length
      ensures this.mem == mem && Now() == Frame(mem[..], payload, captureLength, wireLength)
      ensures Valid()
    {
      this.mem, this.payload, this.captureLength, this.wireLength := mem, payload, captureLength, wireLength;
      l2, l3, l4 := Nowhere, Nowhere, Nowhere;
      cachedCapture, cachedWire, cachedPayload := -1, -1, -1;
    }

    /** The packet without its caches. */
    ghost function Now(): Frame
      reads this, mem
    {
      Frame(mem[..], payload, captureLength, wireLength)
    }

    /** The caches are right. */
    ghost predicate Valid()
      reads this, mem
    {
      && Now().Valid() && CachesRight(Now(), l2, l3, l4) && PayloadRight(Now(), l3, cachedPayload)
      && (cachedCapture == -1 || cachedCapture == captureLength)
      && (cachedWire == -1 || cachedWire == wireLength)
    }

    /** trace_clear_cache */
    method ClearCache()
      requires Valid()
      modifies this`l2, this`l3, this`l4, this`cachedCapture, this`cachedWire, this`cachedPayload
      ensures Valid() && l2.Nowhere? && l3.Nowhere? && l4.Nowhere?
      ensures cachedCapture == cachedWire == cachedPayload == -1
    {
      l2, l3, l4 := Nowhere, Nowhere, Nowhere;
      cachedCapture, cachedWire, cachedPayload := -1, -1, -1;
    }

    /** trace_get_capture_length */
    method GetCaptureLength() returns (n: int)
      requires Valid()
      modifies this`cachedCapture
      ensures Valid() && n == captureLength == cachedCapture
    {
      if cachedCapture == -1 {
        cachedCapture := captureLength;
      }
      n := cachedCapture;
    }

    /** trace_get_wire_length */
    method GetWireLength() returns (n: int)
      requires Valid()
      modifies this`cachedWire
      ensures Valid() && n == wireLength
    {
      if cachedWire == -1 {
        cachedWire := wireLength;
      }
      n := cachedWire;
    }

    /** trace_get_layer2 */
    method GetLayer2() returns (c: Cursor)
      requires Valid()
      modifies this`l2, this`cachedCapture, this`cachedWire
      ensures Valid() && c == Link(Now())
    {
      if l2.Nowhere? {
        hide CachesRight, PayloadRight;
        var capture := GetCaptureLength();
        var wire := GetWireLength();
        var remaining := if wire < 0 then capture else if wire < capture then wire else capture;
        LinkCached(Now(), l2, l3, l4);
        l2 := Cursor(payload, 0, remaining);
      } else {
        LinkCached(Now(), l2, l3, l4);
      }
      c := l2;
    }

    /** trace_get_layer3 */
    method GetLayer3() returns (c: Cursor)
      requires Valid()
      modifies this`l2, this`l3, this`cachedCapture, this`cachedWire
      ensures Valid() && c == Now().Network() && l3 == c
    {
      if l3.Cursor? {
        return l3;
      }
      var link := GetLayer2();
      c := EthernetPayload(mem[..], link.at, link.remaining);
      while c.Cursor? && c.remaining != 0 && Shim(c.kind)
        invariant Walk(mem[..], c) == Now().End()
        decreases if c.Cursor? then c.remaining + 1 else 0
      {
        c := Skip(mem[..], c);
      }
      if c.Nowhere? || c.remaining == 0 {
        return Nowhere;
      }
      l3 := c;
    }

    /** trace_get_transport */
    method GetTransport() returns (t: Cursor)
      requires Valid()
      modifies this`l2, this`l3, this`l4, this`cachedCapture, this`cachedWire
      ensures Valid() && t == Segment(Now()) && l3 == Now().Network()
    {
      if l4.Cursor? {
        return l4;
      }
      var c := GetLayer3();
      t := Nowhere;
      if c.Cursor? && c.kind == ETHERTYPE_IP {
        t := FromIp(mem[..], c.at, c.remaining);
        if t.Cursor? && t.kind == IPPROTO_IPV6 {
          t := Ip6Payload(t.at, t.remaining);
        }
      } else if c.Cursor? && c.kind == ETHERTYPE_IPV6 {
        t := Ip6Payload(c.at, c.remaining);
      }
      l4 := t;
    }

    /** trace_get_payload_length */
    method GetPayloadLength() returns (n: int)
      requires Valid()
      modifies this`l2, this`l3, this`l4, this`cachedCapture, this`cachedWire, this`cachedPayload
      ensures Valid() && n == PayloadSize(Now())
    {
      if cachedPayload != -1 {
        return cachedPayload;
      }
      hide CachesRight, Frame.Network, Segment, PayloadLength;
      var c := GetLayer3();
      var t := GetTransport();
      n := PayloadLength(mem[..], c, t);
      cachedPayload := n;
    }

    /** trace_get_payload_from_ip6 */
    method Ip6Payload(at: nat, remaining: nat) returns (c: Cursor)
      ensures c == FromIp6(mem[..], at, remaining)
    {
      if remaining < IP6_HEADER {
        return Nowhere;
      }
      hide At;
      var m := mem[..];
      var next: nat, payload: nat, left: nat := At(m, at + 6), at + IP6_HEADER, remaining - IP6_HEADER;
      while Extension(next) || next == IPPROTO_FRAGMENT
        invariant FromIp6(m, at, remaining) == Extensions(m, Cursor(payload, next, left))
        decreases left
      {
        var length := if next == IPPROTO_FRAGMENT then 8 else At(m, payload + 1) as nat * 8 + 8;
        if left < length {
          return Nowhere;
        }
        left := left - length;
        next := At(m, payload);
        payload := payload + length;
      }
      return Cursor(payload, next, left);
    }

    /** Copy the Ethernet header up to `to` (memmove), after giving it the type `final`. */
    method MoveHeader(to: nat, final: nat)
      requires payload <= to && to + ETHER_HEADER <= mem.Length && final < 0x10000
      modifies mem
      ensures mem[..] == MoveUp(old(mem[..]), payload, to, final)
    {
      ghost var h := Retyped(mem[..], payload, final);
      mem[payload + 12], mem[payload + 13] := final / 256 % 256, final % 256;
      ghost var patched := mem[..];
      assert patched == Overwrite(old(mem[..]), payload + 12, h[12..]);
      assert forall i :: 0 <= i < ETHER_HEADER ==> patched[payload + i] == h[i];
      MoveHeaderUp(to, h, patched);
    }

    /** The memmove, which reads all bytes before it writes any. */
    method MoveHeaderUp(to: nat, ghost h: seq<Byte>, ghost patched: seq<Byte>)
      requires payload <= to && to + ETHER_HEADER <= mem.Length && |h| == ETHER_HEADER && mem[..] == patched
      requires forall i :: 0 <= i < ETHER_HEADER ==> patched[payload + i] == h[i]
      modifies mem
      ensures mem[..] == Overwrite(patched, to, h)
    {
      forall i | 0 <= i < ETHER_HEADER {
        mem[to + i] := mem[payload + i];
      }
    }

    /** The loop of trace_strip_packet over the headers behind Ethernet: where it ends, and how many
        bytes it passed. */
    method PassHeaders(start: nat, remaining: nat) returns (c: Cursor, final: nat, removed: nat)
      requires remaining > ETHER_HEADER
      ensures c == Walk(mem[..], EthernetPayload(mem[..], start, remaining))
      ensures c.Cursor? ==> final == FinalType(c) && removed == c.at - (start + ETHER_HEADER)
    {
      c := Cursor(start + ETHER_HEADER, BigEndian16(mem[..], start + 12), remaining - ETHER_HEADER);
      final, removed := 0, 0;
      var done := false;
      while !done && c.Cursor? && c.remaining != 0
        invariant Walk(mem[..], c) == Walk(mem[..], EthernetPayload(mem[..], start, remaining))
        invariant c.Cursor? ==> removed == c.at - (start + ETHER_HEADER)
        invariant done ==> c.Cursor? && c.remaining != 0 && !Shim(c.kind)
        invariant final == if done then c.kind else 0
        decreases !done, if c.Cursor? then c.remaining + 1 else 0
      {
        if Shim(c.kind) {
          var next := Skip(mem[..], c);
          if next.Cursor? {
            removed := removed + (c.remaining - next.remaining);
          }
          c := next;
        } else {
          final := c.kind;
          done := true;
        }
      }
    }

    /** trace_strip_packet, in place.  The layer 2 cache is dropped; the others are kept, and are still
        right exactly unless layer 3 was cached and headers were taken off a packet captured with
        padding beyond its wire length. */
    method StripPacket()
      requires Valid()
      modifies this`l2, this`payload, this`captureLength, this`cachedCapture, this`cachedWire, mem
      ensures Now() == Strip(old(Now()))
      ensures Now().Valid()
      ensures Valid() <==> !(old(l3.Cursor?) && Strips(old(Now())) && 0 <= old(wireLength) < old(captureLength))
    {
      hide Strip, Strips, Frame.Network, Segment, Frame.End, MoveUp, Walk, Shim, LittleEndian16, BigEndian16, PayloadRight;
      ghost var before := Now();
      StripIsPure(before);
      var link := GetLayer2();
      var raw := LittleEndian16(mem[..], payload + 12);
      CachesAfterStrip(before, l2, l3, l4);
      PayloadAfterStrip(before, l3, cachedPayload);
      if raw == ETHERTYPE_IP || raw == ETHERTYPE_IPV6 || link.remaining <= ETHER_HEADER {
        return;
      }
      var c, final, removed := PassHeaders(payload, link.remaining);
      StripAt(before, c);
      if c.Cursor? {
        MoveHeader(c.at - ETHER_HEADER, final);
        captureLength := captureLength - removed;
        cachedCapture := captureLength;
        payload := c.at - ETHER_HEADER;
        l2 := Nowhere;
      }
    }

    /** One call of the interface. */
    method Answer(call: Call) returns (r: Reply)
      requires Valid() && (call == StripIt ==> !(0 <= wireLength < captureLength))
      modifies this, mem
      ensures Valid() && r == Fresh(old(Now()), call)
      ensures Now() == if call == StripIt then Strip(old(Now())) else old(Now())
    {
      var c, n := Nowhere, 0;
      match call {
        case Layer2 => c := GetLayer2();
        case Network => c := GetLayer3();
        case Upper => c := GetTransport();
        case CaptureLength => n := GetCaptureLength();
        case WireLength => n := GetWireLength();
        case PayloadSized => n := GetPayloadLength();
        case StripIt => StripPacket();
        case Forget => ClearCache();
      }
      r := Reply(c, n);
    }
  }

  lemma LinkCached(f: Frame, l2: Cursor, l3: Cursor, l4: Cursor)
    requires CachesRight(f, l2, l3, l4)
    ensures CachesRight(f, Link(f), l3, l4) && (l2.Cursor? ==> l2 == Link(f))
  {
  }

  lemma StripIsPure(f: Frame)
    requires f.Valid()
    ensures LooksPlain(f) || f.Remaining() <= ETHER_HEADER ==> Strip(f) == f && !Strips(f)
    ensures f.End() == Walk(f.mem, EthernetPayload(f.mem, f.payload, f.Remaining()))
  {
  }

  lemma StripAt(f: Frame, c: Cursor)
    requires f.Valid() && !LooksPlain(f) && f.Remaining() > ETHER_HEADER && c == f.End()
    ensures c.Nowhere? ==> Strip(f) == f && !Strips(f)
    ensures c.Cursor? ==>
              var to := c.at - ETHER_HEADER;
              && f.payload <= to && to + ETHER_HEADER <= |f.mem| && to - f.payload <= f.capture && FinalType(c) < 0x10000
              && Strip(f) == Frame(MoveUp(f.mem, f.payload, to, FinalType(c)), to, f.capture - (to - f.payload), f.wire)
  {
    EndKind(f);
  }

  /** Every filled cache holds what a fresh computation gives. */
  ghost predicate CachesRight(f: Frame, l2: Cursor, l3: Cursor, l4: Cursor) {
    && (l2.Cursor? ==> l2 == Link(f))
    && (l3.Cursor? ==> l3 == f.Network())
    && (l4.Cursor? ==> l3.Cursor? && l4 == Segment(f))
  }

  ghost function PayloadSize(f: Frame): int {
    PayloadLength(f.mem, f.Network(), Segment(f))
  }

  /** There is no layer 3, or none of a known type. */
  ghost predicate NoNetwork(f: Frame) {
    f.Network().Nowhere? || f.Network().kind == 0
  }

  /** So does the cached payload length, and layer 3 was looked for when that was computed. */
  ghost predicate PayloadRight(f: Frame, l3: Cursor, cached: int) {
    cached != -1 ==> cached == PayloadSize(f) && (l3.Cursor? || NoNetwork(f))
  }

  /** Stripping keeps the payload length if it keeps the view of layer 3, or if there is no layer 3. */
  lemma PayloadAfterStrip(f: Frame, l3: Cursor, cached: int)
    requires f.Valid() && PayloadRight(f, l3, cached)
    ensures !(l3.Cursor? && Strips(f) && 0 <= f.wire < f.capture) ==> PayloadRight(Strip(f), l3, cached)
  {
    hide Strip, Strips, Frame.Network, Segment, PayloadLength, NoNetwork;
    ViewsAfterStrip(f);
    if NoNetwork(f) {
      StillNoPayload(f);
    }
    if Strip(f).Network() == f.Network() {
      PayloadBytes(f);
    }
  }

  lemma PayloadBytes(f: Frame)
    requires f.Valid() && Strip(f).Network() == f.Network() && Segment(Strip(f)) == Segment(f)
    ensures PayloadSize(Strip(f)) == PayloadSize(f)
  {
    hide Strip, Frame.Network, PayloadLength;
    if f.Network().Cursor? {
      NetworkInside(f);
      StripKeepsBytes(f);
      PayloadLengthSame(f.mem, Strip(f).mem, f.Network(), Segment(f), f.Network().at);
    } else {
      PayloadOfNothing(f.mem, Strip(f).mem, f.Network(), Segment(f));
    }
  }

  lemma NetworkInside(f: Frame)
    requires f.Valid() && f.Network().Cursor?
    ensures f.Network().at <= |f.mem|
  {
  }

  lemma PayloadOfNothing(m: seq<Byte>, n: seq<Byte>, c: Cursor, t: Cursor)
    requires c.Nowhere?
    ensures PayloadLength(m, c, t) == PayloadLength(n, c, t) == 0
  {
  }

  lemma StillNoPayload(f: Frame)
    requires f.Valid() && NoNetwork(f)
    ensures PayloadSize(f) == 0 && PayloadSize(Strip(f)) == 0 && NoNetwork(Strip(f))
  {
    if !Untouched(f) {
      NetworkAfter(f);
    }
  }

  lemma CachesAfterStrip(f: Frame, l2: Cursor, l3: Cursor, l4: Cursor)
    requires f.Valid() && CachesRight(f, l2, l3, l4)
    ensures CachesRight(Strip(f), Nowhere, l3, l4) <==> !(l3.Cursor? && Strips(f) && 0 <= f.wire < f.capture)
  {
    hide Strip, Strips, Frame.Network, Segment;
    ViewsAfterStrip(f);
  }

  /** What stripping does to the layer 3 and transport views. */
  lemma ViewsAfterStrip(f: Frame)
    requires f.Valid()
    ensures Strip(f).Network() == f.Network() <==> !(Strips(f) && 0 <= f.wire < f.capture)
    ensures Strip(f).Network() == f.Network() ==> Segment(Strip(f)) == Segment(f)
  {
    hide Strip, Strips, Frame.Network, TransportOf;
    StripPreservesNetwork(f);
    if Strip(f).Network() == f.Network() {
      StripPreservesTransport(f);
    }
  }

  /** The layer 2 header of an Ethernet packet: the start of its buffer. */
  ghost function Link(f: Frame): Cursor {
    Cursor(f.payload, 0, f.Remaining())
  }

  ghost function Segment(f: Frame): Cursor {
    TransportOf(f.mem, f.Network())
  }

  // ----- Whole sequences of calls -----

  datatype Call = Layer2 | Network | Upper | CaptureLength | WireLength | PayloadSized | StripIt | Forget

  /** A header or a length, whichever was asked for. */
  datatype Reply = Reply(header: Cursor, length: int)

  /** The packet after some calls: only stripping changes it. */
  ghost function After(f: Frame, calls: seq<Call>): (g: Frame)
    requires f.Valid()
    ensures g.Valid()
  {
    if calls == [] then f
    else
      var g := After(f, calls[..|calls| - 1]);
      if calls[|calls| - 1] == StripIt then Strip(g) else g
  }

  /** What a call returns when nothing is cached. */
  ghost function Fresh(f: Frame, call: Call): Reply {
    match call
    case Layer2 => Reply(Link(f), 0)
    case Network => Reply(f.Network(), 0)
    case Upper => Reply(Segment(f), 0)
    case CaptureLength => Reply(Nowhere, f.capture)
    case WireLength => Reply(Nowhere, f.wire)
    case PayloadSized => Reply(Nowhere, PayloadSize(f))
    case StripIt => Reply(Nowhere, 0)
    case Forget => Reply(Nowhere, 0)
  }

  lemma AfterOneMore(f: Frame, calls: seq<Call>, i: nat)
    requires f.Valid() && i < |calls|
    ensures After(f, calls[..i + 1]) ==
            if calls[i] == StripIt then Strip(After(f, calls[..i])) else After(f, calls[..i])
  {
    assert calls[..i + 1][..i] == calls[..i];
  }

  /** Stripping adds no padding. */
  lemma {:induction false} NeverPadded(f: Frame, calls: seq<Call>)
    requires f.Valid() && !(0 <= f.wire < f.capture)
    ensures var g := After(f, calls); g.wire == f.wire && !(0 <= g.wire < g.capture)
    decreases |calls|
  {
    if calls != [] {
      NeverPadded(f, calls[..|calls| - 1]);
    }
  }

  /** However accessors, stripping and cache clearing are mixed, every accessor returns what a fresh
      computation on the packet of that moment returns. */
  method Session(mem: array<Byte>, start: nat, capture: nat, wire: int, calls: seq<Call>)
    returns (answers: seq<Reply>, bytes: seq<Byte>)
    requires capture < 0x10000 && start + capture <= mem.Length
    requires StripIt in calls ==> !(0 <= wire < capture)
    ensures |answers| == |calls|
    ensures var f := Frame(mem[..], start, capture, wire);
            forall i :: 0 <= i < |calls| ==> answers[i] == Expected(f, calls, i)
    ensures bytes == After(Frame(mem[..], start, capture, wire), calls).mem
  {
    hide Packet.Valid, Fresh, Strip, After, AllFresh, Expected;
    var copy := new Byte[mem.Length];
    forall i | 0 <= i < mem.Length {
      copy[i] := mem[i];
    }
    assert copy[..] == mem[..];
    ghost var f := Frame(mem[..], start, capture, wire);
    var p := new Packet(copy, start, capture, wire);
    NothingYet(f, calls);
    answers := [];
    var n := 0;
    while n < |calls|
      invariant 0 <= n <= |calls|
      invariant p.mem == copy && fresh(p) && fresh(copy) && p.Valid()
      invariant p.Now() == After(f, calls[..n]) && AllFresh(f, calls, n, answers)
    {
      if calls[n] == StripIt {
        NeverPadded(f, calls[..n]);
      }
      var c := p.Answer(calls[n]);
      AfterOneMore(f, calls, n);
      ExpectedIs(f, calls, n);
      OneMoreFresh(f, calls, n, answers);
      answers := answers + [c];
      n := n + 1;
    }
    assert calls[..n] == calls;
    FreshOnes(f, calls, answers);
    bytes := copy[..];
  }

  /** What call `i` returns when nothing is cached. */
  ghost function Expected(f: Frame, calls: seq<Call>, i: nat): Reply
    requires f.Valid() && i < |calls|
  {
    Fresh(After(f, calls[..i]), calls[i])
  }

  /** The answers to the first `n` calls are what a fresh computation would have given at their time. */
  ghost predicate AllFresh(f: Frame, calls: seq<Call>, n: nat, answers: seq<Reply>)
    requires f.Valid()
  {
    |answers| == n <= |calls| && forall i :: 0 <= i < n ==> answers[i] == Expected(f, calls, i)
  }

  lemma NothingYet(f: Frame, calls: seq<Call>)
    requires f.Valid()
    ensures After(f, calls[..0]) == f && AllFresh(f, calls, 0, [])
  {
  }

  lemma FreshOnes(f: Frame, calls: seq<Call>, answers: seq<Reply>)
    requires f.Valid() && AllFresh(f, calls, |calls|, answers)
    ensures |answers| == |calls|
    ensures forall i :: 0 <= i < |calls| ==> answers[i] == Expected(f, calls, i)
  {
  }

  lemma OneMoreFresh(f: Frame, calls: seq<Call>, n: nat, answers: seq<Reply>)
    requires f.Valid() && n < |calls| && AllFresh(f, calls, n, answers)
    ensures AllFresh(f, calls, n + 1, answers + [Expected(f, calls, n)])
  {
    hide Expected, Frame.Valid;
  }

  lemma ExpectedIs(f: Frame, calls: seq<Call>, n: nat)
    requires f.Valid() && n < |calls|
    ensures Expected(f, calls, n) == Fresh(After(f, calls[..n]), calls[n])
  {
    hide Fresh, After;
  }
}
