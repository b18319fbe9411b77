/** The receive side of the RT protocol: bytes arrive from a socket in arbitrary pieces, are collected
    in a buffer that is replaced when it fills up, and leave as packets that point into the buffer. */
module RtFraming {
  import opened Bytes

  const PACKET_BUFSIZE: nat := 65536
  const RT_BUF_SIZE: nat := PACKET_BUFSIZE * 2
  const HEADER: nat := 12

  // ----- The format: a 12-byte header whose bytes 6 and 7 hold the payload length -----

  function PayloadLength(s: seq<Byte>): (n: nat)
    requires |s| >= HEADER
    ensures n < 65536
  {
    Join(s[6], s[7])
  }

  function PacketType(s: seq<Byte>): nat
    requires |s| >= HEADER
  {
    Number32(s[0], s[1], s[2], s[3])
  }

  /** A number in network byte order. */
  function Number32(a: Byte, b: Byte, c: Byte, d: Byte): nat {
    65536 * Join(a, b) + Join(c, d)
  }

  /** A whole frame is at the front of `s`. */
  predicate Complete(s: seq<Byte>) {
    |s| >= HEADER && |s| >= HEADER + PayloadLength(s)
  }

  function FrameSize(s: seq<Byte>): (n: nat)
    requires Complete(s)
    ensures HEADER <= n <= |s| && n < HEADER + 65536
  {
    HEADER + PayloadLength(s)
  }

  /** The frames of a byte stream; an incomplete frame at the end is not one. */
  function Parse(s: seq<Byte>): seq<seq<Byte>> {
    if !Complete(s) then [] else [s[..FrameSize(s)]] + Parse(s[FrameSize(s)..])
  }

  function Concat(fs: seq<seq<Byte>>): seq<Byte> {
    if fs == [] then [] else fs[0] + Concat(fs[1..])
  }

  ghost predicate WellFramed(fs: seq<seq<Byte>>) {
    forall i :: 0 <= i < |fs| ==> Complete(fs[i]) && FrameSize(fs[i]) == |fs[i]|
  }

  /** More data behind a complete frame does not change it. */
  lemma FrameStands(s: seq<Byte>, more: seq<Byte>)
    requires Complete(s)
    ensures Complete(s + more) && FrameSize(s + more) == FrameSize(s)
    ensures (s + more)[..FrameSize(s)] == s[..FrameSize(s)] && (s + more)[FrameSize(s)..] == s[FrameSize(s)..] + more
  {
  }

  /** The parse is the only way to split a stream into frames and a remainder without a frame. */
  lemma {:induction false} ParseUnique(s: seq<Byte>, fs: seq<seq<Byte>>, rest: seq<Byte>)
    requires s == Concat(fs) + rest && WellFramed(fs) && !Complete(rest)
    ensures Parse(s) == fs
    decreases |fs|
  {
    hide FrameSize, Complete, PayloadLength;
    if fs == [] {
      assert s == rest;
    } else {
      var f, tail := fs[0], Concat(fs[1..]) + rest;
      assert s == f + tail;
      FrameStands(f, tail);
      assert f[..|f|] == f && f[|f|..] + tail == tail;
      ParseUnique(tail, fs[1..], rest);
    }
  }

  // ----- Messages, as a sender writes them -----

  /** Type, magic number, version, length of the payload, sequence number, payload. */
  datatype Message = Message(kind: nat, magic: Byte, version: Byte, sequence: nat, payload: seq<Byte>) {
    predicate WellFormed() {
      kind < 0x1_0000_0000 && sequence < 0x1_0000_0000 && |payload| < 65536
    }

    function Encode(): seq<Byte> {
      Number16(kind / 65536) + Number16(kind % 65536) + [magic, version] + Number16(|payload|)
      + Number16(sequence / 65536) + Number16(sequence % 65536) + payload
    }
  }

  function EncodeEach(ms: seq<Message>): (fs: seq<seq<Byte>>)
    ensures |fs| == |ms| && forall i :: 0 <= i < |ms| ==> fs[i] == ms[i].Encode()
  {
    seq(|ms|, i requires 0 <= i < |ms| => ms[i].Encode())
  }

  lemma NumberReads(n: nat)
    requires n < 65536
    ensures Join(Number16(n)[0], Number16(n)[1]) == n
  {
    JoinHalves(n);
  }

  /** A message is a frame with the type and the payload length that the sender has put into it. */
  lemma MessageFrames(m: Message)
    requires m.WellFormed()
    ensures var f := m.Encode();
            && Complete(f) && FrameSize(f) == |f|
            && PacketType(f) == m.kind && PayloadLength(f) == |m.payload| && f[HEADER..] == m.payload
  {
    hide Number16, Join, Message.Encode;
    var f := m.Encode();
    EncodeParts(m);
    NumberReads(m.kind / 65536);
    NumberReads(m.kind % 65536);
    NumberReads(|m.payload|);
  }

  lemma EncodeParts(m: Message)
    ensures var f := m.Encode();
            && |f| == HEADER + |m.payload| && f[HEADER..] == m.payload
            && f[0] == Number16(m.kind / 65536)[0] && f[1] == Number16(m.kind / 65536)[1]
            && f[2] == Number16(m.kind % 65536)[0] && f[3] == Number16(m.kind % 65536)[1]
            && f[6] == Number16(|m.payload|)[0] && f[7] == Number16(|m.payload|)[1]
  {
    hide Number16;
  }

  /** A stream of messages, the last of which may be incomplete, is cut into these messages. */
  lemma MessagesParse(ms: seq<Message>, rest: seq<Byte>)
    requires (forall m :: m in ms ==> m.WellFormed()) && !Complete(rest)
    ensures Parse(Concat(EncodeEach(ms)) + rest) == EncodeEach(ms)
  {
    forall i | 0 <= i < |ms| ensures Complete(EncodeEach(ms)[i]) && FrameSize(EncodeEach(ms)[i]) == |EncodeEach(ms)[i]| {
      MessageFrames(ms[i]);
    }
    hide Complete, FrameSize, Parse, Concat;
    ParseUnique(Concat(EncodeEach(ms)) + rest, EncodeEach(ms), rest);
  }

  // ----- The client -----

  /** A packet handed out: it points into a buffer and was `bytes` at that moment. */
  datatype Packet = Packet(buffer: array<Byte>, offset: nat, bytes: seq<Byte>)

  ghost predicate Unharmed(p: Packet)
    reads p.buffer
  {
    p.offset + |p.bytes| <= p.buffer.Length && p.buffer[p.offset..p.offset + |p.bytes|] == p.bytes
  }

  function Frames(ps: seq<Packet>): (fs: seq<seq<Byte>>)
    ensures |fs| == |ps| && forall i :: 0 <= i < |ps| ==> fs[i] == ps[i].bytes
  {
    seq(|ps|, i requires 0 <= i < |ps| => ps[i].bytes)
  }

  lemma FramesAppend(ps: seq<Packet>, p: Packet)
    ensures Frames(ps + [p]) == Frames(ps) + [p.bytes]
  {
  }

  const TRACE_RT_STATUS: nat := 4
  const TRACE_RT_END_DATA: nat := 6
  const TRACE_RT_PAUSE_ACK: nat := 10
  const TRACE_RT_OPTION: nat := 11
  const TRACE_RT_KEYCHANGE: nat := 12
  const TRACE_RT_DUCK_2_4: nat := 13
  const TRACE_RT_DUCK_2_5: nat := 14
  const TRACE_RT_LOSTCONN: nat := 15
  const TRACE_RT_SERVERSTART: nat := 16
  const TRACE_RT_CLIENTDROP: nat := 17
  const TRACE_RT_METADATA: nat := 18
  const TRACE_RT_DATA_SIMPLE: nat := 1000

  datatype Outcome = Failed | Delivered(packetType: nat, length: nat) | BadType(packetType: nat)

  /** The packet types a client accepts. */
  predicate KnownType(t: nat) {
    t >= 1000 || t in {4, 6, 10, 11, 12, 13, 14, 15, 16, 17, 18}
  }

  /** What the caller is told about the frame `f`. */
  ghost predicate Answers(outcome: Outcome, f: seq<Byte>) {
    && Complete(f) && FrameSize(f) == |f|
    && !outcome.Failed?
    && outcome.packetType == PacketType(f)
    && (outcome.Delivered? <==> KnownType(PacketType(f)))
    && (outcome.Delivered? ==> outcome.length == PayloadLength(f))
  }

  /** The frames handed out and those in the rest of the stream are all there are. */
  ghost predicate Accounted(total: seq<Byte>, out: seq<seq<Byte>>, rest: seq<Byte>) {
    Parse(total) == out + Parse(rest)
  }

  lemma HandedOn(total: seq<Byte>, out: seq<seq<Byte>>, held: seq<Byte>, more: seq<Byte>)
    requires Accounted(total, out, held + more) && Complete(held)
    ensures Accounted(total, out + [held[..FrameSize(held)]], held[FrameSize(held)..] + more)
  {
    hide Parse, Complete, FrameSize;
    ParseHead(held, more);
  }

  lemma HeaderThere(s: seq<Byte>)
    requires Complete(s)
    ensures |s| >= HEADER
  {
  }

  lemma FrameAnswers(s: seq<Byte>, length: nat, t: nat)
    requires Complete(s) && |s| >= HEADER && length == PayloadLength(s) && t == PacketType(s)
    ensures FrameSize(s) == HEADER + length <= |s|
    ensures Answers(if KnownType(t) then Delivered(t, length) else BadType(t), s[..HEADER + length])
  {
    FrameOfFrame(s);
  }

  lemma Received(held: seq<Byte>, coming: seq<Byte>, got: nat)
    requires got <= |coming|
    ensures held + coming[..got] + coming[got..] == held + coming
  {
  }

  class Client {
    var buffer: array?<Byte>
    var bufRead: nat
    var bufWrite: nat
    /** What the socket is still going to deliver, and how many interrupted and failing calls are to
        come; with nothing to deliver, every call fails. */
    var stream: seq<Byte>
    var interrupts: nat
    var failures: nat
    ghost const total: seq<Byte>
    var packets: seq<Packet>

    ghost predicate BufferValid()
      reads this, buffer
    {
      && (buffer == null ==> bufRead == bufWrite == 0)
      && (buffer != null ==> buffer.Length == RT_BUF_SIZE && bufRead <= bufWrite <= RT_BUF_SIZE)
    }

    /** Received but not handed out. */
    ghost function Unread(): seq<Byte>
      reads this, buffer
      requires BufferValid()
    {
      if buffer == null then [] else buffer[bufRead..bufWrite]
    }

    /** Packets handed out earlier still read the same, and lie in front of what is yet to be read. */
    ghost predicate Intact()
      reads this`packets, this`buffer, this`bufRead, buffer, set p | p in packets :: p.buffer
    {
      forall p :: p in packets ==> Unharmed(p) && (p.buffer == buffer ==> p.offset + |p.bytes| <= bufRead)
    }

    ghost predicate Valid()
      reads this, buffer, set p | p in packets :: p.buffer
    {
      && BufferValid()
      && Intact()
      && Accounted(total, Frames(packets), Unread() + stream)
    }

    constructor (stream: seq<Byte>, interrupts: nat, failures: nat)
      ensures Valid() && this.stream == stream && total == stream && packets == [] && buffer == null
      ensures this.failures == failures
    {
      this.stream := stream;
      this.interrupts, this.failures := interrupts, failures;
      total := stream;
      packets := [];
      buffer := null;
      bufRead, bufWrite := 0, 0;
      new;
      hide Parse;
      assert Unread() + stream == stream;
      assert Frames(packets) == [];
    }

    /** The socket: it fills some of the `room` offered, is interrupted, or fails. */
    method Receive(room: nat) returns (got: int)
      requires room > 0 && buffer != null && bufWrite + room <= buffer.Length
      modifies this`stream, this`interrupts, this`failures, buffer
      ensures -1 <= got <= room && failures <= old(failures)
      ensures got == -1 ==> failures < old(failures) || stream == []
      ensures got == -1 ==> stream == old(stream) && interrupts == old(interrupts) && buffer[..] == old(buffer[..])
      ensures got == 0 ==> stream == old(stream) && interrupts < old(interrupts) && buffer[..] == old(buffer[..])
      ensures got > 0 ==> got <= |old(stream)| && stream == old(stream)[got..] && interrupts == old(interrupts)
      ensures got > 0 ==> buffer[bufWrite..bufWrite + got] == old(stream)[..got]
      ensures forall i :: 0 <= i < buffer.Length && !(bufWrite <= i < bufWrite + got) ==> buffer[i] == old(buffer[i])
    {
      var choice: int := *;
      if choice == 0 && interrupts > 0 {
        interrupts := interrupts - 1;
        return 0;
      }
      if choice == 1 && failures > 0 {
        failures := failures - 1;
        return -1;
      }
      if stream == [] {
        return -1;
      }
      got := *;
      if !(1 <= got <= room && got <= |stream|) {
        got := 1;
      }
      forall i | 0 <= i < got {
        buffer[bufWrite + i] := stream[i];
      }
      stream := stream[got..];
    }

    /** Receive into the free part of the buffer; packets handed out before are out of reach. */
    method Fill() returns (got: int)
      requires BufferValid() && Intact() && buffer != null && bufWrite < RT_BUF_SIZE
      modifies this`stream, this`interrupts, this`failures, buffer
      ensures BufferValid() && Intact() && -1 <= got <= RT_BUF_SIZE - bufWrite
      ensures failures <= old(failures) && (got == -1 ==> failures < old(failures) || stream == [])
      ensures got == -1 ==> stream == old(stream) && interrupts == old(interrupts)
      ensures got == 0 ==> stream == old(stream) && interrupts < old(interrupts)
      ensures got > 0 ==> got <= |old(stream)| && stream == old(stream)[got..] && interrupts == old(interrupts)
      ensures got > 0 ==> buffer[bufWrite..bufWrite + got] == old(stream)[..got]
      ensures Unread() == old(Unread())
    {
      got := Receive(RT_BUF_SIZE - bufWrite);
      forall p | p in packets ensures Unharmed(p) {
        assert old(Unharmed(p));
        assert p.buffer[p.offset..p.offset + |p.bytes|] == old(p.buffer[p.offset..p.offset + |p.bytes|]);
      }
      assert buffer[bufRead..bufWrite] == old(buffer[bufRead..bufWrite]);
    }

    /** Make sure there is a buffer with plenty of space, moving unread bytes to a new one if needed. */
    method MakeRoom()
      requires Valid() && |Unread()| < HEADER + 65536
      modifies this`buffer, this`bufRead, this`bufWrite
      ensures Valid() && Unread() == old(Unread()) && buffer != null && bufWrite < RT_BUF_SIZE
      ensures buffer == old(buffer) || fresh(buffer)
    {
      if buffer == null {
        buffer := new Byte[RT_BUF_SIZE];
        bufRead, bufWrite := 0, 0;
      }
      if bufWrite > RT_BUF_SIZE / 2 {
        var moved := Move(buffer, bufRead, bufWrite);
        bufWrite := bufWrite - bufRead;
        bufRead := 0;
        buffer := moved;
      }
    }

    /** rt_read: receive once; false when the connection failed or had nothing to offer. */
    method Read() returns (ok: bool)
      requires Valid() && |Unread()| < HEADER + 65536
      modifies this`buffer, this`bufRead, this`bufWrite, this`stream, this`interrupts, this`failures, buffer
      ensures Valid() && Unread() + stream == old(Unread() + stream)
      ensures failures <= old(failures) && (!ok ==> failures < old(failures) || stream == [])
      ensures |stream| <= |old(stream)| && interrupts <= old(interrupts)
      ensures ok ==> |stream| + interrupts < |old(stream)| + old(interrupts)
      ensures !ok ==> Unread() == old(Unread()) && stream == old(stream)
      ensures buffer == old(buffer) || fresh(buffer)
    {
      hide Accounted, Frames, Intact;
      MakeRoom();
      ghost var held, coming := Unread(), stream;
      var got := Fill();
      if got <= 0 {
        return got == 0;
      }
      Extend(got, held, coming);
      ok := true;
    }

    /** Move the write position past what was received. */
    method Extend(got: nat, ghost held: seq<Byte>, ghost coming: seq<Byte>)
      requires BufferValid() && Intact() && buffer != null && bufWrite + got <= RT_BUF_SIZE && got <= |coming|
      requires Unread() == held && stream == coming[got..] && buffer[bufWrite..bufWrite + got] == coming[..got]
      requires Accounted(total, Frames(packets), held + coming)
      modifies this`bufWrite
      ensures Valid() && Unread() + stream == held + coming
    {
      hide Accounted, Frames, Intact;
      assert buffer[bufRead..bufWrite + got] == buffer[bufRead..bufWrite] + buffer[bufWrite..bufWrite + got];
      Received(held, coming, got);
      bufWrite := bufWrite + got;
    }

    /** The payload length in the header at the read position. */
    function HeaderLength(): (n: nat)
      requires buffer != null && bufRead + HEADER <= bufWrite <= buffer.Length
      reads this, buffer
      ensures n == PayloadLength(buffer[bufRead..bufWrite])
    {
      Join(buffer[bufRead + 6], buffer[bufRead + 7])
    }

    function HeaderType(): (t: nat)
      requires buffer != null && bufRead + HEADER <= bufWrite <= buffer.Length
      reads this, buffer
      ensures t == PacketType(buffer[bufRead..bufWrite])
    {
      Number32(buffer[bufRead], buffer[bufRead + 1], buffer[bufRead + 2], buffer[bufRead + 3])
    }

    /** Point a packet at the complete frame in front and move past it. */
    method HandOut() returns (outcome: Outcome)
      requires Valid() && Complete(Unread())
      modifies this`packets, this`bufRead
      ensures Valid() && |packets| == |old(packets)| + 1 && packets[..|old(packets)|] == old(packets)
      ensures !outcome.Failed? && Answers(outcome, packets[|packets| - 1].bytes)
    {
      hide Accounted, PacketType, PayloadLength, Frames, Intact, Complete, FrameSize, Answers, KnownType;
      ghost var held := Unread();
      HeaderThere(held);
      var length, t := HeaderLength(), HeaderType();
      FrameAnswers(held, length, t);
      HandedOn(total, Frames(packets), held, stream);
      FramesAppend(packets, Packet(buffer, bufRead, held[..HEADER + length]));
      Advance(HEADER + length);
      outcome := Sort(t, length);
    }

    /** What to do with a packet of type `t`: data and the messages a server may send are handed on. */
    method Sort(t: nat, length: nat) returns (outcome: Outcome)
      ensures outcome == if KnownType(t) then Delivered(t, length) else BadType(t)
    {
      if t >= TRACE_RT_DATA_SIMPLE {
        return Delivered(t, length);
      }
      if t == TRACE_RT_DUCK_2_4 || t == TRACE_RT_DUCK_2_5 || t == TRACE_RT_STATUS || t == TRACE_RT_METADATA {
        return Delivered(t, length);
      }
      if t == TRACE_RT_END_DATA || t == TRACE_RT_KEYCHANGE || t == TRACE_RT_LOSTCONN || t == TRACE_RT_CLIENTDROP
         || t == TRACE_RT_SERVERSTART {
        return Delivered(t, length);
      }
      if t == TRACE_RT_PAUSE_ACK || t == TRACE_RT_OPTION {
        return Delivered(t, length);
      }
      return BadType(t);
    }

    /** Hand out the next `size` bytes in place. */
    method Advance(size: nat)
      requires BufferValid() && Intact() && buffer != null && size <= bufWrite - bufRead
      modifies this`packets, this`bufRead
      ensures BufferValid() && Intact()
      ensures Unread() == old(Unread())[size..]
      ensures packets == old(packets) + [Packet(old(buffer), old(bufRead), old(Unread())[..size])]
    {
      var p := Packet(buffer, bufRead, buffer[bufRead..bufRead + size]);
      assert p.bytes == Unread()[..size];
      assert buffer[bufRead + size..bufWrite] == Unread()[size..];
      packets := packets + [p];
      bufRead := bufRead + size;
      assert forall q :: q in packets ==> q == p || q in old(packets);
    }

    /** Read all packets through the buffers they point into. */
    method Look() returns (frames: seq<seq<Byte>>)
      requires Valid()
      ensures frames == Frames(packets)
    {
      hide Accounted;
      frames := [];
      for i := 0 to |packets|
        invariant frames == Frames(packets)[..i]
      {
        var p := packets[i];
        assert Unharmed(p);
        frames := frames + [p.buffer[p.offset..p.offset + |p.bytes|]];
      }
      assert Frames(packets)[..|packets|] == Frames(packets);
    }

    /** rt_get_next_packet: wait for a header, then for its payload, and hand the frame out. */
    method GetNextPacket() returns (outcome: Outcome)
      requires Valid()
      modifies this, buffer
      ensures Valid() && |packets| >= |old(packets)| && packets[..|old(packets)|] == old(packets)
      ensures |stream| <= |old(stream)| && failures <= old(failures)
      ensures outcome.Failed? ==> packets == old(packets) && !Complete(Unread())
      ensures outcome.Failed? ==> failures < old(failures) || stream == []
      ensures !outcome.Failed? ==> |packets| == |old(packets)| + 1 && Answers(outcome, packets[|packets| - 1].bytes)
      ensures buffer == old(buffer) || fresh(buffer)
    {
      hide Accounted, PayloadLength, PacketType, KnownType, Intact, Frames, Answers;
      var ok := AwaitHeader();
      if ok {
        ok := AwaitPayload();
      }
      if !ok {
        return Failed;
      }
      outcome := HandOut();
    }

    /** Read until a header is buffered. */
    method AwaitHeader() returns (ok: bool)
      requires Valid()
      modifies this`buffer, this`bufRead, this`bufWrite, this`stream, this`interrupts, this`failures, buffer
      ensures Valid() && |stream| <= |old(stream)| && (buffer == old(buffer) || fresh(buffer))
      ensures failures <= old(failures) && (!ok ==> failures < old(failures) || stream == [])
      ensures if ok then |Unread()| >= HEADER else !Complete(Unread())
    {
      hide Accounted, PayloadLength, Intact, Frames;
      while bufWrite - bufRead < HEADER
        invariant Valid() && (buffer == old(buffer) || fresh(buffer))
        invariant |stream| <= |old(stream)| && failures <= old(failures)
        decreases |stream| + interrupts
      {
        ok := Read();
        if !ok {
          return;
        }
      }
      ok := true;
    }

    /** Read until the payload is buffered too. */
    method AwaitPayload() returns (ok: bool)
      requires Valid() && |Unread()| >= HEADER
      modifies this`buffer, this`bufRead, this`bufWrite, this`stream, this`interrupts, this`failures, buffer
      ensures Valid() && |stream| <= |old(stream)| && (buffer == old(buffer) || fresh(buffer))
      ensures failures <= old(failures) && (!ok ==> failures < old(failures) || stream == [])
      ensures ok <==> Complete(Unread())
    {
      hide Accounted, PayloadLength, Intact, Frames;
      while bufWrite - bufRead - HEADER < HeaderLength()
        invariant Valid() && (buffer == old(buffer) || fresh(buffer))
        invariant |stream| <= |old(stream)| && failures <= old(failures)
        invariant bufWrite - bufRead >= HEADER
        decreases |stream| + interrupts
      {
        ok := Read();
        if !ok {
          return;
        }
      }
      ok := true;
    }
  }

  lemma FrameOfFrame(s: seq<Byte>)
    requires Complete(s)
    ensures var f := s[..FrameSize(s)];
            && Complete(f) && FrameSize(f) == |f|
            && PacketType(f) == PacketType(s) && PayloadLength(f) == PayloadLength(s)
  {
  }

  lemma ParseHead(s: seq<Byte>, more: seq<Byte>)
    requires Complete(s)
    ensures Parse(s + more) == [s[..FrameSize(s)]] + Parse(s[FrameSize(s)..] + more)
  {
    FrameStands(s, more);
  }

  /** A new buffer that starts with the bytes of `src` from `from` to `to`. */
  method Move(src: array<Byte>, from: nat, to: nat) returns (dst: array<Byte>)
    requires from <= to <= src.Length && to - from <= RT_BUF_SIZE
    ensures fresh(dst) && dst.Length == RT_BUF_SIZE && dst[0..to - from] == src[from..to]
  {
    dst := new Byte[RT_BUF_SIZE];
    forall i | 0 <= i < to - from {
      dst[i] := src[from + i];
    }
  }

  /** A whole session: ask for a packet `calls` times, carrying on after failed calls, and look at all
      packets in the end, through the buffers they point into.  However the socket cut the stream,
      they are the first frames of the stream; they are all of them once the whole stream has arrived
      and a further call finds no frame, and after as many calls as there are frames and failing calls,
      and one more. */
  method Session(stream: seq<Byte>, interrupts: nat, failures: nat, calls: nat)
    returns (frames: seq<seq<Byte>>, missing: nat, dry: bool)
    ensures frames <= Parse(stream)
    ensures missing == 0 && dry ==> frames == Parse(stream)
    ensures calls > |Parse(stream)| + failures ==> frames == Parse(stream)
  {
    hide Parse, Complete, Accounted, Frames, Client.Intact;
    var c := new Client(stream, interrupts, failures);
    dry := false;
    SessionCount(stream, c.packets, c.Unread(), c.stream);
    for i := 0 to calls
      invariant c.Valid() && fresh(c) && (c.buffer != null ==> fresh(c.buffer)) && c.total == stream
      invariant dry ==> !Complete(c.Unread())
      invariant |c.packets| <= |Parse(stream)| && c.failures <= failures
      invariant |c.packets| == |Parse(stream)| || i <= |c.packets| + (failures - c.failures)
    {
      var outcome := c.GetNextPacket();
      dry := outcome.Failed?;
      SessionCount(stream, c.packets, c.Unread(), c.stream);
    }
    missing := |c.stream|;
    SessionCount(stream, c.packets, c.Unread(), c.stream);
    frames := c.Look();
    WholeLength(frames, Parse(stream));
  }

  lemma WholeLength(frames: seq<seq<Byte>>, all: seq<seq<Byte>>)
    requires frames <= all
    ensures |frames| == |all| ==> frames == all
  {
  }

  /** The packets handed out are the first frames, and all if what remains has none. */
  lemma SessionCount(stream: seq<Byte>, packets: seq<Packet>, held: seq<Byte>, coming: seq<Byte>)
    requires Accounted(stream, Frames(packets), held + coming)
    ensures |packets| <= |Parse(stream)| && Frames(packets) <= Parse(stream)
    ensures coming == [] && !Complete(held) ==> |packets| == |Parse(stream)|
  {
    hide Parse, Complete;
    if coming == [] && !Complete(held) {
      assert held + coming == held;
      NothingToParse(held);
    }
  }

  lemma NothingToParse(s: seq<Byte>)
    requires !Complete(s)
    ensures Parse(s) == []
  {
  }
}
