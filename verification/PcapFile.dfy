/** Writing and reading pcap files. */
module PcapFile {
  import opened Bytes
  import opened PcapFields
  import opened LinkTypes

  const BUFSIZE: nat := 0x10000
  const MAGIC_MICRO: nat := 0xa1b2c3d4
  const MAGIC_NANO: nat := 0xa1b23c4d
  const FILE_HEADER: nat := 24
  const RECORD_HEADER: nat := 16

  datatype Packet = Packet(link: LinkType, sec: nat, usec: nat, wire: nat, payload: seq<Byte>)

  // ----- The format -----

  /** A record of the file: the fields of its header, and its body. */
  datatype Record = Record(sec: nat, part: nat, wirelen: nat, body: seq<Byte>)

  predicate Sized(r: Record) {
    r.sec < WORD32 && r.part < WORD32 && r.wirelen < WORD32 && |r.body| < BUFSIZE
  }

  /** Header and body of a record go into one packet buffer. */
  predicate Fitting(r: Record) {
    RECORD_HEADER + |r.body| <= BUFSIZE
  }

  /** How many records come before the first one that does not fit. */
  function Leading(rs: seq<Record>): (k: nat)
    ensures k <= |rs| && (forall i :: 0 <= i < k ==> Fitting(rs[i])) && (k < |rs| ==> !Fitting(rs[k]))
  {
    if rs == [] || !Fitting(rs[0]) then 0 else 1 + Leading(rs[1..])
  }

  function Versioned(o: Order, nano: bool, major: nat, minor: nat, network: nat): (b: seq<Byte>)
    ensures |b| == FILE_HEADER
  {
    Field32(o, if nano then MAGIC_NANO else MAGIC_MICRO) + Field16(o, major) + Field16(o, minor)
    + Field32(o, 0) + Field32(o, 0) + Field32(o, 65536) + Field32(o, network)
  }

  function FileHeader(o: Order, nano: bool, network: nat): (b: seq<Byte>)
    ensures |b| == FILE_HEADER
  {
    Versioned(o, nano, 2, 4, network)
  }

  function RecordHeader(o: Order, r: Record): (b: seq<Byte>)
    ensures |b| == RECORD_HEADER
  {
    Field32(o, r.sec) + Field32(o, r.part) + Field32(o, |r.body|) + Field32(o, r.wirelen)
  }

  function Records(o: Order, rs: seq<Record>): seq<Byte>
    decreases |rs|
  {
    if rs == [] then [] else RecordHeader(o, rs[0]) + rs[0].body + Records(o, rs[1..])
  }

  /** A whole file.  The big-endian one is the little-endian one with every header field reversed. */
  function File(o: Order, nano: bool, network: nat, rs: seq<Record>): seq<Byte> {
    FileHeader(o, nano, network) + Records(o, rs)
  }

  // ----- Reading -----

  datatype Info = Info(backwards: bool, nano: bool, network: nat)

  datatype Started = Started(info: Info) | NoHeader | Incomplete | NotPcap | UnknownVersion

  function Swapl(info: Info, n: nat): nat {
    if info.backwards then Swap32(n) else n
  }

  predicate Backwards(magic: nat) {
    magic == 0xd4c3b2a1 || magic == 0x4d3cb2a1
  }

  predicate Magic(magic: nat) {
    magic == MAGIC_MICRO || magic == MAGIC_NANO || Backwards(magic)
  }

  predicate Nanoseconds(magic: nat) {
    magic == MAGIC_NANO || magic == 0x4d3cb2a1
  }

  /** pcapfile_start_input; a version is refused only if both its numbers are wrong. */
  function Start(file: seq<Byte>): Started {
    if |file| == 0 then NoHeader
    else if |file| < FILE_HEADER then Incomplete
    else
      var magic := Read32(file, 0);
      var back := Backwards(magic);
      if !Magic(magic) then NotPcap
      else if HostOrder16(back, LittleEndian16(file, 4)) != 2 && HostOrder16(back, LittleEndian16(file, 6)) != 4 then
        UnknownVersion
      else Started(Info(back, Nanoseconds(magic), if back then Swap32(Read32(file, 20)) else Read32(file, 20)))
  }

  function HostOrder16(back: bool, n: nat): nat {
    if back then Swap16(n) else n
  }

  /** `PastBuffer` is a read that would write beyond the packet buffer; what happens then is not
      defined. */
  datatype Step = EndOfFile | Corrupt | PastBuffer | Got(packet: Packet, size: nat)

  /** The packet that a record stands for: link type, time in microseconds, and wire length including
      the frame check sequence that pcap leaves out for Ethernet. */
  function PacketOf(info: Info, r: Record): Packet {
    Packet(FromPcap(FromRt(ToRt(info.network))), r.sec, if info.nano then r.part / 1000 else r.part,
           r.wirelen + (if ToRt(info.network) == ToRt(DLT_EN10MB) then 4 else 0), r.body)
  }

  /** pcapfile_read_packet on the rest of a file. */
  function Next(info: Info, rest: seq<Byte>): (s: Step)
    ensures s.Got? ==> 0 < s.size <= |rest|
  {
    if |rest| == 0 then EndOfFile
    else if |rest| < RECORD_HEADER then Corrupt
    else
      var caplen := Swapl(info, Read32(rest, 8));
      if caplen >= BUFSIZE then Corrupt
      else if RECORD_HEADER + caplen > BUFSIZE && |rest| > BUFSIZE then PastBuffer
      else if 0 < caplen && |rest| == RECORD_HEADER then EndOfFile
      else if |rest| < RECORD_HEADER + caplen then Corrupt
      else
        Got(PacketOf(info, Record(Swapl(info, Read32(rest, 0)), Swapl(info, Read32(rest, 4)),
                                  Swapl(info, Read32(rest, 12)), rest[RECORD_HEADER..RECORD_HEADER + caplen])),
            RECORD_HEADER + caplen)
  }

  /** All packets up to the end of the file, or up to a corrupt record. */
  function ReadAll(info: Info, rest: seq<Byte>): (seq<Packet>, Step)
    decreases |rest|
  {
    var s := Next(info, rest);
    if !s.Got? then ([], s)
    else
      var (packets, end) := ReadAll(info, rest[s.size..]);
      ([s.packet] + packets, end)
  }

  function PacketsOf(info: Info, rs: seq<Record>): (ps: seq<Packet>)
    ensures |ps| == |rs| && forall i :: 0 <= i < |rs| ==> ps[i] == PacketOf(info, rs[i])
  {
    seq(|rs|, i requires 0 <= i < |rs| => PacketOf(info, rs[i]))
  }

  // ----- What was written is read -----

  lemma Slice(m: seq<Byte>, a: seq<Byte>, b: seq<Byte>, c: seq<Byte>)
    requires m == a + b + c
    ensures m[|a|..|a| + |b|] == b
  {
  }

  /** Both byte orders and both time resolutions are recognised.  A version other than 2.4 is refused
      exactly if both its numbers differ. */
  lemma StartReads(o: Order, nano: bool, major: nat, minor: nat, network: nat, rest: seq<Byte>)
    requires network < WORD32 && major < 0x10000 && minor < 0x10000
    ensures Start(Versioned(o, nano, major, minor, network) + rest) ==
            if major != 2 && minor != 4 then UnknownVersion else Started(Info(o == Big, nano, network))
  {
    hide Field32, Field16, Read32, Swap32, Swap16, LittleEndian16;
    var magic := if nano then MAGIC_NANO else MAGIC_MICRO;
    var m := Versioned(o, nano, major, minor, network) + rest;
    assert m[0..4] == Field32(o, magic);
    assert m[4..6] == Field16(o, major);
    assert m[6..8] == Field16(o, minor);
    assert m[20..24] == Field32(o, network);
    FieldReads(o, magic, m, 0);
    Field16Reads(o, major, m, 4);
    Field16Reads(o, minor, m, 6);
    FieldReads(o, network, m, 20);
    MagicReads(o, nano, m);
  }

  /** The magic number tells the byte order. */
  lemma MagicReads(o: Order, nano: bool, m: seq<Byte>)
    requires |m| >= 4 && m[0..4] == Field32(o, if nano then MAGIC_NANO else MAGIC_MICRO)
    ensures var magic := Read32(m, 0); Magic(magic) && Backwards(magic) == (o == Big) && Nanoseconds(magic) == nano
  {
    hide Field32, Read32, Swap32;
    var magic := if nano then MAGIC_NANO else MAGIC_MICRO;
    FieldReads(o, magic, m, 0);
    MagicSwapped();
    ReadSwaps(m, 0);
  }

  lemma MagicSwapped()
    ensures Swap32(MAGIC_MICRO) == 0xd4c3b2a1 && Swap32(MAGIC_NANO) == 0x4d3cb2a1
  {
    QuadParts(0xd4, 0xc3, 0xb2, 0xa1);
    QuadParts(0x4d, 0x3c, 0xb2, 0xa1);
  }

  lemma ReadSwaps(m: seq<Byte>, at: nat)
    ensures Swap32(Swap32(Read32(m, at))) == Read32(m, at)
  {
    QuadParts(At(m, at), At(m, at + 1), At(m, at + 2), At(m, at + 3));
    SwapTwice(Read32(m, at));
  }

  /** A record is read exactly if it fits the buffer with its header, which the test of its length
      does not take into account. */
  lemma NextReads(o: Order, info: Info, r: Record, rest: seq<Byte>)
    requires Sized(r) && info.backwards == (o == Big)
    ensures Next(info, RecordHeader(o, r) + r.body + rest) ==
            if Fitting(r) then Got(PacketOf(info, r), RECORD_HEADER + |r.body|) else PastBuffer
  {
    hide Field32, Read32, Swap32, PacketOf;
    var m := RecordHeader(o, r) + r.body + rest;
    assert m[0..4] == Field32(o, r.sec);
    assert m[4..8] == Field32(o, r.part);
    assert m[8..12] == Field32(o, |r.body|);
    assert m[12..16] == Field32(o, r.wirelen);
    FieldReads(o, r.sec, m, 0);
    FieldReads(o, r.part, m, 4);
    FieldReads(o, |r.body|, m, 8);
    FieldReads(o, r.wirelen, m, 12);
    Slice(m, RecordHeader(o, r), r.body, rest);
  }

  /** The shortest body that does not fit. */
  lemma JustTooLong(o: Order, info: Info, r: Record, rest: seq<Byte>)
    requires Sized(r) && info.backwards == (o == Big) && |r.body| == 65521
    ensures Next(info, RecordHeader(o, r) + r.body + rest) == PastBuffer
  {
    hide Next, RecordHeader;
    NextReads(o, info, r, rest);
  }

  /** A file that ends within a record: nothing of it and a header without a body pass for the end of the
      file, anything else is corrupt, unless it is too long for the buffer already. */
  lemma CutRecord(o: Order, info: Info, r: Record, n: nat)
    requires Sized(r) && info.backwards == (o == Big) && n < RECORD_HEADER + |r.body|
    ensures Next(info, (RecordHeader(o, r) + r.body)[..n]) ==
            if n == 0 || n == 16 then EndOfFile else if n <= 65536 then Corrupt else PastBuffer
  {
    hide Field32, Read32, Swap32, PacketOf;
    var m := (RecordHeader(o, r) + r.body)[..n];
    if n >= RECORD_HEADER {
      assert m[8..12] == Field32(o, |r.body|);
      FieldReads(o, |r.body|, m, 8);
    }
  }

  /** A captured length of 65536 or more is corrupt, whatever follows. */
  lemma OversizedRecord(o: Order, info: Info, sec: nat, part: nat, caplen: nat, wirelen: nat, rest: seq<Byte>)
    requires info.backwards == (o == Big) && 65536 <= caplen < WORD32
    ensures Next(info, Field32(o, sec) + Field32(o, part) + Field32(o, caplen) + Field32(o, wirelen) + rest) == Corrupt
  {
    hide Field32, Read32, Swap32, PacketOf;
    var m := Field32(o, sec) + Field32(o, part) + Field32(o, caplen) + Field32(o, wirelen) + rest;
    assert m[8..12] == Field32(o, caplen);
    FieldReads(o, caplen, m, 8);
  }

  /** How reading a file that was written whole ends. */
  function Ending(rs: seq<Record>): Step {
    if Leading(rs) == |rs| then EndOfFile else PastBuffer
  }

  lemma {:induction false} ReadAllReads(o: Order, info: Info, rs: seq<Record>)
    requires info.backwards == (o == Big) && forall r :: r in rs ==> Sized(r)
    ensures ReadAll(info, Records(o, rs)) == (PacketsOf(info, rs[..Leading(rs)]), Ending(rs))
    decreases |rs|
  {
    hide Next, PacketOf, RecordHeader, Fitting;
    if rs == [] {
      NothingLeft(info);
    } else {
      var r, rest := rs[0], Records(o, rs[1..]);
      NextReads(o, info, r, rest);
      if Fitting(r) {
        assert (RecordHeader(o, r) + r.body + rest)[RECORD_HEADER + |r.body|..] == rest;
        ReadAllReads(o, info, rs[1..]);
        assert rs[..Leading(rs)] == [r] + rs[1..][..Leading(rs[1..])];
        PacketsOfFirst(info, r, rs[1..][..Leading(rs[1..])]);
      }
    }
  }

  lemma NothingLeft(info: Info)
    ensures Next(info, []) == EndOfFile
  {
  }

  lemma PacketsOfFirst(info: Info, r: Record, rs: seq<Record>)
    ensures PacketsOf(info, [r] + rs) == [PacketOf(info, r)] + PacketsOf(info, rs)
  {
  }

  /** A file reads back as its records, up to the first that does not fit the buffer, whichever byte
      order it was written in. */
  lemma FileReads(o: Order, nano: bool, network: nat, rs: seq<Record>)
    requires network < WORD32 && forall r :: r in rs ==> Sized(r)
    ensures var file, info := File(o, nano, network, rs), Info(o == Big, nano, network);
            && Start(file) == Started(info)
            && ReadAll(info, file[FILE_HEADER..]) == (PacketsOf(info, rs[..Leading(rs)]), Ending(rs))
  {
    hide Start, ReadAll, Records, Versioned, Leading, Ending;
    var info := Info(o == Big, nano, network);
    StartReads(o, nano, 2, 4, network, Records(o, rs));
    ReadAllReads(o, info, rs);
    assert File(o, nano, network, rs)[FILE_HEADER..] == Records(o, rs);
  }

  lemma OrderDoesNotShow(nano: bool, network: nat, rs: seq<Record>)
    ensures PacketsOf(Info(true, nano, network), rs) == PacketsOf(Info(false, nano, network), rs)
  {
  }

  /** Times of a nanosecond file are rounded down to microseconds. */
  lemma NanosecondsRoundDown(info: Info, r: Record)
    ensures var p := PacketOf(info, r);
            p.sec == r.sec && if info.nano then 1000 * p.usec <= r.part < 1000 * p.usec + 1000 else p.usec == r.part
  {
  }

  // ----- Writing -----

  /** The wire length without the frame check sequence, as pcap wants it. */
  function WireLength(p: Packet): nat {
    if p.link != Eth then p.wire else if p.wire >= 4 then p.wire - 4 else 0
  }

  /** What is written of a packet: no more of it than its wire length. */
  function Written(p: Packet): (r: Record)
    ensures |r.body| <= |p.payload|
  {
    var wirelen := WireLength(p);
    Record(p.sec % WORD32, p.usec % WORD32, wirelen, if |p.payload| > wirelen then p.payload[..wirelen] else p.payload)
  }

  predicate Writable(p: Packet) {
    |p.payload| < BUFSIZE && p.wire < BUFSIZE
  }

  function AllWritten(ps: seq<Packet>): (rs: seq<Record>)
    ensures |rs| == |ps| && forall i :: 0 <= i < |ps| ==> rs[i] == Written(ps[i])
  {
    seq(|ps|, i requires 0 <= i < |ps| => Written(ps[i]))
  }

  /** What comes back of a packet. */
  function Clipped(p: Packet): Packet {
    var r := Written(p);
    Packet(p.link, r.sec, r.part, r.wirelen + (if p.link == Eth then 4 else 0), r.body)
  }

  /** `q` is what a pcap file keeps of `p`: link type, time in 32 bits each, the wire length, of Ethernet at
      least the 4 bytes of the frame check sequence, and the payload from its start, as far as the wire
      length without these goes. */
  predicate Keeps(p: Packet, q: Packet) {
    var room: int := if p.link == Eth then p.wire - 4 else p.wire;
    && q.link == p.link && q.sec == p.sec % 0x1_0000_0000 && q.usec == p.usec % 0x1_0000_0000
    && (if room < 0 then q.wire == 4 && q.payload == []
        else q.wire == p.wire && q.payload <= p.payload
             && |q.payload| == if |p.payload| < room then |p.payload| else room)
  }

  lemma ClippedKeeps(p: Packet)
    ensures Keeps(p, Clipped(p))
  {
  }

  /** A packet comes back unchanged exactly if its capture fits its wire length, without the frame
      check sequence for Ethernet, and its time fits 32 bits. */
  lemma UnchangedExactly(p: Packet)
    ensures Clipped(p) == p <==>
            && p.sec < WORD32 && p.usec < WORD32
            && |p.payload| + (if p.link == Eth then 4 else 0) <= p.wire
  {
  }

  /** Clipping is final: what comes back is written as before. */
  lemma WrittenAgain(p: Packet)
    ensures Written(Clipped(p)) == Written(p) && Clipped(Clipped(p)) == Clipped(p)
  {
  }

  lemma ClippedIs(p: Packet)
    requires Representable(p.link) && Writable(p)
    ensures Sized(Written(p)) && PacketOf(Info(false, false, ToPcap(p.link)), Written(p)) == Clipped(p)
  {
    LinkRoundTrip(p.link);
  }

  class Output {
    var file: seq<Byte>
    var isOpen: bool
    ghost var network: nat
    ghost var records: seq<Record>

    constructor ()
      ensures Valid() && !isOpen && records == []
    {
      file, isOpen := [], false;
      network, records := 0, [];
    }

    /** The file holds what has been written, behind the header for the first packet's link type. */
    ghost predicate Valid()
      reads this
    {
      && (!isOpen ==> file == [] && records == [])
      && (isOpen ==> file == File(Little, false, network, records))
    }

    /** pcapfile_write_packet */
    method WritePacket(p: Packet) returns (n: nat)
      requires Valid() && Writable(p) && (Representable(p.link) || p.link == NonData || p.link == Unknown)
      modifies this
      ensures Valid()
      ensures !Representable(p.link) ==> n == 0 && unchanged(this)
      ensures Representable(p.link) ==>
                && isOpen && n == RECORD_HEADER + |Written(p).body|
                && network == (if old(isOpen) then old(network) else ToPcap(p.link))
                && records == old(records) + [Written(p)]
    {
      if p.link == NonData || p.link == Unknown {
        return 0;
      }
      LinkRoundTrip(p.link);
      if !isOpen {
        WriteFileHeader(ToPcap(p.link));
      }
      n := WriteRecord(p);
    }

    method WriteFileHeader(link: nat)
      requires Valid() && !isOpen
      modifies this
      ensures Valid() && isOpen && network == link && records == []
    {
      isOpen := true;
      file := Field32(Little, 0xa1b2c3d4) + Field16(Little, 2) + Field16(Little, 4)
        + Field32(Little, 0) + Field32(Little, 0) + Field32(Little, 65536) + Field32(Little, link);
      network, records := link, [];
      NoRecords(file, network);
    }

    method WriteRecord(p: Packet) returns (n: nat)
      requires Valid() && isOpen
      modifies this`file, this`records
      ensures Valid() && records == old(records) + [Written(p)] && n == RECORD_HEADER + |Written(p).body|
    {
      hide Field32, File;
      var caplen := |p.payload|;
      var wirelen;
      if p.link == Eth {
        if p.wire >= 4 {
          wirelen := p.wire - 4;
        } else {
          wirelen := 0;
        }
      } else {
        wirelen := p.wire;
      }
      if caplen > wirelen {
        caplen := wirelen;
      }
      var header := Field32(Little, p.sec % WORD32) + Field32(Little, p.usec % WORD32)
        + Field32(Little, caplen) + Field32(Little, wirelen);
      var body := p.payload[..caplen];
      assert body == Written(p).body;
      FileGrows(network, records, Written(p));
      file := file + header + body;
      records := records + [Written(p)];
      n := |header| + |body|;
    }
  }

  lemma NoRecords(b: seq<Byte>, network: nat)
    requires b == FileHeader(Little, false, network)
    ensures b == File(Little, false, network, [])
  {
  }

  lemma {:induction false} RecordsGrow(o: Order, rs: seq<Record>, r: Record)
    ensures Records(o, rs + [r]) == Records(o, rs) + RecordHeader(o, r) + r.body
    decreases |rs|
  {
    if rs == [] {
      assert rs + [r] == [r];
      assert Records(o, [r][1..]) == [];
    } else {
      hide RecordHeader;
      assert (rs + [r])[1..] == rs[1..] + [r];
      RecordsGrow(o, rs[1..], r);
    }
  }

  lemma FileGrows(network: nat, rs: seq<Record>, r: Record)
    ensures File(Little, false, network, rs + [r]) == File(Little, false, network, rs) + RecordHeader(Little, r) + r.body
  {
    RecordsGrow(Little, rs, r);
  }

  class Input {
    const file: seq<Byte>
    const buffer: array<Byte>
    var at: nat
    var info: Info
    var started: bool

    constructor (file: seq<Byte>)
      ensures this.file == file && !started && at == 0 && buffer.Length == BUFSIZE && fresh(buffer)
    {
      this.file, at, started, info := file, 0, false, Info(false, false, 0);
      buffer := new Byte[BUFSIZE];
    }

    /** pcapfile_start_input, the first time. */
    method StartInput() returns (s: Started)
      requires !started && at == 0
      modifies this
      ensures started && s == Start(file)
      ensures s.Started? ==> info == s.info && at == FILE_HEADER <= |file|
    {
      hide Read32, LittleEndian16, Swap16, Swap32;
      var b := Read(FILE_HEADER);
      started := true;
      if |b| < 1 {
        return NoHeader;
      }
      if |b| != FILE_HEADER {
        return Incomplete;
      }
      HeaderSame(b, file);
      var magic, major, minor := Read32(b, 0), LittleEndian16(b, 4), LittleEndian16(b, 6);
      info := Info(Backwards(magic), Nanoseconds(magic), 0);
      if !(magic == MAGIC_MICRO || magic == MAGIC_NANO || Backwards(magic)) {
        return NotPcap;
      }
      if info.backwards {
        major, minor := Swap16(major), Swap16(minor);
      }
      if major != 2 && minor != 4 {
        return UnknownVersion;
      }
      info := info.(network := Swapl(info, Read32(b, 20)));
      return Started(info);
    }

    /** Read up to `n` bytes. */
    method Read(n: nat) returns (b: seq<Byte>)
      requires at <= |file|
      modifies this`at
      ensures at <= |file| && at == old(at) + |b| && b == file[old(at)..at]
      ensures |b| == if n <= |file| - old(at) then n else |file| - old(at)
    {
      var m := if n <= |file| - at then n else |file| - at;
      b := file[at..at + m];
      at := at + m;
    }

    /** Read up to `n` bytes into the packet buffer at `offset`. */
    method ReadInto(offset: nat, n: nat) returns (got: nat)
      requires at <= |file| && offset + (if n <= |file| - at then n else |file| - at) <= buffer.Length
      modifies this`at, buffer
      ensures at <= |file| && at == old(at) + got
      ensures got == if n <= |file| - old(at) then n else |file| - old(at)
      ensures offset + got <= buffer.Length && buffer[offset..offset + got] == file[old(at)..at]
      ensures buffer[..offset] == old(buffer[..offset])
    {
      var b := Read(n);
      got := |b|;
      forall i | 0 <= i < got {
        buffer[offset + i] := b[i];
      }
    }

    /** pcapfile_read_packet */
    method ReadPacket() returns (s: Step)
      requires started && at <= |file| && buffer.Length == BUFSIZE
      modifies this`at, buffer
      ensures s == Next(info, file[old(at)..])
      ensures at <= |file| && (s.Got? ==> at == old(at) + s.size && s.packet.payload == buffer[RECORD_HEADER..s.size])
    {
      hide Read32, Swapl, PacketOf;
      ghost var rest := file[at..];
      var got := ReadInto(0, RECORD_HEADER);
      if got == 0 {
        return EndOfFile;
      }
      if got < RECORD_HEADER {
        return Corrupt;
      }
      var header := buffer[..RECORD_HEADER];
      assert header == rest[..RECORD_HEADER];
      HeaderOnly(header, rest);
      var caplen := Swapl(info, Read32(header, 8));
      if caplen >= BUFSIZE {
        return Corrupt;
      }
      if RECORD_HEADER + caplen > BUFSIZE && RECORD_HEADER + (|file| - at) > BUFSIZE {
        return PastBuffer;
      }
      if caplen != 0 {
        got := ReadInto(RECORD_HEADER, caplen);
        if got == 0 {
          return EndOfFile;
        }
        if got < caplen {
          return Corrupt;
        }
      }
      var body := buffer[RECORD_HEADER..RECORD_HEADER + caplen];
      assert body == rest[RECORD_HEADER..RECORD_HEADER + caplen];
      s := Got(PacketOf(info, Record(Swapl(info, Read32(header, 0)), Swapl(info, Read32(header, 4)),
                                     Swapl(info, Read32(header, 12)), body)),
               RECORD_HEADER + caplen);
      SameBody(info, s.packet, body);
    }
  }

  lemma SameBody(info: Info, p: Packet, body: seq<Byte>)
    requires exists sec, part, wirelen :: p == PacketOf(info, Record(sec, part, wirelen, body))
    ensures p.payload == body
  {
  }

  lemma HeaderOnly(header: seq<Byte>, rest: seq<Byte>)
    requires |rest| >= RECORD_HEADER && header == rest[..RECORD_HEADER]
    ensures forall i :: 0 <= i <= 12 ==> Read32(header, i) == Read32(rest, i)
  {
  }

  lemma HeaderSame(b: seq<Byte>, file: seq<Byte>)
    requires |file| >= FILE_HEADER && b == file[0..FILE_HEADER]
    ensures Read32(b, 0) == Read32(file, 0) && Read32(b, 20) == Read32(file, 20)
    ensures LittleEndian16(b, 4) == LittleEndian16(file, 4) && LittleEndian16(b, 6) == LittleEndian16(file, 6)
  {
  }

  // ----- Whole files -----

  /** Read a file to its end. */
  method ReadFile(file: seq<Byte>) returns (s: Started, packets: seq<Packet>, end: Step)
    ensures s == Start(file)
    ensures s.Started? ==> |file| >= FILE_HEADER && (packets, end) == ReadAll(s.info, file[FILE_HEADER..])
  {
    hide Start, Next;
    var input := new Input(file);
    s := input.StartInput();
    packets, end := [], EndOfFile;
    if s.Started? {
      ghost var all := ReadAll(s.info, file[FILE_HEADER..]);
      end := input.ReadPacket();
      ghost var from := FILE_HEADER;
      while end.Got?
        invariant FILE_HEADER <= from <= |file| && end == Next(s.info, file[from..])
        invariant fresh(input) && fresh(input.buffer) && input.buffer.Length == BUFSIZE
        invariant input.started && input.info == s.info && input.file == file && input.at <= |file|
        invariant end.Got? ==> input.at == from + end.size
        invariant all.0 == packets + ReadAll(s.info, file[from..]).0 && all.1 == ReadAll(s.info, file[from..]).1
        decreases |file| - from, end.Got?
      {
        assert file[from..][end.size..] == file[input.at..];
        packets := packets + [end.packet];
        from := input.at;
        end := input.ReadPacket();
      }
      assert packets + [] == packets;
    }
  }

  /** Link types whose wire length in the file does not depend on what is in the packet. */
  predicate Plain(link: LinkType) {
    Representable(link) && link != LinuxSll && link != WlanRadio
  }

  /** Packets of one link type that are written to a file and read again come back, clipped, up to the
      first whose record does not fit the packet buffer. */
  method RoundTrip(link: LinkType, ps: seq<Packet>) returns (back: seq<Packet>, end: Step, file: seq<Byte>)
    requires Plain(link)
    requires ps != [] && forall p :: p in ps ==> p.link == link && Writable(p)
    ensures |back| == Leading(AllWritten(ps)) && forall i :: 0 <= i < |back| ==> back[i] == Clipped(ps[i])
    ensures forall i :: 0 <= i < |back| ==> Keeps(ps[i], back[i])
    ensures end == EndOfFile <==> |back| == |ps|
    ensures end == PastBuffer <==> exists p :: p in ps && !Fitting(Written(p))
    ensures file == File(Little, false, ToPcap(link), AllWritten(ps))
  {
    hide Written, Writable, File, Clipped, Start, ReadAll, PacketOf, Leading, Fitting, Keeps;
    LinkRoundTrip(link);
    var out := new Output();
    var i := 0;
    while i < |ps|
      invariant 0 <= i <= |ps| && fresh(out) && out.Valid()
      invariant out.isOpen <==> i > 0
      invariant out.isOpen ==> out.network == ToPcap(link)
      invariant out.records == AllWritten(ps)[..i]
    {
      var _ := out.WritePacket(ps[i]);
      i := i + 1;
    }
    assert AllWritten(ps)[..i] == AllWritten(ps);
    file := out.file;
    AllSized(link, ps);
    FileReads(Little, false, ToPcap(link), AllWritten(ps));
    var s, packets, e := ReadFile(file);
    back, end := packets, e;
    NoneTooLong(ps);
    forall i | 0 <= i < |back| ensures Keeps(ps[i], back[i]) {
      ClippedKeeps(ps[i]);
    }
  }

  lemma NoneTooLong(ps: seq<Packet>)
    ensures Leading(AllWritten(ps)) < |ps| <==> exists p :: p in ps && !Fitting(Written(p))
  {
    var k := Leading(AllWritten(ps));
    if k < |ps| {
      assert ps[k] in ps;
    }
  }

  /** The packets read from the written records, in either byte order, are the clipped ones. */
  lemma AllSized(link: LinkType, ps: seq<Packet>)
    requires Representable(link) && forall p :: p in ps ==> p.link == link && Writable(p)
    ensures ToPcap(link) >= 0
    ensures forall r :: r in AllWritten(ps) ==> Sized(r)
    ensures forall i :: 0 <= i < |ps| ==> PacketOf(Info(false, false, ToPcap(link)), AllWritten(ps)[i]) == Clipped(ps[i])
  {
    LinkRoundTrip(link);
    forall i | 0 <= i < |ps|
      ensures Sized(AllWritten(ps)[i])
      ensures PacketOf(Info(false, false, ToPcap(link)), AllWritten(ps)[i]) == Clipped(ps[i])
    {
      ClippedIs(ps[i]);
    }
  }

  /** The same file with every header field byte-swapped reads back identically. */
  lemma SwappedReadsAlike(link: LinkType, ps: seq<Packet>)
    requires Plain(link) && forall p :: p in ps ==> p.link == link && Writable(p)
    ensures ToPcap(link) >= 0
    ensures var swapped, info := File(Big, false, ToPcap(link), AllWritten(ps)), Info(true, false, ToPcap(link));
            && Start(swapped) == Started(info)
            && var (packets, end) := ReadAll(info, swapped[FILE_HEADER..]);
               && |packets| == Leading(AllWritten(ps)) && end == Ending(AllWritten(ps))
               && forall i :: 0 <= i < |packets| ==> packets[i] == Clipped(ps[i])
  {
    hide Written, Writable, File, Clipped, Start, ReadAll, Leading, Fitting, Ending;
    AllSized(link, ps);
    FileReads(Big, false, ToPcap(link), AllWritten(ps));
    OrderDoesNotShow(false, ToPcap(link), AllWritten(ps)[..Leading(AllWritten(ps))]);
  }
}
