/** Reading bit fields of a packet through a 64-bit buffer.  A machine word is a list of 64 bits, most
    significant first, on which shifts and masks act as they do in hardware. */
module BitReader {
  import opened Bytes

  const WIDTH: nat := 64

  type Bits = seq<bool>

  function Zeros(n: nat): (z: Bits)
    ensures |z| == n && forall i :: 0 <= i < n ==> !z[i]
  {
    seq(n, _ => false)
  }

  // ----- Words -----

  function Or(a: Bits, b: Bits): (r: Bits)
    requires |a| == |b|
    ensures |r| == |a| && forall i :: 0 <= i < |a| ==> r[i] == (a[i] || b[i])
  {
    seq(|a|, i requires 0 <= i < |a| => a[i] || b[i])
  }

  function And(a: Bits, b: Bits): (r: Bits)
    requires |a| == |b|
    ensures |r| == |a| && forall i :: 0 <= i < |a| ==> r[i] == (a[i] && b[i])
  {
    seq(|a|, i requires 0 <= i < |a| => a[i] && b[i])
  }

  function Not(a: Bits): (r: Bits)
    ensures |r| == |a| && forall i :: 0 <= i < |a| ==> r[i] == !a[i]
  {
    seq(|a|, i requires 0 <= i < |a| => !a[i])
  }

  function ShiftLeft(a: Bits, n: nat): (r: Bits)
    requires n <= |a|
    ensures |r| == |a|
  {
    a[n..] + Zeros(n)
  }

  function ShiftRight(a: Bits, n: nat): (r: Bits)
    requires n <= |a|
    ensures |r| == |a|
  {
    Zeros(n) + a[..|a| - n]
  }

  /** The word with the low `n` bits set, 2 to the power of `n` less 1. */
  function LowOnes(n: nat): (r: Bits)
    requires n <= WIDTH
    ensures |r| == WIDTH
  {
    Zeros(WIDTH - n) + Not(Zeros(n))
  }

  /** The number that bits stand for. */
  function Number(b: Bits): nat {
    if b == [] then 0 else 2 * Number(b[..|b| - 1]) + if b[|b| - 1] then 1 else 0
  }

  function Power(n: nat): nat {
    if n == 0 then 1 else 2 * Power(n - 1)
  }

  /** Leading zeros do not count. */
  lemma {:induction false} NumberPadded(n: nat, b: Bits)
    ensures Number(Zeros(n) + b) == Number(b)
    decreases |b|
  {
    if b == [] {
      assert Zeros(n) + b == Zeros(n);
      NumberZeros(n);
    } else {
      assert (Zeros(n) + b)[..n + |b| - 1] == Zeros(n) + b[..|b| - 1];
      NumberPadded(n, b[..|b| - 1]);
    }
  }

  lemma {:induction false} NumberZeros(n: nat)
    ensures Number(Zeros(n)) == 0
  {
    if n > 0 {
      assert Zeros(n)[..n - 1] == Zeros(n - 1);
      NumberZeros(n - 1);
    }
  }

  lemma {:induction false} NumberOnes(n: nat)
    ensures Number(Not(Zeros(n))) == Power(n) - 1
  {
    if n > 0 {
      assert Not(Zeros(n))[..n - 1] == Not(Zeros(n - 1));
      NumberOnes(n - 1);
    }
  }

  /** The mask is the number the code computes for it. */
  lemma LowOnesNumber(n: nat)
    requires n <= WIDTH
    ensures Number(LowOnes(n)) == Power(n) - 1
  {
    hide Zeros, Not, Number;
    NumberPadded(WIDTH - n, Not(Zeros(n)));
    NumberOnes(n);
  }

  // ----- The bits of a packet -----

  /** The low `width` bits of a number. */
  function BitsOf(n: nat, width: nat): (r: Bits)
    ensures |r| == width
  {
    if width == 0 then [] else BitsOf(n / 2, width - 1) + [n % 2 == 1]
  }

  /** Bits of a number stand for it, if they are enough. */
  lemma {:induction false} BitsOfNumber(n: nat, width: nat)
    requires n < Power(width)
    ensures Number(BitsOf(n, width)) == n
    decreases width
  {
    if width > 0 {
      BitsOfNumber(n / 2, width - 1);
      assert BitsOf(n, width)[..width - 1] == BitsOf(n / 2, width - 1);
    }
  }

  function ByteBits(b: Byte): (r: Bits)
    ensures |r| == 8
  {
    BitsOf(b, 8)
  }

  /** A byte as a word. */
  function ByteWord(b: Byte): (r: Bits)
    ensures |r| == WIDTH
  {
    Zeros(56) + ByteBits(b)
  }

  function PacketBits(p: seq<Byte>): (r: Bits)
    ensures |r| == 8 * |p|
  {
    if p == [] then [] else ByteBits(p[0]) + PacketBits(p[1..])
  }

  // ----- What the bits of a packet stand for -----

  /** A packet as one number, most significant byte first. */
  function BigNumber(p: seq<Byte>): nat {
    if p == [] then 0 else 256 * BigNumber(p[..|p| - 1]) + p[|p| - 1]
  }

  function Unit(b: bool): nat {
    if b then 1 else 0
  }

  lemma NumberLast(a: Bits, x: bool)
    ensures Number(a + [x]) == 2 * Number(a) + Unit(x)
  {
    assert (a + [x])[..|a|] == a;
  }

  lemma PowerNext(n: nat)
    ensures Power(n + 1) == 2 * Power(n) && Power(n) > 0 && Power(0) == 1
  {
    if n > 0 {
      PowerNext(n - 1);
    }
  }

  lemma {:induction false} NumberBound(b: Bits)
    ensures Number(b) < Power(|b|)
  {
    if b != [] {
      NumberBound(b[..|b| - 1]);
    }
  }

  lemma {:induction false} NumberConcat(a: Bits, b: Bits)
    ensures Number(a + b) == Number(a) * Power(|b|) + Number(b)
    decreases |b|
  {
    if b == [] {
      assert a + b == a;
    } else {
      hide Number, Power;
      var b', x := b[..|b| - 1], b[|b| - 1];
      assert b == b' + [x] && a + b == (a + b') + [x];
      NumberConcat(a, b');
      NumberLast(a + b', x);
      NumberLast(b', x);
      PowerNext(|b'|);
      Twice(Number(a), Power(|b'|));
    }
  }

  lemma Twice(a: nat, p: nat)
    ensures a * (2 * p) == 2 * (a * p)
  {
  }

  lemma {:induction false} PacketConcat(p: seq<Byte>, q: seq<Byte>)
    ensures PacketBits(p + q) == PacketBits(p) + PacketBits(q)
    decreases |p|
  {
    hide ByteBits;
    if p == [] {
      assert p + q == q;
    } else {
      assert (p + q)[1..] == p[1..] + q;
      PacketConcat(p[1..], q);
    }
  }

  lemma ByteNumber(b: Byte)
    ensures PacketBits([b]) == ByteBits(b) && Number(ByteBits(b)) == b && Power(8) == 256
  {
    assert Power(8) == 256 by {
      assert Power(4) == 16;
    }
    BitsOfNumber(b, 8);
    hide Number, BitsOf, Power;
    assert [b][1..] == [];
    assert ByteBits(b) + [] == ByteBits(b);
  }

  lemma ByteShift(a: Bits, b: Byte)
    ensures Number(a + ByteBits(b)) == 256 * Number(a) + b
  {
    hide *;
    ByteNumber(b);
    NumberConcat(a, ByteBits(b));
  }

  lemma BigLast(p: seq<Byte>, b: Byte)
    ensures BigNumber(p + [b]) == 256 * BigNumber(p) + b
  {
    assert (p + [b])[..|p|] == p;
  }

  /** The bits of a packet stand for its bytes. */
  lemma {:induction false} PacketNumber(p: seq<Byte>)
    ensures Number(PacketBits(p)) == BigNumber(p)
  {
    hide *;
    if p == [] {
      NoNumber();
    } else {
      var p', b := p[..|p| - 1], p[|p| - 1];
      assert p == p' + [b];
      PacketNumber(p');
      PacketConcat(p', [b]);
      ByteNumber(b);
      ByteShift(PacketBits(p'), b);
      BigLast(p', b);
    }
  }

  /** A field of whole bytes holds their number, most significant byte first; a single byte that byte. */
  lemma WholeBytes(p: seq<Byte>, i: nat, n: nat)
    requires i + n <= |p|
    ensures Number(PacketBits(p)[8 * i..8 * (i + n)]) == BigNumber(p[i..i + n])
    ensures n == 1 ==> Number(PacketBits(p)[8 * i..8 * i + 8]) == p[i]
  {
    hide Number, PacketBits, BigNumber;
    var a, b, c := p[..i], p[i..i + n], p[i + n..];
    assert p == a + (b + c);
    PacketConcat(a, b + c);
    PacketConcat(b, c);
    assert PacketBits(p)[8 * i..8 * (i + n)] == PacketBits(b);
    PacketNumber(b);
    if n == 1 {
      BigLast([], p[i]);
      NoNumber();
      assert b == [] + [p[i]];
    }
  }

  lemma NoNumber()
    ensures BigNumber([]) == 0 && Number(PacketBits([])) == 0
  {
  }

  /** Any field holds what dividing and taking the remainder give: the packet as a number without the bits
      behind the field and those before it. */
  lemma FieldValue(p: seq<Byte>, used: nat, size: nat)
    requires used + size <= 8 * |p|
    ensures Power(8 * |p| - used - size) > 0 && Power(size) > 0
    ensures Number(PacketBits(p)[used..used + size]) == BigNumber(p) / Power(8 * |p| - used - size) % Power(size)
  {
    hide PacketBits, Number, Power, BigNumber;
    var all := PacketBits(p);
    var a, b, c := all[..used], all[used..used + size], all[used + size..];
    assert all == (a + b) + c;
    PacketNumber(p);
    NumberConcat(a + b, c);
    NumberConcat(a, b);
    NumberBound(b);
    NumberBound(c);
    Middle(Number(a), Number(b), Number(c), Power(|b|), Power(|c|));
  }

  lemma Middle(a: nat, b: nat, c: nat, p: nat, q: nat)
    requires b < p && c < q
    ensures ((a * p + b) * q + c) / q % p == b
  {
    Quotient(a * p + b, c, q);
    Quotient(a, b, p);
  }

  lemma Quotient(x: nat, c: nat, q: nat)
    requires c < q
    ensures (x * q + c) / q == x && (x * q + c) % q == c
  {
    var n := x * q + c;
    var d: int := n / q - x;
    assert d * q == c - n % q;
    Multiple(d, q);
  }

  lemma Multiple(d: int, q: nat)
    ensures d == 0 || d * q >= q || d * q + q <= 0
  {
  }

  // ----- The reader -----

  /** Whether a field of `n` bits can be read when `bits` are buffered: no shift leaves the word. */
  predicate Fits(bits: nat, n: nat) {
    1 <= n <= 63 && Filled(bits, n) <= WIDTH
  }

  /** How full the buffer gets before `n` bits are taken from it. */
  function Filled(bits: nat, n: nat): nat
    decreases n - bits
  {
    if bits >= n then bits else Filled(bits + 8, n)
  }

  /** With less than a byte buffered, fields of up to 57 bits always fit; longer ones do exactly if the
      buffer can be filled to the field without going over. */
  lemma FitsExactly(bits: nat, n: nat)
    requires bits < 8
    ensures Fits(bits, n) <==> 1 <= n <= 63 && (bits == 0 || n <= 56 + bits)
    ensures 1 <= n <= 57 ==> Fits(bits, n)
  {
    FilledIs(bits, n);
  }

  lemma {:induction false} FilledIs(bits: nat, n: nat)
    ensures Filled(bits, n) == if bits >= n then bits else bits + (n - bits + 7) / 8 * 8
    decreases n - bits
  {
    if bits < n {
      FilledIs(bits + 8, n);
    }
  }

  class Reader {
    const packet: seq<Byte>
    var at: nat
    var bits: nat
    var buffer: Bits

    constructor (packet: seq<Byte>)
      ensures this.packet == packet && at == 0 && bits == 0 && Valid()
      ensures Stands(PacketBits(packet), 0)
    {
      this.packet, at, bits, buffer := packet, 0, 0, Zeros(WIDTH);
    }

    /** Buffered bits are left-aligned with zeros behind them. */
    ghost predicate Aligned()
      reads this
    {
      && at <= |packet| && bits <= WIDTH == |buffer|
      && buffer[bits..] == Zeros(WIDTH - bits)
    }

    /** Between fields, less than a byte is buffered. */
    ghost predicate Valid()
      reads this
    {
      Aligned() && bits < 8
    }

    /** The bits that have not been returned. */
    ghost function Rest(): Bits
      requires Aligned()
      reads this
    {
      buffer[..bits] + PacketBits(packet[at..])
    }

    /** Put one more byte into the buffer. */
    method Load()
      requires Aligned() && at < |packet| && bits + 8 <= WIDTH
      modifies this`at, this`bits, this`buffer
      ensures Aligned() && Rest() == old(Rest())
      ensures bits == old(bits) + 8 && at == old(at) + 1
    {
      var word := ShiftLeft(ByteWord(packet[at]), WIDTH - (bits + 8));
      ghost var byte, was, rest := ByteBits(packet[at]), buffer[..bits], packet[at..];
      assert word == Zeros(bits) + byte + Zeros(WIDTH - bits - 8);
      buffer := Or(buffer, word);
      assert buffer == was + byte + Zeros(WIDTH - bits - 8) by {
        Blend(was, byte, old(buffer), word);
      }
      assert rest[1..] == packet[at + 1..];
      at := at + 1;
      bits := bits + 8;
      assert buffer[..bits] == was + byte;
      assert was + byte + PacketBits(rest[1..]) == was + PacketBits(rest);
    }

    /** The loop of getbit: load bytes until `n` bits are there. */
    method Fill(n: nat)
      requires Valid() && Fits(bits, n) && n <= |Rest()|
      modifies this`at, this`bits, this`buffer
      ensures Aligned() && Rest() == old(Rest()) && n <= bits
      ensures bits < 8 || bits < n + 8
      ensures 8 * at - bits == 8 * old(at) - old(bits)
    {
      while bits < n && at < |packet|
        invariant Aligned() && Rest() == old(Rest())
        invariant Filled(bits, n) <= WIDTH
        invariant bits < 8 || bits < n + 8
        invariant 8 * at - bits == 8 * old(at) - old(bits)
        decreases |packet| - at
      {
        FilledIs(bits, n);
        Load();
      }
    }

    /** getbit */
    method GetBit(n: nat) returns (ret: Bits)
      requires Valid() && Fits(bits, n) && n <= |Rest()|
      modifies this`at, this`bits, this`buffer
      ensures Valid()
      ensures ret == Zeros(WIDTH - n) + old(Rest())[..n]
      ensures Rest() == old(Rest())[n..]
      ensures 8 * at - bits == 8 * old(at) - old(bits) + n
    {
      hide Zeros, And, Not, LowOnes, ShiftLeft, ShiftRight, PacketBits, Fits;
      Fill(n);
      Taken(buffer, bits, n, PacketBits(packet[at..]));
      ret := ShiftRight(And(buffer, Not(LowOnes(WIDTH - n))), WIDTH - n);
      buffer := ShiftLeft(buffer, n);
      bits := bits - n;
    }

    /** The step to the next header: whole bytes in the buffer would be given back, the rest is
        dropped.  Since there are no whole bytes, the packet pointer stays where it is. */
    method NextHeader() returns (start: nat)
      requires Valid()
      modifies this`at, this`bits, this`buffer
      ensures Valid() && bits == 0 && start == at == old(at)
      ensures Rest() == PacketBits(packet[at..]) == old(Rest())[old(bits)..]
    {
      start := at - bits / 8;
      at := start;
      bits := 0;
      buffer := Zeros(WIDTH);
    }

    /** `used` of the bits `all` of the packet have been returned or dropped. */
    ghost predicate Stands(all: Bits, used: nat)
      reads this
    {
      Valid() && all == PacketBits(packet) && used <= |all| && Rest() == all[used..] && 8 * at == used + bits
    }

    /** One element of a protocol description. */
    method Show(e: Element, ghost all: Bits, ghost used: nat) returns (s: Shown)
      requires Stands(all, used) && (e.Field? ==> Fits(Left(used), e.size))
      modifies this`at, this`bits, this`buffer
      ensures s == First(all, used, e)
      ensures !s.Truncated? ==> Used(used, e) <= |all| && Stands(all, Used(used, e))
    {
      hide PacketBits, Fits, Left, NextByte, Number, Zeros;
      LeftIs(at, bits, used);
      match e {
        case Header =>
          var start := NextHeader();
          return Start(start);
        case Field(size) =>
          if 8 * (|packet| - at) + bits < size {
            return Truncated;
          }
          s := ShowField(size, all, used);
      }
    }

    method ShowField(size: nat, ghost all: Bits, ghost used: nat) returns (s: Shown)
      requires Stands(all, used) && Fits(bits, size) && used + size <= |all|
      modifies this`at, this`bits, this`buffer
      ensures s == Value(Number(all[used..used + size])) && Stands(all, used + size)
    {
      hide PacketBits, Fits, Number, Zeros;
      Slices(all, used, size);
      FitsWord(bits, size);
      NumberPadded(WIDTH - size, all[used..used + size]);
      var word := GetBit(size);
      return Value(Number(word));
    }
  }

  lemma LeftIs(at: nat, bits: nat, used: nat)
    requires bits < 8 && 8 * at == used + bits
    ensures bits == Left(used) && at == NextByte(used)
  {
    if bits == 0 {
      assert used == 8 * at;
    } else {
      assert used == 8 * (at - 1) + (8 - bits);
    }
  }

  lemma FitsWord(bits: nat, n: nat)
    requires Fits(bits, n)
    ensures n <= WIDTH
  {
  }

  lemma Slices(all: Bits, used: nat, size: nat)
    requires used + size <= |all|
    ensures all[used..][..size] == all[used..used + size] && all[used..][size..] == all[used + size..]
  {
  }

  lemma Blend(was: Bits, byte: Bits, buffer: Bits, word: Bits)
    requires |byte| == 8 && |was| + 8 <= WIDTH && |buffer| == WIDTH
    requires buffer[..|was|] == was && buffer[|was|..] == Zeros(WIDTH - |was|)
    requires word == Zeros(|was|) + byte + Zeros(WIDTH - |was| - 8)
    ensures Or(buffer, word) == was + byte + Zeros(WIDTH - |was| - 8)
  {
    var r := Or(buffer, word);
    forall i | 0 <= i < WIDTH
      ensures r[i] == (was + byte + Zeros(WIDTH - |was| - 8))[i]
    {
      if i < |was| {
        assert buffer[i] == was[i] && !word[i];
      } else {
        assert buffer[i] == buffer[|was|..][i - |was|] == false;
      }
    }
  }

  /** Taking `n` of the `bits` buffered bits. */
  lemma Taken(buffer: Bits, bits: nat, n: nat, rest: Bits)
    requires |buffer| == WIDTH && n <= bits <= WIDTH && buffer[bits..] == Zeros(WIDTH - bits)
    ensures ShiftRight(And(buffer, Not(LowOnes(WIDTH - n))), WIDTH - n) ==
            Zeros(WIDTH - n) + (buffer[..bits] + rest)[..n]
    ensures ShiftLeft(buffer, n)[..bits - n] + rest == (buffer[..bits] + rest)[n..]
    ensures ShiftLeft(buffer, n)[bits - n..] == Zeros(WIDTH - (bits - n))
  {
    assert And(buffer, Not(LowOnes(WIDTH - n)))[..n] == buffer[..n] == (buffer[..bits] + rest)[..n];
    assert ShiftLeft(buffer, n)[..bits - n] == buffer[..bits][n..];
    assert ShiftLeft(buffer, n)[bits - n..] == buffer[bits..] + Zeros(n);
  }

  // ----- Whole protocol descriptions -----

  datatype Element = Field(size: nat) | Header

  /** What decoding shows: the value of a field, the byte where the next header starts, or that the
      packet ends too soon. */
  datatype Shown = Value(number: nat) | Start(byte: nat) | Truncated

  /** The first whole byte of which no bit has been used. */
  function NextByte(used: nat): nat {
    (used + 7) / 8
  }

  /** What an element shows of a list of bits, `used` of which are gone. */
  function First(bits: Bits, used: nat, e: Element): Shown
    requires used <= |bits|
  {
    match e
    case Header => Start(NextByte(used))
    case Field(size) =>
      if used + size > |bits| then Truncated else Value(Number(bits[used..used + size]))
  }

  function Used(used: nat, e: Element): nat {
    if e.Header? then 8 * NextByte(used) else used + e.size
  }

  /** Decoding by cutting one element after the other from the list of bits. */
  function Cut(bits: Bits, used: nat, elements: seq<Element>): seq<Shown>
    requires used <= |bits| && |bits| % 8 == 0
    decreases |elements|
  {
    if elements == [] then []
    else
      var s := First(bits, used, elements[0]);
      if s.Truncated? then [s] else [s] + Cut(bits, Used(used, elements[0]), elements[1..])
  }

  /** How many bits of a byte are left. */
  function Left(used: nat): nat {
    (8 - used % 8) % 8
  }

  /** No field is too long for the buffer, wherever it starts in its byte. */
  predicate Readable(used: nat, elements: seq<Element>)
    decreases |elements|
  {
    elements != [] ==>
      (elements[0].Field? ==> Fits(Left(used), elements[0].size)) && Readable(Used(used, elements[0]), elements[1..])
  }

  /** Fields of 1 to 57 bits are always readable. */
  lemma {:induction false} ShortFieldsReadable(used: nat, elements: seq<Element>)
    requires forall e :: e in elements && e.Field? ==> 1 <= e.size <= 57
    ensures Readable(used, elements)
    decreases |elements|
  {
    if elements != [] {
      if elements[0].Field? {
        FitsExactly(Left(used), elements[0].size);
      }
      ShortFieldsReadable(Used(used, elements[0]), elements[1..]);
    }
  }

  /** decode_protocol_file shows what cutting the packet's bit list shows. */
  method Decode(packet: seq<Byte>, elements: seq<Element>) returns (shown: seq<Shown>)
    requires Readable(0, elements)
    ensures shown == Cut(PacketBits(packet), 0, elements)
  {
    hide *;
    ghost var all, used := PacketBits(packet), 0;
    var r := new Reader(packet);
    shown := [];
    var i := 0;
    assert elements[0..] == elements;
    while i < |elements|
      invariant 0 <= i <= |elements| && 0 <= used <= |all| && |all| % 8 == 0
      invariant fresh(r) && r.packet == packet && r.Stands(all, used)
      invariant shown + Cut(all, used, elements[i..]) == Cut(all, 0, elements)
      invariant Readable(used, elements[i..])
    {
      ReadableStep(used, elements, i);
      CutStep(all, used, elements, i);
      var s := r.Show(elements[i], all, used);
      shown := shown + [s];
      if s.Truncated? {
        return;
      }
      used := Used(used, elements[i]);
      i := i + 1;
    }
    NothingToCut(all, used);
    assert elements[i..] == [];
  }

  lemma NothingToCut(bits: Bits, used: nat)
    requires used <= |bits| && |bits| % 8 == 0
    ensures Cut(bits, used, []) == []
  {
  }

  lemma CutStep(bits: Bits, used: nat, elements: seq<Element>, i: nat)
    requires used <= |bits| && |bits| % 8 == 0 && i < |elements|
    ensures var s := First(bits, used, elements[i]);
            && (s.Truncated? ==> Cut(bits, used, elements[i..]) == [s])
            && (!s.Truncated? ==> Used(used, elements[i]) <= |bits|)
            && (!s.Truncated? ==>
                 Cut(bits, used, elements[i..]) == [s] + Cut(bits, Used(used, elements[i]), elements[i + 1..]))
  {
    assert elements[i..][0] == elements[i] && elements[i..][1..] == elements[i + 1..];
  }

  lemma ReadableStep(used: nat, elements: seq<Element>, i: nat)
    requires i < |elements| && Readable(used, elements[i..])
    ensures elements[i].Field? ==> Fits(Left(used), elements[i].size)
    ensures Readable(Used(used, elements[i]), elements[i + 1..])
  {
    assert elements[i..][0] == elements[i] && elements[i..][1..] == elements[i + 1..];
  }

  /** The two halves of a byte, as two fields of 4 bits show them. */
  method Halves(b: Byte) returns (shown: seq<Shown>)
    ensures shown == [Value(b / 16), Value(b % 16)]
  {
    var elements := [Field(4), Field(4)];
    ShortFieldsReadable(0, elements);
    shown := Decode([b], elements);
    HalvesCut(b);
  }

  lemma HalvesCut(b: Byte)
    ensures Cut(PacketBits([b]), 0, [Field(4), Field(4)]) == [Value(b / 16), Value(b % 16)]
  {
    hide PacketBits, Number, BigNumber, Power, Cut;
    HalfValues(b);
    var all, elements := PacketBits([b]), [Field(4), Field(4)];
    CutStep(all, 0, elements, 0);
    CutStep(all, 4, elements, 1);
    NothingToCut(all, 8);
    assert elements[0..] == elements && elements[2..] == [];
  }

  lemma HalfValues(b: Byte)
    ensures Number(PacketBits([b])[0..4]) == b / 16 && Number(PacketBits([b])[4..8]) == b % 16
  {
    hide *;
    SmallPowers();
    FieldValue([b], 0, 4);
    FieldValue([b], 4, 4);
    BigLast([], b);
    NoNumber();
    assert [b] == [] + [b];
  }

  lemma SmallPowers()
    ensures Power(0) == 1 && Power(4) == 16
  {
  }
}
