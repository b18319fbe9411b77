/** Numbers in the headers of pcap files, written in either byte order and read by a little-endian
    host. */
module PcapFields {
  import opened Bytes

  const WORD32: nat := 0x1_0000_0000

  datatype Order = Little | Big

  /** Four bytes as a number, least significant first. */
  function Quad(a: nat, b: nat, c: nat, d: nat): nat {
    a + 256 * b + 0x10000 * c + 0x1000000 * d
  }

  function Field32(o: Order, n: nat): (b: seq<Byte>)
    ensures |b| == 4
  {
    var w, x, y, z := n % 256, n / 256 % 256, n / 0x10000 % 256, n / 0x1000000 % 256;
    if o == Little then [w, x, y, z] else [z, y, x, w]
  }

  function Field16(o: Order, n: nat): (b: seq<Byte>)
    ensures |b| == 2
  {
    if o == Little then [n % 256, n / 256 % 256] else [n / 256 % 256, n % 256]
  }

  /** A number as it lies in the host's memory. */
  function Read32(m: seq<Byte>, at: nat): nat {
    Quad(At(m, at), At(m, at + 1), At(m, at + 2), At(m, at + 3))
  }

  /** byteswap32, whose masked and shifted parts do not overlap. */
  function Swap32(n: nat): nat {
    Quad(n / 0x1000000 % 256, n / 0x10000 % 256, n / 256 % 256, n % 256)
  }

  /** byteswap16 */
  function Swap16(n: nat): nat {
    Join(n % 256, n / 256 % 256)
  }

  lemma QuadParts(a: Byte, b: Byte, c: Byte, d: Byte)
    ensures var n := Quad(a, b, c, d);
            n % 256 == a && n / 256 % 256 == b && n / 0x10000 % 256 == c && n / 0x1000000 % 256 == d && n < WORD32
  {
    var n := Quad(a, b, c, d);
    assert n / 256 == b + 256 * c + 0x10000 * d;
    assert n / 0x10000 == c + 256 * d;
  }

  lemma QuadJoins(n: nat)
    requires n < WORD32
    ensures Quad(n % 256, n / 256 % 256, n / 0x10000 % 256, n / 0x1000000 % 256) == n
  {
    var p, q, r := n / 256, n / 0x10000, n / 0x1000000;
    Nested(n);
    assert n == 256 * p + n % 256;
    assert p == 256 * q + p % 256;
    assert q == 256 * r + q % 256;
    assert r % 256 == r;
  }

  lemma Nested(n: nat)
    ensures n / 256 / 256 == n / 0x10000 && n / 0x10000 / 256 == n / 0x1000000
  {
  }

  /** A number read in the host's order is the number written, or its swapped form. */
  lemma FieldReads(o: Order, n: nat, m: seq<Byte>, at: nat)
    requires n < WORD32 && at + 4 <= |m| && m[at..at + 4] == Field32(o, n)
    ensures (if o == Big then Swap32(Read32(m, at)) else Read32(m, at)) == n
  {
    var b := m[at..at + 4];
    assert At(m, at) == b[0] && At(m, at + 1) == b[1] && At(m, at + 2) == b[2] && At(m, at + 3) == b[3];
    QuadParts(b[0], b[1], b[2], b[3]);
    QuadJoins(n);
  }

  lemma Field16Reads(o: Order, n: nat, m: seq<Byte>, at: nat)
    requires n < 0x10000 && at + 2 <= |m| && m[at..at + 2] == Field16(o, n)
    ensures (if o == Big then Swap16(LittleEndian16(m, at)) else LittleEndian16(m, at)) == n
  {
    hide Join;
    var b := m[at..at + 2];
    assert At(m, at) == b[0] && At(m, at + 1) == b[1];
    PairParts(b[1], b[0]);
    JoinHalves(n);
  }

  lemma PairParts(high: Byte, low: Byte)
    ensures Join(high, low) % 256 == low && Join(high, low) / 256 % 256 == high
  {
  }

  lemma SwapTwice(n: nat)
    requires n < WORD32
    ensures Swap32(Swap32(n)) == n
  {
    QuadParts(n / 0x1000000 % 256, n / 0x10000 % 256, n / 256 % 256, n % 256);
    QuadJoins(n);
  }
}
