/** Bytes, and 16-bit numbers in memory. */
module Bytes {
  type Byte = n: nat | n < 256

  /** The byte at `i`; what lies outside the memory at hand is taken to be 0. */
  function At(m: seq<Byte>, i: nat): Byte {
    if i < |m| then m[i] else 0
  }

  function Join(high: nat, low: nat): nat {
    256 * high + low
  }

  lemma JoinHalves(n: nat)
    requires n < 0x10000
    ensures Join(n / 256 % 256, n % 256) == n
  {
  }

  /** A number stored most significant byte first. */
  function BigEndian16(m: seq<Byte>, i: nat): (n: nat)
    ensures n < 0x10000
  {
    Join(At(m, i), At(m, i + 1))
  }

  /** The bytes of a number in network order. */
  function Number16(n: nat): (b: seq<Byte>)
    ensures |b| == 2
  {
    [n / 256 % 256, n % 256]
  }

  /** A number as a little-endian host reads it. */
  function LittleEndian16(m: seq<Byte>, i: nat): (n: nat)
    ensures n < 0x10000
  {
    Join(At(m, i + 1), At(m, i))
  }

  /** Copy `s` over the bytes of `m` from `at` on. */
  function Overwrite(m: seq<Byte>, at: nat, s: seq<Byte>): (r: seq<Byte>)
    requires at + |s| <= |m|
    ensures |r| == |m|
    ensures forall i :: 0 <= i < |m| ==> r[i] == if at <= i < at + |s| then s[i - at] else m[i]
  {
    m[..at] + s + m[at + |s|..]
  }

  /** `n` bytes from `at` on. */
  function Window(m: seq<Byte>, at: nat, n: nat): (w: seq<Byte>)
    ensures |w| == n && forall i :: 0 <= i < n ==> w[i] == At(m, at + i)
  {
    seq<Byte>(n, i requires 0 <= i => At(m, at + i))
  }

  /** `m` and `n` hold the same bytes from `lo` up to `hi`. */
  ghost predicate Agree(m: seq<Byte>, n: seq<Byte>, lo: nat, hi: nat) {
    forall i :: lo <= i < hi ==> At(m, i) == At(n, i)
  }
}
