/** The Internet checksum as a little-endian host computes it, against its definition in RFC 1071:
    the complement of the one's complement sum of the 16-bit words in network byte order. */
module Checksum {
  import opened Bytes
  import opened Layers
  import opened Transport

  const ONES: nat := 0xFFFF

  // ----- RFC 1071 -----

  /** Addition with end-around carry. */
  function OnesAdd(a: nat, b: nat): nat
    requires a <= ONES && b <= ONES
  {
    if a + b > ONES then a + b - ONES else a + b
  }

  function OnesSum(b: seq<Byte>): (s: nat)
    ensures s <= ONES
  {
    if |b| == 0 then 0
    else if |b| == 1 then Join(b[0], 0)
    else OnesAdd(Join(b[0], b[1]), OnesSum(b[2..]))
  }

  function Rfc1071(b: seq<Byte>): (c: nat)
    ensures c <= ONES
  {
    ONES - OnesSum(b)
  }

  // ----- Sums without carry -----

  /** Words read most significant byte first; an odd last byte is padded with 0. */
  function BigSum(b: seq<Byte>): nat {
    if |b| == 0 then 0
    else if |b| == 1 then Join(b[0], 0)
    else Join(b[0], b[1]) + BigSum(b[2..])
  }

  /** Words as a little-endian host reads them; an odd last byte counts as it is. */
  function HostSum(b: seq<Byte>): nat {
    if |b| == 0 then 0
    else if |b| == 1 then b[0]
    else Join(b[1], b[0]) + HostSum(b[2..])
  }

  lemma {:induction false} HostSumBound(b: seq<Byte>)
    ensures HostSum(b) <= ONES * ((|b| + 1) / 2)
    decreases |b|
  {
    if |b| >= 2 {
      HostSumBound(b[2..]);
    }
  }

  /** The bytes at odd positions. */
  function OddBytes(b: seq<Byte>): (s: nat)
    ensures s <= BigSum(b)
  {
    if |b| < 2 then 0 else b[1] + OddBytes(b[2..])
  }

  /** `s` with all carries added back in: the only number up to 0xFFFF that is congruent to it modulo
      0xFFFF and zero only if it is. */
  function Carried(s: nat): (f: nat)
    ensures f <= ONES && (f == 0 <==> s == 0)
  {
    if s == 0 then 0 else (s - 1) % ONES + 1
  }

  lemma CarriedIs(f: nat, s: nat, k: nat)
    requires f <= ONES && (f == 0 <==> s == 0) && s == f + ONES * k
    ensures Carried(s) == f
  {
    if s > 0 {
      Modulo(f - 1, k);
    }
  }

  lemma Modulo(a: nat, k: nat)
    requires a < ONES
    ensures (a + ONES * k) % ONES == a
  {
  }

  lemma CarriedOff(s: nat) returns (k: nat)
    ensures s == Carried(s) + ONES * k
  {
    k := if s == 0 then 0 else (s - 1) / ONES;
  }

  lemma CarriedAdd(a: nat, b: nat)
    requires a <= ONES
    ensures Carried(a + b) == OnesAdd(a, Carried(b))
  {
    var k := CarriedOff(b);
    var f := OnesAdd(a, Carried(b));
    CarriedIs(f, a + b, k + if a + Carried(b) > ONES then 1 else 0);
  }

  lemma {:induction false} OnesSumIs(b: seq<Byte>)
    ensures OnesSum(b) == Carried(BigSum(b))
    decreases |b|
  {
    if |b| >= 2 {
      OnesSumIs(b[2..]);
      CarriedAdd(Join(b[0], b[1]), BigSum(b[2..]));
    } else if |b| == 1 {
      CarriedIs(Join(b[0], 0), Join(b[0], 0), 0);
    }
  }

  // ----- Byte order -----

  /** ntohs on a little-endian host */
  function Swap(n: nat): (r: nat)
    requires n <= ONES
    ensures r <= ONES && 256 * n == r + ONES * (n / 256) && (r == 0 <==> n == 0)
  {
    Join(n % 256, n / 256)
  }

  lemma SwapTwice(n: nat)
    requires n <= ONES
    ensures Swap(Swap(n)) == n && Swap(ONES - n) == ONES - Swap(n)
  {
    var h, l := n / 256, n % 256;
    assert Swap(n) / 256 == l && Swap(n) % 256 == h;
    assert (ONES - n) / 256 == 255 - h && (ONES - n) % 256 == 255 - l;
  }

  lemma {:induction false} HostToBig(b: seq<Byte>)
    ensures 256 * HostSum(b) == BigSum(b) + ONES * OddBytes(b)
    decreases |b|
  {
    if |b| >= 2 {
      HostToBig(b[2..]);
    }
  }

  lemma {:induction false} BothZero(b: seq<Byte>)
    ensures HostSum(b) == 0 <==> BigSum(b) == 0
    decreases |b|
  {
    HostToBig(b);
  }

  lemma SwapCarried(b: seq<Byte>)
    ensures Swap(Carried(HostSum(b))) == Carried(BigSum(b))
  {
    hide HostSum, BigSum, OddBytes, Carried, Swap;
    var f := Carried(HostSum(b));
    var k := CarriedOff(HostSum(b));
    HostToBig(b);
    BothZero(b);
    Scaled(HostSum(b), f, k, Swap(f), f / 256);
    Cancel(BigSum(b), OddBytes(b), Swap(f), f / 256 + 256 * k);
  }

  lemma Scaled(host: nat, f: nat, k: nat, swapped: nat, q: nat)
    requires host == f + ONES * k && 256 * f == swapped + ONES * q
    ensures 256 * host == swapped + ONES * (q + 256 * k)
  {
  }

  /** Two numbers that differ by multiples of 0xFFFF carry to the same. */
  lemma Cancel(s: nat, i: nat, f: nat, k: nat)
    requires f <= ONES && (f == 0 <==> s == 0) && s + ONES * i == f + ONES * k
    ensures Carried(s) == f
  {
    assert k >= i;
    CarriedIs(f, s, k - i);
  }

  // ----- The code -----

  /** Addition of 32-bit numbers. */
  function Add32(a: nat, b: nat): nat {
    (a + b) % 0x1_0000_0000
  }

  lemma NoWrap(a: nat, b: nat)
    requires a + b < 0x1_0000_0000
    ensures Add32(a, b) == a + b
  {
  }

  /** add_checksum: no addition wraps around. */
  method AddChecksum(b: seq<Byte>) returns (sum: nat)
    requires |b| < 0x10000
    ensures sum == HostSum(b) && sum <= ONES * 0x8000
  {
    HostSumBound(b);
    sum := 0;
    var count, at := |b|, 0;
    while count > 1
      invariant count == |b| - at && 0 <= at <= |b|
      invariant sum + HostSum(b[at..]) == HostSum(b)
    {
      assert HostSum(b[at..]) == Join(b[at + 1], b[at]) + HostSum(b[at..][2..]);
      assert b[at..][2..] == b[at + 2..];
      NoWrap(sum, Join(b[at + 1], b[at]));
      sum := Add32(sum, Join(b[at + 1], b[at]));
      at := at + 2;
      count := count - 2;
    }
    if count > 0 {
      NoWrap(sum, b[at]);
      sum := Add32(sum, b[at]);
    }
  }

  /** finish_checksum: at most two folds, and the result is the complement of the sum modulo 0xFFFF,
      with 0 and 0xFFFF kept apart. */
  method FinishChecksum(sum: nat) returns (c: nat, folds: nat)
    requires sum < 0x1_0000_0000
    ensures c == ONES - Carried(sum) && folds <= 2
  {
    var s: nat := sum;
    folds := 0;
    ghost var k := 0;
    while s / 0x10000 != 0
      invariant sum == s + ONES * k && (s == 0 <==> sum == 0)
      invariant s <= (if folds == 0 then 0xFFFF_FFFF else if folds == 1 then 0x1_FFFE else ONES)
      invariant folds <= 2
      decreases s
    {
      k := k + s / 0x10000;
      s := s % 0x10000 + s / 0x10000;
      folds := folds + 1;
    }
    CarriedIs(s, sum, k);
    c := ONES - s;
  }

  /** Finishing a sum and swapping it to host order, as every caller does, gives the RFC 1071 checksum
      of what was summed. */
  method FinishInHostOrder(sum: nat, ghost all: seq<Byte>) returns (csum: nat)
    requires sum == HostSum(all) && sum < 0x1_0000_0000
    ensures csum == Rfc1071(all)
  {
    hide HostSum, BigSum, OnesSum, Carried, Swap;
    var c, _ := FinishChecksum(sum);
    csum := Swap(c);
    SwapTwice(Carried(sum));
    SwapCarried(all);
    OnesSumIs(all);
  }

  /** checksum_buffer */
  method ChecksumBuffer(b: seq<Byte>) returns (csum: nat)
    requires |b| < 0x10000
    ensures csum == Rfc1071(b)
  {
    var sum := AddChecksum(b);
    csum := FinishInHostOrder(sum, b);
  }

  // ----- Storing the checksum -----

  /** `b` with the number `v` in network byte order at `at`. */
  function Stored(b: seq<Byte>, at: nat, v: nat): (r: seq<Byte>)
    requires at + 2 <= |b|
    ensures |r| == |b|
  {
    b[at := v / 256 % 256][at + 1 := v % 256]
  }

  lemma {:induction false} BigSumStored(b: seq<Byte>, at: nat, v: nat)
    requires at % 2 == 0 && at + 2 <= |b| && v <= ONES
    ensures BigSum(Stored(b, at, v)) == BigSum(Stored(b, at, 0)) + v
    decreases |b|
  {
    if at == 0 {
      JoinHalves(v);
      assert Stored(b, 0, v)[2..] == b[2..] == Stored(b, 0, 0)[2..];
    } else {
      BigSumStored(b[2..], at - 2, v);
      assert Stored(b, at, v)[2..] == Stored(b[2..], at - 2, v);
      assert Stored(b, at, 0)[2..] == Stored(b[2..], at - 2, 0);
    }
  }

  /** A receiver who sums a packet with `v` in its checksum field gets 0 exactly if `v` is the checksum
      of the packet with that field zeroed, or its other representation of zero. */
  lemma VerifiesExactly(b: seq<Byte>, at: nat, v: nat)
    requires at % 2 == 0 && at + 2 <= |b| && v <= ONES
    ensures Rfc1071(Stored(b, at, v)) == 0 <==>
            (v == Rfc1071(Stored(b, at, 0)) || (v == ONES && Rfc1071(Stored(b, at, 0)) == 0))
  {
    hide BigSum, OnesSum, Stored, Carried;
    var s := BigSum(Stored(b, at, 0));
    BigSumStored(b, at, v);
    OnesSumIs(Stored(b, at, 0));
    OnesSumIs(Stored(b, at, v));
    CarriedAdd(v, s);
    assert v + s == s + v;
  }

  // ----- Checksums in parts -----

  /** Sums of parts add up, as long as the first part has even length. */
  lemma {:induction false} HostSumParts(a: seq<Byte>, b: seq<Byte>)
    requires |a| % 2 == 0
    ensures HostSum(a + b) == HostSum(a) + HostSum(b)
    decreases |a|
  {
    if |a| == 0 {
      assert a + b == b;
    } else {
      assert (a + b)[2..] == a[2..] + b;
      HostSumParts(a[2..], b);
    }
  }

  /** The IPv4 pseudo header: addresses, protocol, length of the segment. */
  function Pseudo4(ip: seq<Byte>): (p: seq<Byte>)
    requires |ip| >= 20
    ensures |p| == 12
  {
    ip[12..16] + ip[16..20] + Number16(ip[9]) + Number16(SegmentLength(ip))
  }

  /** The total length less the header, in 16 bits. */
  function SegmentLength(ip: seq<Byte>): nat
    requires |ip| >= 20
  {
    (Join(ip[2], ip[3]) - 4 * (ip[0] % 16) as int) % 0x10000
  }

  /** The IPv6 pseudo header: addresses, payload length, next header. */
  function Pseudo6(ip: seq<Byte>): (p: seq<Byte>)
    requires |ip| >= 40
    ensures |p| == 36
  {
    ip[8..24] + ip[24..40] + ip[4..6] + Number16(ip[6])
  }

  method Ipv4PseudoChecksum(ip: seq<Byte>) returns (sum: nat)
    requires |ip| >= 20
    ensures sum == HostSum(Pseudo4(ip)) && sum <= ONES * 6
  {
    hide HostSum, Number16, SegmentLength;
    var source := AddChecksum(ip[12..16]);
    var destination := AddChecksum(ip[16..20]);
    var protocol := AddChecksum(Number16(ip[9]));
    var length := AddChecksum(Number16(SegmentLength(ip)));
    sum := source + destination + protocol + length;
    HostSumParts(ip[12..16], ip[16..20]);
    HostSumParts(ip[12..16] + ip[16..20], Number16(ip[9]));
    HostSumParts(ip[12..16] + ip[16..20] + Number16(ip[9]), Number16(SegmentLength(ip)));
    HostSumBound(Pseudo4(ip));
  }

  method Ipv6PseudoChecksum(ip: seq<Byte>) returns (sum: nat)
    requires |ip| >= 40
    ensures sum == HostSum(Pseudo6(ip)) && sum <= ONES * 18
  {
    hide HostSum, Number16;
    var source := AddChecksum(ip[8..24]);
    var destination := AddChecksum(ip[24..40]);
    var length := AddChecksum(ip[4..6]);
    var next := AddChecksum(Number16(ip[6]));
    sum := source + destination + length + next;
    HostSumParts(ip[8..24], ip[24..40]);
    HostSumParts(ip[8..24] + ip[24..40], ip[4..6]);
    HostSumParts(ip[8..24] + ip[24..40] + ip[4..6], Number16(ip[6]));
    HostSumBound(Pseudo6(ip));
  }

  /** `header` with its checksum field at `at` zeroed, if it has one. */
  function Zeroed(header: seq<Byte>, at: nat): (r: seq<Byte>)
    ensures |r| == |header|
  {
    if at + 2 <= |header| then Stored(header, at, 0) else header
  }

  const SCRATCH: nat := 0x10000

  /** A scratch buffer after a header was copied to its start and the checksum field set to 0 there. */
  function Copied(header: seq<Byte>, at: nat, scratch: seq<Byte>): (r: seq<Byte>)
    requires |header| <= 60 && at < 60 && |scratch| == SCRATCH
    ensures |r| == SCRATCH
  {
    Stored(header + scratch[|header|..], at, 0)
  }

  method CopyZeroed(header: seq<Byte>, at: nat, scratch: seq<Byte>) returns (copy: seq<Byte>)
    requires |header| <= 60 && at < 60 && |scratch| == SCRATCH
    ensures copy == Copied(header, at, scratch)
  {
    var safety := new Byte[SCRATCH](i requires 0 <= i < SCRATCH => scratch[i]);
    var i := 0;
    while i < |header|
      invariant 0 <= i <= |header|
      invariant safety[..i] == header[..i] && safety[i..] == scratch[i..]
    {
      safety[i] := header[i];
      i := i + 1;
    }
    assert safety[..] == header + scratch[|header|..];
    safety[at], safety[at + 1] := 0, 0;
    copy := safety[..];
  }

  /** What is copied is the header, with its checksum field zeroed if that is in it. */
  lemma CopiedHeader(header: seq<Byte>, at: nat, scratch: seq<Byte>)
    requires |header| % 4 == 0 && |header| <= 60 && at < 60 && at % 2 == 0 && |scratch| == SCRATCH
    ensures Copied(header, at, scratch)[..|header|] == Zeroed(header, at)
  {
  }

  /** The header at the start of the memory `m`, as long as its own length field says. */
  function HeaderAt(m: seq<Byte>, words: nat): (h: seq<Byte>)
    ensures |h| == 4 * words
  {
    Window(m, 0, 4 * words)
  }

  datatype Answer = NoChecksum | Checksum(value: nat)

  /** What is summed for an IPv4 header.  The number of words is taken from the copy again. */
  ghost function Summed3(ip: seq<Byte>, scratch: seq<Byte>): seq<Byte>
    requires |scratch| == SCRATCH
  {
    var copy := Copied(HeaderAt(ip, At(ip, 0) % 16), 10, scratch);
    copy[..4 * (copy[0] % 16)]
  }

  /** trace_checksum_layer3: the checksum of the IPv4 header at the start of the memory `ip`, of which
      `remaining` bytes were captured; there is none if these do not cover the fixed part.  `scratch` is
      what the buffer on the stack holds before it is written to. */
  method ChecksumLayer3(ip: seq<Byte>, remaining: nat, scratch: seq<Byte>) returns (a: Answer)
    requires |scratch| == SCRATCH
    ensures a.NoChecksum? <==> remaining < 20
    ensures a.Checksum? ==> a.value == Rfc1071(Summed3(ip, scratch))
    ensures a.Checksum? && At(ip, 0) % 16 > 0 ==> a.value == Rfc1071(Zeroed(HeaderAt(ip, At(ip, 0) % 16), 10))
  {
    if remaining < 20 {
      return NoChecksum;
    }
    var safety := CopyZeroed(HeaderAt(ip, At(ip, 0) % 16), 10, scratch);
    var csum := ChecksumBuffer(safety[..4 * (safety[0] % 16)]);
    a := Checksum(csum);
    if At(ip, 0) % 16 > 0 {
      LengthCopied3(ip, scratch);
    }
  }

  lemma LengthCopied3(ip: seq<Byte>, scratch: seq<Byte>)
    requires |scratch| == SCRATCH && At(ip, 0) % 16 > 0
    ensures Summed3(ip, scratch) == Zeroed(HeaderAt(ip, At(ip, 0) % 16), 10)
  {
    CopiedHeader(HeaderAt(ip, At(ip, 0) % 16), 10, scratch);
  }

  /** The checksum does not depend on what the buffer held before. */
  ghost predicate Determined3(ip: seq<Byte>) {
    forall s, s' :: |s| == |s'| == SCRATCH ==> Rfc1071(Summed3(ip, s)) == Rfc1071(Summed3(ip, s'))
  }

  /** That is so exactly if the header has at least one word, for then its length is in the copy. */
  lemma Determined3Exactly(ip: seq<Byte>)
    ensures Determined3(ip) <==> At(ip, 0) % 16 > 0
  {
    hide Rfc1071, Summed3, Zeroed;
    if At(ip, 0) % 16 > 0 {
      forall s, s' | |s| == |s'| == SCRATCH ensures Rfc1071(Summed3(ip, s)) == Rfc1071(Summed3(ip, s')) {
        LengthCopied3(ip, s);
        LengthCopied3(ip, s');
      }
    } else {
      var s := seq<Byte>(SCRATCH, i => if i == 0 then 1 else 0);
      var s' := s[1 := 1];
      LeftoverSummed(ip, s);
      LeftoverSummed(ip, s');
      var x := s[..4];
      assert s'[..4] == x[1 := 1];
      ByteMatters([], x, 0, []);
      assert [] + x + [] == x && [] + x[1 := 1] + [] == x[1 := 1];
    }
  }

  lemma LeftoverSummed(ip: seq<Byte>, s: seq<Byte>)
    requires |s| == SCRATCH && At(ip, 0) % 16 == 0 && s[0] == 1
    ensures Summed3(ip, s) == s[..4]
  {
  }

  /** Adding 1 to the low byte of a word changes the checksum. */
  lemma ByteMatters(before: seq<Byte>, x: seq<Byte>, at: nat, behind: seq<Byte>)
    requires |before| % 2 == 0 && at % 2 == 0 && at + 1 < |x| && x[at + 1] == 0
    ensures Rfc1071(before + x + behind) != Rfc1071(before + x[at + 1 := 1] + behind)
  {
    hide Rfc1071;
    var b, k := before + x + behind, |before| + at;
    assert b[k + 1 := 1] == before + x[at + 1 := 1] + behind;
    LowByte(b, k);
  }

  lemma LowByte(b: seq<Byte>, k: nat)
    requires k % 2 == 0 && k + 1 < |b| && b[k + 1] == 0
    ensures Rfc1071(b) != Rfc1071(b[k + 1 := 1])
  {
    hide BigSum, OnesSum, Stored, Carried, Join;
    var v := Join(b[k], 0);
    StoredAlready(b, k);
    BigSumStored(b, k, v);
    BigSumStored(b, k, v + 1);
    OnesSumIs(b);
    OnesSumIs(b[k + 1 := 1]);
    OneMore(BigSum(Stored(b, k, 0)) + v);
  }

  lemma StoredAlready(b: seq<Byte>, k: nat)
    requires k + 1 < |b| && b[k + 1] == 0
    ensures Stored(b, k, Join(b[k], 0)) == b && Stored(b, k, Join(b[k], 0) + 1) == b[k + 1 := 1] && Join(b[k], 0) + 1 <= ONES
  {
  }

  lemma OneMore(s: nat)
    ensures Carried(1 + s) != Carried(s)
  {
    hide Carried;
    CarriedAdd(1, s);
  }

  /** The network layer that a segment came in, as captured. */
  datatype Carrier = Ipv4(ip: seq<Byte>) | Ipv6(ip: seq<Byte>) | Unknown

  predicate CutShort(l3: Carrier) {
    match l3
    case Ipv4(ip) => |ip| < 20
    case Ipv6(ip) => |ip| < 40
    case Unknown => true
  }

  ghost function PseudoHeader(l3: Carrier): (p: seq<Byte>)
    requires !CutShort(l3)
    ensures |p| % 2 == 0 && |p| <= 36
  {
    match l3
    case Ipv4(ip) => Pseudo4(ip)
    case Ipv6(ip) => Pseudo6(ip)
  }

  method PseudoChecksum(l3: Carrier) returns (sum: nat)
    requires !CutShort(l3)
    ensures sum == HostSum(PseudoHeader(l3)) && sum <= ONES * 18
  {
    match l3
    case Ipv4(ip) => sum := Ipv4PseudoChecksum(ip);
    case Ipv6(ip) => sum := Ipv6PseudoChecksum(ip);
  }

  /** Whether the checksum covers this protocol, where its header ends (in words) and where its
      checksum field is. */
  predicate Covered(proto: nat) {
    proto == TCP || proto == UDP || proto == ICMP
  }

  function Words(proto: nat, segment: seq<Byte>): (n: nat)
    ensures n < 16
  {
    HeaderWords(segment, Cursor(0, proto, |segment|))
  }

  function Field(proto: nat): nat {
    if proto == TCP then 16 else if proto == UDP then 6 else 2
  }

  /** The length of what an IP header carries; it may come out negative. */
  function Carries(l3: Carrier): (n: int)
    requires !CutShort(l3)
    ensures n < 0x10000
  {
    match l3
    case Ipv4(ip) => IpCarries(ip, Cursor(0, ETHERTYPE_IP, |ip|))
    case Ipv6(ip) => IpCarries(ip, Cursor(0, ETHERTYPE_IPV6, |ip|))
  }

  function SegmentPayload(l3: Carrier, proto: nat, segment: seq<Byte>, captured: nat): (n: int)
    requires !CutShort(l3)
    ensures n < 0x10000
  {
    BehindHeader(Carries(l3), proto, Words(proto, segment), captured)
  }

  /** What is summed of the transport header.  The number of words of a TCP header is taken from the copy
      again. */
  ghost function SummedHeader(proto: nat, segment: seq<Byte>, scratch: seq<Byte>): (h: seq<Byte>)
    requires |scratch| == SCRATCH
    ensures |h| <= 60 && |h| % 4 == 0
  {
    var copy := Copied(HeaderAt(segment, Words(proto, segment)), Field(proto), scratch);
    copy[..4 * Words(proto, copy)]
  }

  /** For UDP, ICMP and a TCP header of at least 4 words that is the header, with its checksum field
      zeroed. */
  lemma LengthCopied(proto: nat, segment: seq<Byte>, scratch: seq<Byte>)
    requires |scratch| == SCRATCH && (proto == TCP ==> Words(proto, segment) >= 4)
    ensures SummedHeader(proto, segment, scratch) == Zeroed(HeaderAt(segment, Words(proto, segment)), Field(proto))
  {
    CopiedHeader(HeaderAt(segment, Words(proto, segment)), Field(proto), scratch);
  }

  /** What the checksum of a segment covers besides its header: the pseudo header (not for ICMP) before
      and the payload behind it. */
  ghost function Before(l3: Carrier, proto: nat): (b: seq<Byte>)
    requires !CutShort(l3)
    ensures |b| % 2 == 0 && |b| <= 36
  {
    if proto == ICMP then [] else PseudoHeader(l3)
  }

  ghost function Behind(l3: Carrier, proto: nat, segment: seq<Byte>, captured: nat): (b: seq<Byte>)
    requires !CutShort(l3) && SegmentPayload(l3, proto, segment, captured) >= 0
  {
    Window(segment, 4 * Words(proto, segment), SegmentPayload(l3, proto, segment, captured))
  }

  /** There is something to sum: the IP header is there, the protocol is covered, the transport header was
      captured, and so was the payload that the IP header announces. */
  predicate Summable(l3: Carrier, proto: nat, segment: seq<Byte>, captured: nat) {
    && !CutShort(l3) && Covered(proto)
    && 4 * Words(proto, segment) <= captured
    && 0 <= SegmentPayload(l3, proto, segment, captured) <= captured - 4 * Words(proto, segment)
  }

  /** trace_checksum_transport: the parts are summed one after the other, without overflow, and give the
      checksum of their concatenation.  `segment` is the memory from the transport header on, of which
      `captured` bytes belong to the packet, and `scratch` what the buffer on the stack holds before. */
  method ChecksumTransport(l3: Carrier, proto: nat, segment: seq<Byte>, captured: nat, scratch: seq<Byte>)
    returns (a: Answer)
    requires |scratch| == SCRATCH
    ensures a.Checksum? <==> Summable(l3, proto, segment, captured)
    ensures a.Checksum? ==>
              a.value == Rfc1071(Before(l3, proto) + SummedHeader(proto, segment, scratch) + Behind(l3, proto, segment, captured))
    ensures a.Checksum? && (proto == TCP ==> Words(proto, segment) >= 4) ==>
              a.value == Rfc1071(Before(l3, proto) + Zeroed(HeaderAt(segment, Words(proto, segment)), Field(proto))
                                 + Behind(l3, proto, segment, captured))
    ensures Whole(l3, proto, segment) && captured == |segment| ==>
              a == Checksum(Rfc1071(PseudoOf(l3, proto, |segment|) + Unsummed(proto, segment)))
  {
    hide Rfc1071, Zeroed, Copied, SegmentPayload, Before, Behind, HostSum, Window, Whole, PseudoOf, Unsummed, HeaderWords;
    if Whole(l3, proto, segment) && captured == |segment| {
      WholeSummed(l3, proto, segment);
    }
    BehindIs(l3, proto, segment, captured);
    if CutShort(l3) {
      return NoChecksum;
    }
    if !Covered(proto) {
      return NoChecksum;
    }
    var size := 4 * Words(proto, segment);
    var there, remaining := captured >= size, if captured >= size then captured - size else 0;
    var safety := CopyZeroed(HeaderAt(segment, Words(proto, segment)), Field(proto), scratch);
    var length := SegmentPayload(l3, proto, segment, captured);
    if length < 0 {
      return NoChecksum;
    }
    if remaining < length {
      return NoChecksum;
    }
    if !there {
      return NoChecksum;
    }
    var value := SumSegment(l3, proto, safety[..4 * Words(proto, safety)], Window(segment, size, length));
    a := Checksum(value);
    if proto == TCP ==> Words(proto, segment) >= 4 {
      LengthCopied(proto, segment, scratch);
    }
  }

  lemma BehindIs(l3: Carrier, proto: nat, segment: seq<Byte>, captured: nat)
    ensures !CutShort(l3) && SegmentPayload(l3, proto, segment, captured) >= 0 ==>
              Behind(l3, proto, segment, captured) ==
              Window(segment, 4 * Words(proto, segment), SegmentPayload(l3, proto, segment, captured))
  {
  }

  /** The sum of pseudo header, header and payload, finished. */
  method SumSegment(l3: Carrier, proto: nat, header: seq<Byte>, payload: seq<Byte>) returns (value: nat)
    requires !CutShort(l3) && |header| <= 60 && |header| % 2 == 0 && |payload| < 0x10000
    ensures value == Rfc1071(Before(l3, proto) + header + payload)
  {
    hide *;
    BeforeIs(l3, proto);
    var sum := PseudoChecksum(l3);
    if proto == ICMP {
      sum := 0;
    }
    var first := AddChecksum(header);
    var second := AddChecksum(payload);
    HeaderSum(header);
    Total(sum, first, second);
    sum := Add32(sum, first);
    sum := Add32(sum, second);
    HostSumParts(Before(l3, proto), header);
    HostSumParts(Before(l3, proto) + header, payload);
    value := FinishInHostOrder(sum, Before(l3, proto) + header + payload);
  }

  lemma BeforeIs(l3: Carrier, proto: nat)
    requires !CutShort(l3)
    ensures HostSum(Before(l3, proto)) == (if proto == ICMP then 0 else HostSum(PseudoHeader(l3))) && 0 <= ONES * 18
  {
    hide PseudoHeader;
    NothingToSum();
  }

  lemma HeaderSum(header: seq<Byte>)
    requires |header| <= 60
    ensures HostSum(header) <= ONES * 30
  {
    HostSumBound(header);
  }

  lemma Total(a: nat, b: nat, c: nat)
    requires a <= ONES * 18 && b <= ONES * 30 && c <= ONES * 0x8000
    ensures Add32(Add32(a, b), c) == a + b + c < 0x1_0000_0000
  {
  }

  // ----- Whole segments -----

  /** A whole segment behind an IP header without extension headers, with the lengths and protocol that
      belong to it. */
  predicate Whole(l3: Carrier, proto: nat, segment: seq<Byte>) {
    && (proto == 6 || proto == 17 || proto == 1)
    && (if proto == 6 then |segment| >= 20 && 20 <= 4 * (segment[12] / 16) as int <= |segment| else |segment| >= 8)
    && match l3
       case Ipv4(ip) => |ip| >= 20 && ip[9] == proto && Join(ip[2], ip[3]) == 4 * (ip[0] % 16) as int + |segment|
       case Ipv6(ip) => |ip| >= 40 && ip[6] == proto && Join(ip[4], ip[5]) == |segment|
       case Unknown => false
  }

  /** The pseudo header of a segment of `length` bytes: addresses, protocol and length for IPv4 (section 3.1
      of RFC 793), that of section 8.1 of RFC 2460 for IPv6, none for ICMP. */
  function PseudoOf(l3: Carrier, proto: nat, length: nat): seq<Byte>
    requires !CutShort(l3) && proto < 256
  {
    if proto == 1 then []
    else match l3
      case Ipv4(ip) => ip[12..16] + ip[16..20] + [0, proto] + Number16(length)
      case Ipv6(ip) => UpperPseudo6(ip, length, proto)
  }

  /** The segment with 0 where its checksum is. */
  function Unsummed(proto: nat, segment: seq<Byte>): seq<Byte>
    requires |segment| >= if proto == 6 then 18 else 8
  {
    if proto == 6 then segment[..16] + [0, 0] + segment[18..]
    else if proto == 17 then segment[..6] + [0, 0] + segment[8..]
    else segment[..2] + [0, 0] + segment[4..]
  }

  /** What is summed of a whole segment is its pseudo header and the segment itself, up to the order and
      size of the fields of the IPv6 pseudo header. */
  lemma WholeSummed(l3: Carrier, proto: nat, segment: seq<Byte>)
    requires Whole(l3, proto, segment)
    ensures Summable(l3, proto, segment, |segment|) && (proto == TCP ==> Words(proto, segment) >= 4)
    ensures var summed := Before(l3, proto) + Zeroed(HeaderAt(segment, Words(proto, segment)), Field(proto))
                          + Behind(l3, proto, segment, |segment|);
            Rfc1071(summed) == Rfc1071(PseudoOf(l3, proto, |segment|) + Unsummed(proto, segment))
  {
    WholePayload(l3, proto, segment);
    WholeParts(l3, proto, segment);
    WholePseudo(l3, proto, segment, Unsummed(proto, segment));
    hide *;
    var b, h, p := Before(l3, proto), Zeroed(HeaderAt(segment, Words(proto, segment)), Field(proto)),
      Behind(l3, proto, segment, |segment|);
    assert b + h + p == b + (h + p);
  }

  lemma WholePseudo(l3: Carrier, proto: nat, segment: seq<Byte>, rest: seq<Byte>)
    requires Whole(l3, proto, segment) && !CutShort(l3)
    ensures Rfc1071(Before(l3, proto) + rest) == Rfc1071(PseudoOf(l3, proto, |segment|) + rest)
  {
    hide Rfc1071, Pseudo4, Pseudo6, UpperPseudo6, BigSum;
    if proto != 1 {
      if l3.Ipv6? {
        Pseudo6Exactly(l3.ip, 0, proto, rest);
      } else {
        WholePseudo4(l3, proto, |segment|);
      }
    }
  }

  lemma WholePayload(l3: Carrier, proto: nat, segment: seq<Byte>)
    requires Whole(l3, proto, segment)
    ensures !CutShort(l3) && SegmentPayload(l3, proto, segment, |segment|) == |segment| - 4 * Words(proto, segment) >= 0
    ensures Summable(l3, proto, segment, |segment|) && (proto == TCP ==> Words(proto, segment) >= 4)
  {
  }

  lemma WholePseudo4(l3: Carrier, proto: nat, length: nat)
    requires l3.Ipv4? && |l3.ip| >= 20 && proto == l3.ip[9] as nat
    requires Join(l3.ip[2], l3.ip[3]) == 4 * (l3.ip[0] % 16) as int + length
    ensures Before(l3, proto) == PseudoOf(l3, proto, length)
  {
    assert Number16(proto) == [0, proto];
    LengthIs(l3.ip, length);
    hide Number16, SegmentLength;
  }

  lemma LengthIs(ip: seq<Byte>, length: nat)
    requires |ip| >= 20 && Join(ip[2], ip[3]) == 4 * (ip[0] % 16) as int + length
    ensures SegmentLength(ip) == length
  {
  }

  lemma WholeParts(l3: Carrier, proto: nat, segment: seq<Byte>)
    requires Whole(l3, proto, segment) && !CutShort(l3)
    requires SegmentPayload(l3, proto, segment, |segment|) == |segment| - 4 * Words(proto, segment) >= 0
    ensures Zeroed(HeaderAt(segment, Words(proto, segment)), Field(proto)) + Behind(l3, proto, segment, |segment|)
            == Unsummed(proto, segment)
  {
    var w := 4 * Words(proto, segment);
    SegmentParts(segment, w);
    ZeroedParts(segment, w, Field(proto));
    hide SegmentPayload, Zeroed, Window;
  }

  lemma SegmentParts(segment: seq<Byte>, w: nat)
    requires w <= |segment|
    ensures Window(segment, 0, w) == segment[..w] && Window(segment, w, |segment| - w) == segment[w..]
  {
  }

  lemma ZeroedParts(segment: seq<Byte>, w: nat, at: nat)
    requires at + 2 <= w <= |segment|
    ensures Zeroed(segment[..w], at) + segment[w..] == segment[..at] + [0, 0] + segment[at + 2..]
  {
  }

  /** The checksum does not depend on what the buffer held before. */
  ghost predicate Determined(before: seq<Byte>, proto: nat, segment: seq<Byte>, behind: seq<Byte>) {
    forall s, s' :: |s| == |s'| == SCRATCH ==>
      Rfc1071(before + SummedHeader(proto, segment, s) + behind) == Rfc1071(before + SummedHeader(proto, segment, s') + behind)
  }

  /** That is so exactly unless it is a TCP header of less than 4 words, whose length is not in the
      copy. */
  lemma DeterminedExactly(before: seq<Byte>, proto: nat, segment: seq<Byte>, behind: seq<Byte>)
    requires |before| % 2 == 0
    ensures Determined(before, proto, segment, behind) <==> (proto == TCP ==> Words(proto, segment) >= 4)
  {
    hide Rfc1071;
    if proto == TCP ==> Words(proto, segment) >= 4 {
      forall s, s' | |s| == |s'| == SCRATCH
        ensures SummedHeader(proto, segment, s) == SummedHeader(proto, segment, s')
      {
        LengthCopied(proto, segment, s);
        LengthCopied(proto, segment, s');
      }
    } else {
      var s := seq<Byte>(SCRATCH, i => if i == 12 then 64 else 0);
      var s' := s[15 := 1];
      LeftoverHeader(segment, s);
      LeftoverHeader(segment, s');
      var n, h, x := 4 * Words(TCP, segment), HeaderAt(segment, Words(TCP, segment)), SummedHeader(proto, segment, s);
      hide SummedHeader, HeaderAt, Words;
      assert s'[n..16] == s[n..16][15 - n := 1];
      assert h + s'[n..16] == x[15 := 1];
      ByteMatters(before, x, 14, behind);
    }
  }

  lemma LeftoverHeader(segment: seq<Byte>, s: seq<Byte>)
    requires |s| == SCRATCH && Words(TCP, segment) < 4 && s[12] == 64
    ensures var h, n := SummedHeader(TCP, segment, s), 4 * Words(TCP, segment);
            |h| == 16 && h == HeaderAt(segment, Words(TCP, segment)) + s[n..16]
  {
  }

  /** A TCP header of which only 8 bytes were captured has no checksum, although no payload is missing. */
  lemma HeaderCutShort(l3: Carrier, segment: seq<Byte>)
    requires Words(TCP, segment) >= 5
    ensures !Summable(l3, TCP, segment, 8) && (!CutShort(l3) ==> SegmentPayload(l3, TCP, segment, 8) == 0)
  {
  }

  // ----- Which pseudo header -----

  /** Two pseudo headers give the same checksum exactly if their sums differ by a multiple of 0xFFFF and
      not just one of the wholes sums to zero. */
  lemma PrefixMatters(p: seq<Byte>, q: seq<Byte>, rest: seq<Byte>)
    requires |p| % 2 == 0 && |q| % 2 == 0
    ensures Rfc1071(p + rest) == Rfc1071(q + rest) <==>
            (BigSum(p) - BigSum(q)) % ONES == 0 && (BigSum(p) + BigSum(rest) == 0 <==> BigSum(q) + BigSum(rest) == 0)
  {
    hide BigSum, OnesSum, Carried;
    BigSumParts(p, rest);
    BigSumParts(q, rest);
    OnesSumIs(p + rest);
    OnesSumIs(q + rest);
    CarriedSame(BigSum(p) + BigSum(rest), BigSum(q) + BigSum(rest));
  }

  lemma CarriedSame(s: nat, t: nat)
    ensures Carried(s) == Carried(t) <==> (s - t) % ONES == 0 && (s == 0 <==> t == 0)
  {
    hide Carried;
    var j := CarriedOff(s);
    var k := CarriedOff(t);
    var d: int := Carried(s) - Carried(t);
    var i: int := (j as int) - (k as int);
    assert s - t == d + ONES * i;
    SmallMultiple(d, i);
  }

  lemma SmallMultiple(d: int, k: int)
    requires -(ONES as int) <= d <= ONES
    ensures (d + ONES * k) % ONES == 0 <==> d == 0 || d == ONES || d == -(ONES as int)
  {
    assert (d + ONES * k) % ONES == d % ONES by {
      Shifted(d, k);
    }
  }

  lemma Shifted(d: int, k: int)
    ensures (d + ONES * k) % ONES == d % ONES
  {
    var q := d / ONES;
    assert d + ONES * k == ONES * (q + k) + d % ONES;
  }

  /** The pseudo header of section 8.1 of RFC 2460, for an upper-layer packet of `length` bytes of
      protocol `proto`. */
  function UpperPseudo6(ip: seq<Byte>, length: nat, proto: Byte): seq<Byte>
    requires |ip| >= 40
  {
    ip[8..24] + ip[24..40] + (Number16(length / 0x10000) + Number16(length)) + ([0, 0] + Number16(proto))
  }

  lemma {:induction false} BigSumParts(a: seq<Byte>, b: seq<Byte>)
    requires |a| % 2 == 0
    ensures BigSum(a + b) == BigSum(a) + BigSum(b)
    decreases |a|
  {
    if |a| == 0 {
      assert a + b == b;
    } else {
      assert (a + b)[2..] == a[2..] + b;
      BigSumParts(a[2..], b);
    }
  }

  lemma BigSumNumber(n: nat)
    requires n < 0x10000
    ensures BigSum(Number16(n)) == n
  {
    JoinHalves(n);
    assert Number16(n)[2..] == [];
  }

  lemma UpperSum(ip: seq<Byte>, length: nat, proto: Byte)
    requires |ip| >= 40 && length < 0x10000
    ensures |UpperPseudo6(ip, length, proto)| % 2 == 0
    ensures BigSum(UpperPseudo6(ip, length, proto)) == BigSum(ip[8..24] + ip[24..40]) + length + proto
  {
    hide BigSum, Number16;
    var addresses := ip[8..24] + ip[24..40];
    BigSumNumber(proto);
    BigSumNumber(0);
    BigSumNumber(length);
    BigSumParts(Number16(0), Number16(length));
    BigSumParts([0, 0], Number16(proto));
    BigSumParts(addresses, Number16(0) + Number16(length));
    BigSumParts(addresses + (Number16(0) + Number16(length)), [0, 0] + Number16(proto));
    ZeroSum();
  }

  lemma FixedSum6(ip: seq<Byte>)
    requires |ip| >= 40
    ensures BigSum(Pseudo6(ip)) == BigSum(ip[8..24] + ip[24..40]) + Join(ip[4], ip[5]) + ip[6]
  {
    hide BigSum, Number16;
    var addresses := ip[8..24] + ip[24..40];
    LengthField(ip);
    BigSumNumber(ip[6]);
    BigSumParts(addresses, ip[4..6]);
    BigSumParts(addresses + ip[4..6], Number16(ip[6]));
  }

  lemma FixedSum4(ip: seq<Byte>)
    requires |ip| >= 20
    ensures BigSum(Pseudo4(ip)) == BigSum(ip[12..16] + ip[16..20]) + ip[9] + SegmentLength(ip)
  {
    hide BigSum, Number16;
    var addresses := ip[12..16] + ip[16..20];
    BigSumNumber(ip[9]);
    BigSumNumber(SegmentLength(ip));
    BigSumParts(addresses, Number16(ip[9]));
    BigSumParts(addresses + Number16(ip[9]), Number16(SegmentLength(ip)));
  }

  /** The code takes length and protocol from the fixed header.  The checksum is that of the upper layer
      exactly if the bytes of extension headers in between make up for the difference of the protocol
      numbers, modulo 0xFFFF, where the latter has not just zeros to sum; without extension headers they
      do. */
  lemma Pseudo6Exactly(ip: seq<Byte>, extensions: nat, proto: Byte, rest: seq<Byte>)
    requires |ip| >= 40 && extensions <= Join(ip[4], ip[5])
    ensures var upper := UpperPseudo6(ip, Join(ip[4], ip[5]) - extensions, proto);
            Rfc1071(Pseudo6(ip) + rest) == Rfc1071(upper + rest) <==>
            (extensions + ip[6] - proto) % ONES == 0 && (extensions + ip[6] == proto as nat || BigSum(upper) + BigSum(rest) > 0)
    ensures proto > 0 ==> BigSum(UpperPseudo6(ip, Join(ip[4], ip[5]) - extensions, proto)) > 0
  {
    hide BigSum, Rfc1071, Pseudo6, UpperPseudo6;
    var length := Join(ip[4], ip[5]) - extensions;
    UpperSum(ip, length, proto);
    FixedSum6(ip);
    PrefixMatters(Pseudo6(ip), UpperPseudo6(ip, length, proto), rest);
    var d: int := extensions + ip[6] - proto;
    assert BigSum(Pseudo6(ip)) - BigSum(UpperPseudo6(ip, length, proto)) == d;
    if d < 0 {
      SmallMultiple(d, 0);
    }
  }

  /** UDP behind a hop-by-hop header of 8 bytes is summed wrongly, whatever the addresses and data. */
  lemma HopByHopUdp(ip: seq<Byte>, rest: seq<Byte>)
    requires |ip| >= 40 && ip[6] == 0 && Join(ip[4], ip[5]) >= 8
    ensures Rfc1071(Pseudo6(ip) + rest) != Rfc1071(UpperPseudo6(ip, Join(ip[4], ip[5]) - 8, UDP) + rest)
  {
    hide Rfc1071, Pseudo6, UpperPseudo6;
    Pseudo6Exactly(ip, 8, UDP, rest);
  }

  /** A segment in IPv6 in IPv4 is summed with the pseudo header of the outer header.  The checksum is that
      of the inner one exactly if addresses, lengths and protocols of both sum to the same modulo 0xFFFF. */
  lemma TunnelledExactly(outer: seq<Byte>, inner: seq<Byte>, length: nat, proto: Byte, rest: seq<Byte>)
    requires |outer| >= 20 && outer[9] == IPPROTO_IPV6 && |inner| >= 40 && length < 0x10000 && proto > 0
    ensures Rfc1071(Pseudo4(outer) + rest) == Rfc1071(UpperPseudo6(inner, length, proto) + rest) <==>
            (BigSum(outer[12..16] + outer[16..20]) + IPPROTO_IPV6 + SegmentLength(outer)
             - (BigSum(inner[8..24] + inner[24..40]) + length + proto)) % ONES == 0
  {
    hide BigSum, Rfc1071, Pseudo4, UpperPseudo6;
    UpperSum(inner, length, proto);
    FixedSum4(outer);
    PrefixMatters(Pseudo4(outer), UpperPseudo6(inner, length, proto), rest);
  }

  /** The address 2001:db8::x. */
  function Documented(x: Byte): (a: seq<Byte>)
    ensures |a| == 16
  {
    [0x20, 1, 0x0D, 0xB8] + Window([], 0, 10) + [0, x]
  }

  lemma {:induction false} NothingSums(n: nat)
    ensures BigSum(Window([], 0, n)) == 0
  {
    if n >= 2 {
      assert Window([], 0, n)[2..] == Window([], 0, n - 2);
      NothingSums(n - 2);
    }
  }

  lemma DocumentedSum(x: Byte)
    ensures BigSum(Documented(x)) == 0x2DB9 + x
  {
    BigSumParts([0x20, 1, 0x0D, 0xB8], Window([], 0, 10));
    BigSumParts([0x20, 1, 0x0D, 0xB8] + Window([], 0, 10), [0, x]);
    NothingSums(10);
    assert [0x20, 1, 0x0D, 0xB8][2..] == [0x0D, 0xB8] && [0x0D, 0xB8][2..] == [] && [0, x][2..] == [];
  }

  lemma TenSum(x: Byte)
    ensures BigSum([10, 0, 0, x]) == 2560 + x
  {
    assert [10, 0, 0, x][2..] == [0, x] && [0, x][2..] == [];
    assert BigSum([0, x]) == x;
  }

  /** TCP without data from 2001:db8::1 to 2001:db8::2, tunnelled from 10.0.0.1 to 10.0.0.2, is summed
      wrongly. */
  lemma TunnelledTcp(rest: seq<Byte>)
    ensures var outer := [0x45, 0, 0, 80, 0, 0, 0, 0, 64, 41, 0, 0] + [10, 0, 0, 1] + [10, 0, 0, 2];
            var inner := [0x60, 0, 0, 0, 0, 20, 6, 64] + Documented(1) + Documented(2);
            Rfc1071(Pseudo4(outer) + rest) != Rfc1071(UpperPseudo6(inner, 20, TCP) + rest)
  {
    hide BigSum, Documented, Rfc1071, Pseudo4, UpperPseudo6;
    var outer: seq<Byte> := [0x45, 0, 0, 80, 0, 0, 0, 0, 64, 41, 0, 0] + [10, 0, 0, 1] + [10, 0, 0, 2];
    var inner: seq<Byte> := [0x60, 0, 0, 0, 0, 20, 6, 64] + Documented(1) + Documented(2);
    TunnelledExactly(outer, inner, 20, TCP, rest);
    assert outer[12..16] == [10, 0, 0, 1] && outer[16..20] == [10, 0, 0, 2];
    assert inner[8..24] == Documented(1) && inner[24..40] == Documented(2);
    BigSumParts([10, 0, 0, 1], [10, 0, 0, 2]);
    BigSumParts(Documented(1), Documented(2));
    TenSum(1);
    TenSum(2);
    DocumentedSum(1);
    DocumentedSum(2);
    assert SegmentLength(outer) == 60;
  }

  lemma LengthField(ip: seq<Byte>)
    requires |ip| >= 40
    ensures BigSum(ip[4..6]) == Join(ip[4], ip[5])
  {
    assert ip[4..6][2..] == [];
  }

  lemma ZeroSum()
    ensures BigSum([0, 0]) == 0
  {
    assert [0, 0][2..] == [];
  }

  lemma NothingToSum()
    ensures HostSum([]) == 0
  {
  }
}
