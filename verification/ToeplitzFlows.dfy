/** Direction symmetry of the Toeplitz hash: the two directions of a flow hash alike under a
    bidirectional key. */
module ToeplitzFlows {
  import opened Toeplitz

  // ----- A key repeated every 16 bits -----

  /** Entries 16 apart are equal wherever both windows lie inside the key. */
  ghost predicate Periodic(cache: seq<bv32>) {
    |cache| == WINDOWS && forall i :: 0 <= i <= 272 ==> cache[i] == cache[i + 16]
  }

  lemma BiKeyBits(key: seq<bv8>, i: nat)
    requires BiKey(key) && i + 16 < 8 * KEY_BYTES
    ensures Bit(key, i) == Bit(key, 16 + i)
  {
    hide GetBit;
    assert key[i / 8] == key[i / 8 + 2];
    assert (16 + i) / 8 == i / 8 + 2 && (16 + i) % 8 == i % 8;
  }

  /** The cache of a bidirectional key repeats every 16 entries up to entry 288. */
  lemma BiKeyPeriodic(key: seq<bv8>, cache: seq<bv32>)
    requires BiKey(key) && Expansion(key, cache)
    ensures Periodic(cache)
  {
    hide Bit, Swap;
    forall i | 0 <= i <= 272 ensures cache[i] == cache[i + 16] {
      forall k: nat | k < i + 32 ensures Bit(key, k) == Bit(key, 16 + k) {
        BiKeyBits(key, k);
      }
      BitsAgree(key, key, 16, i, 32);
    }
  }

  lemma {:induction false} FoldPeriodic(cache: seq<bv32>, data: seq<bv8>, off: nat, k: nat)
    requires Periodic(cache) && off + k <= 273
    ensures Fold(cache[off..], data, k) == Fold(cache[off + 16..], data, k)
    decreases k
  {
    hide Xor, Bit;
    if k > 0 {
      FoldPeriodic(cache, data, off, k - 1);
      assert cache[off + k - 1] == cache[off + k - 1 + 16];
    }
  }

  /** Data hashed from any 16-bit boundary gives the same. */
  lemma {:induction false} FoldAnywhere(cache: seq<bv32>, data: seq<bv8>, m: nat, k: nat)
    requires Periodic(cache) && 16 * m + k <= 289
    ensures Fold(cache[16 * m..], data, k) == Fold(cache, data, k)
    decreases m
  {
    hide Fold;
    if m == 0 {
      assert cache[16 * m..] == cache;
    } else {
      FoldAnywhere(cache, data, m - 1, k);
      FoldPeriodic(cache, data, 16 * (m - 1), k);
    }
  }

  /** Two neighbouring fields of whole 16-bit words may be exchanged. */
  lemma ExchangeFields(cache: seq<bv32>, a: seq<bv8>, b: seq<bv8>)
    requires Periodic(cache) && |a| % 2 == 0 && |b| % 2 == 0 && 8 * (|a| + |b|) <= 288
    ensures Fold(cache, a + b, 8 * (|a| + |b|)) == Fold(cache, b + a, 8 * (|a| + |b|))
  {
    hide Fold, Xor;
    FoldConcat(cache, a, b, 8 * |b|);
    FoldConcat(cache, b, a, 8 * |a|);
    FoldAnywhere(cache, b, |a| / 2, 8 * |b|);
    FoldAnywhere(cache, a, |b| / 2, 8 * |a|);
    XorComm(Fold(cache, a, 8 * |a|), Fold(cache, b, 8 * |b|));
  }

  // ----- Hashing packets -----

  const ETHERTYPE_IP: nat := 0x0800
  const ETHERTYPE_IPV6: nat := 0x86DD
  const IPPROTO_TCP: nat := 6
  const IPPROTO_UDP: nat := 17

  /** Which header combinations take part in the hash. */
  datatype HashTypes = HashTypes(ipv4: bool, tcpIpv4: bool, udpIpv4: bool, ipv6: bool, tcpIpv6: bool, udpIpv6: bool)

  /** What a layer accessor returned: a type and the bytes remaining from that header on. */
  datatype Layer = Missing | Layer(kind: nat, bytes: seq<bv8>)

  /** The addresses and their length in bytes, when they are to be hashed. */
  function Addresses(types: HashTypes, l3: Layer): (a: seq<bv8>)
    ensures |a| == 0 || |a| == 8 || |a| == 32
  {
    if l3.Missing? then []
    else if l3.kind == ETHERTYPE_IP && (types.ipv4 || types.tcpIpv4 || types.udpIpv4) && |l3.bytes| >= 20 then
      l3.bytes[12..20]
    else if l3.kind == ETHERTYPE_IPV6 && (types.ipv6 || types.tcpIpv6 || types.udpIpv6) && |l3.bytes| >= 40 then
      l3.bytes[8..40]
    else []
  }

  /** The ports, when they are to be hashed. */
  function Ports(types: HashTypes, l3: Layer, l4: Layer): (p: seq<bv8>)
    ensures |p| == 0 || |p| == 4
  {
    if l3.Missing? || l4.Missing? || |l4.bytes| < 4 || Addresses(types, l3) == [] then []
    else
      var v4 := l3.kind == ETHERTYPE_IP;
      var tcp, udp := if v4 then types.tcpIpv4 else types.tcpIpv6, if v4 then types.udpIpv4 else types.udpIpv6;
      if (l4.kind == IPPROTO_TCP && tcp) || (l4.kind == IPPROTO_UDP && udp) then l4.bytes[..4] else []
  }

  predicate OtherProtocol(l3: Layer) {
    l3.Layer? && l3.kind != ETHERTYPE_IP && l3.kind != ETHERTYPE_IPV6
  }

  /** toeplitz_hash_packet */
  method HashPacket(conf: Conf, types: HashTypes, l3: Layer, l4: Layer) returns (res: bv32)
    requires conf.Valid()
    ensures OtherProtocol(l3) ==> res == 0
    ensures !OtherProtocol(l3) ==>
              var data := Addresses(types, l3) + Ports(types, l3, l4);
              res == Fold(conf.cache[..], data, 8 * |data|)
  {
    hide Fold, Xor;
    res := 0;
    var offset, acceptTcp, acceptUdp := 0, false, false;
    ghost var a, p := Addresses(types, l3), Ports(types, l3, l4);
    assert Fold(conf.cache[..], [], 0) == 0 by { EmptyFold(conf.cache[..]); }
    if l3.Layer? {
      if l3.kind == ETHERTYPE_IP {
        if (types.ipv4 || types.tcpIpv4 || types.udpIpv4) && |l3.bytes| >= 20 {
          res := FirstHash(conf, l3.bytes[12..20]);
          offset, acceptTcp, acceptUdp := 8, types.tcpIpv4, types.udpIpv4;
        }
      } else if l3.kind == ETHERTYPE_IPV6 {
        if (types.ipv6 || types.tcpIpv6 || types.udpIpv6) && |l3.bytes| >= 40 {
          res := FirstHash(conf, l3.bytes[8..40]);
          offset, acceptTcp, acceptUdp := 32, types.tcpIpv6, types.udpIpv6;
        }
      } else {
        return 0;
      }
    }
    assert res == Fold(conf.cache[..], a, 8 * |a|) && offset == |a|;
    ghost var before := res;
    if l4.Layer? {
      if l4.kind == IPPROTO_UDP {
        if acceptUdp && |l4.bytes| >= 4 {
          res := Hash(conf, l4.bytes[..4], offset, res);
        }
      } else if l4.kind == IPPROTO_TCP {
        if acceptTcp && |l4.bytes| >= 4 {
          res := Hash(conf, l4.bytes[..4], offset, res);
        }
      }
    }
    if p == [] {
      assert a + p == a;
    } else {
      FoldConcat(conf.cache[..], a, p, 32);
      assert conf.cache[..][8 * |a|..] == conf.cache[8 * offset..];
    }
  }

  lemma EmptyFold(cache: seq<bv32>)
    ensures Fold(cache, [], 0) == 0
  {
  }

  /** The same packet going the other way: source and destination exchanged. */
  function ReversedL3(l3: Layer): Layer {
    if l3.Missing? then l3
    else if l3.kind == ETHERTYPE_IP && |l3.bytes| >= 20 then
      l3.(bytes := l3.bytes[..12] + l3.bytes[16..20] + l3.bytes[12..16] + l3.bytes[20..])
    else if l3.kind == ETHERTYPE_IPV6 && |l3.bytes| >= 40 then
      l3.(bytes := l3.bytes[..8] + l3.bytes[24..40] + l3.bytes[8..24] + l3.bytes[40..])
    else l3
  }

  function ReversedL4(l4: Layer): Layer {
    if l4.Missing? || |l4.bytes| < 4 then l4
    else l4.(bytes := l4.bytes[2..4] + l4.bytes[..2] + l4.bytes[4..])
  }

  /** Exchange the halves of a field. */
  function Exchanged(s: seq<bv8>): (r: seq<bv8>)
    requires |s| % 2 == 0
  {
    s[|s| / 2..] + s[..|s| / 2]
  }

  lemma ReversedAddresses(types: HashTypes, l3: Layer)
    ensures Addresses(types, ReversedL3(l3)) == Exchanged(Addresses(types, l3))
  {
    if l3.Layer? && l3.kind == ETHERTYPE_IP && |l3.bytes| >= 20 {
      var r, a := ReversedL3(l3).bytes, l3.bytes[12..20];
      assert r[12..20] == l3.bytes[16..20] + l3.bytes[12..16];
      assert a[4..] == l3.bytes[16..20] && a[..4] == l3.bytes[12..16];
    } else if l3.Layer? && l3.kind == ETHERTYPE_IPV6 && |l3.bytes| >= 40 {
      var r, a := ReversedL3(l3).bytes, l3.bytes[8..40];
      assert r[8..40] == l3.bytes[24..40] + l3.bytes[8..24];
      assert a[16..] == l3.bytes[24..40] && a[..16] == l3.bytes[8..24];
    }
  }

  lemma ReversedPorts(types: HashTypes, l3: Layer, l4: Layer)
    ensures Ports(types, ReversedL3(l3), ReversedL4(l4)) == Exchanged(Ports(types, l3, l4))
  {
    hide Addresses;
    ReversedAddresses(types, l3);
    if l4.Layer? && |l4.bytes| >= 4 {
      var r, p := ReversedL4(l4).bytes, l4.bytes[..4];
      assert r[..4] == l4.bytes[2..4] + l4.bytes[..2];
      assert p[2..] == l4.bytes[2..4] && p[..2] == l4.bytes[..2];
    }
  }

  lemma ExchangeHalves(cache: seq<bv32>, s: seq<bv8>)
    requires Periodic(cache) && |s| % 4 == 0 && |s| <= 32
    ensures Fold(cache, Exchanged(s), 8 * |s|) == Fold(cache, s, 8 * |s|)
  {
    hide Fold;
    var a, b := s[..|s| / 2], s[|s| / 2..];
    assert s == a + b;
    ExchangeFields(cache, a, b);
  }

  lemma HashedParts(cache: seq<bv32>, a: seq<bv8>, p: seq<bv8>)
    requires Periodic(cache) && |a| % 2 == 0 && |a| <= 32 && |p| <= 4
    ensures Fold(cache, a + p, 8 * |a + p|) == Xor(Fold(cache, a, 8 * |a|), Fold(cache, p, 8 * |p|))
  {
    hide Fold, Xor;
    FoldConcat(cache, a, p, 8 * |p|);
    FoldAnywhere(cache, p, |a| / 2, 8 * |p|);
  }

  /** Under a bidirectional key a packet and its reverse hash to the same value, whichever header
      fields are configured to take part. */
  lemma BothDirectionsAlike(key: seq<bv8>, cache: seq<bv32>, types: HashTypes, l3: Layer, l4: Layer)
    requires BiKey(key) && Expansion(key, cache)
    ensures OtherProtocol(ReversedL3(l3)) == OtherProtocol(l3)
    ensures var data := Addresses(types, l3) + Ports(types, l3, l4);
            var data' := Addresses(types, ReversedL3(l3)) + Ports(types, ReversedL3(l3), ReversedL4(l4));
            |data'| == |data| && Fold(cache, data', 8 * |data'|) == Fold(cache, data, 8 * |data|)
  {
    hide Addresses, Ports, Fold, Periodic, Expansion, BiKey, OtherProtocol, ReversedL3, ReversedL4, Exchanged;
    SameProtocol(l3);
    BiKeyPeriodic(key, cache);
    ReversedAddresses(types, l3);
    ReversedPorts(types, l3, l4);
    ExchangedParts(cache, Addresses(types, l3), Ports(types, l3, l4));
  }

  lemma SameProtocol(l3: Layer)
    ensures OtherProtocol(ReversedL3(l3)) == OtherProtocol(l3)
  {
  }

  lemma ExchangedParts(cache: seq<bv32>, a: seq<bv8>, p: seq<bv8>)
    requires Periodic(cache) && |a| % 4 == 0 && |a| <= 32 && |p| % 4 == 0 && |p| <= 4
    ensures |Exchanged(a) + Exchanged(p)| == |a + p|
    ensures Fold(cache, Exchanged(a) + Exchanged(p), 8 * |a + p|) == Fold(cache, a + p, 8 * |a + p|)
  {
    hide Fold, Xor, Periodic;
    ExchangeHalves(cache, a);
    ExchangeHalves(cache, p);
    HashedParts(cache, a, p);
    HashedParts(cache, Exchanged(a), Exchanged(p));
  }

  // ----- Which caches are symmetric -----

  /** A string of `n` bytes with only bit `i` set. */
  function OneBit(n: nat, i: nat): (s: seq<bv8>)
    requires i < 8 * n
    ensures |s| == n
  {
    seq(n, j => if j == i / 8 then Mask(i % 8) else 0)
  }

  function Zeros(n: nat): (s: seq<bv8>)
    ensures |s| == n
  {
    seq(n, _ => 0)
  }

  lemma MaskMeets(a: nat, b: nat)
    requires a < 8 && b < 8
    ensures GetBit(Mask(a), b) <==> a == b
    ensures !GetBit(0, b)
  {
  }

  lemma OneBitBits(n: nat, i: nat, j: nat)
    requires i < 8 * n
    ensures Bit(OneBit(n, i), j) <==> j == i
    ensures !Bit(Zeros(n), j)
  {
    MaskMeets(i % 8, j % 8);
    hide GetBit, Mask;
  }

  lemma {:induction false} FoldOneBit(cache: seq<bv32>, n: nat, i: nat, k: nat)
    requires i < 8 * n && k <= |cache|
    ensures Fold(cache, OneBit(n, i), k) == if i < k then cache[i] else 0
    ensures Fold(cache, Zeros(n), k) == 0
    decreases k
  {
    hide Xor, Bit, OneBit, Zeros;
    if k > 0 {
      FoldOneBit(cache, n, i, k - 1);
      OneBitBits(n, i, k - 1);
      XorZero(cache[k - 1]);
      if i < k {
        XorZero(cache[i]);
      }
      XorZero(0);
    }
  }

  ghost predicate SymmetricFields(cache: seq<bv32>, n: nat)
    requires 16 * n <= |cache|
  {
    forall a: seq<bv8>, b: seq<bv8> :: |a| == n && |b| == n ==> Fold(cache, a + b, 16 * n) == Fold(cache, b + a, 16 * n)
  }

  /** Two n-byte fields can be exchanged under the hash exactly when the cache repeats at their distance. */
  lemma SymmetricExactly(cache: seq<bv32>, n: nat)
    requires 16 * n <= |cache|
    ensures SymmetricFields(cache, n) <==> forall i :: 0 <= i < 8 * n ==> cache[i] == cache[i + 8 * n]
  {
    hide Fold, Xor, OneBit, Zeros;
    if SymmetricFields(cache, n) {
      forall i | 0 <= i < 8 * n ensures cache[i] == cache[i + 8 * n] {
        var a, b := OneBit(n, i), Zeros(n);
        FoldConcat(cache, a, b, 8 * n);
        FoldConcat(cache, b, a, 8 * n);
        FoldOneBit(cache, n, i, 8 * n);
        FoldOneBit(cache[8 * n..], n, i, 8 * n);
        XorZero(cache[i]);
        XorZero(cache[i + 8 * n]);
        assert Fold(cache, a + b, 16 * n) == Fold(cache, b + a, 16 * n);
      }
    }
    if forall i :: 0 <= i < 8 * n ==> cache[i] == cache[i + 8 * n] {
      forall a: seq<bv8>, b: seq<bv8> | |a| == n && |b| == n
        ensures Fold(cache, a + b, 16 * n) == Fold(cache, b + a, 16 * n)
      {
        FoldConcat(cache, a, b, 8 * n);
        FoldConcat(cache, b, a, 8 * n);
        FoldSame(cache, cache[8 * n..], a, 8 * n);
        FoldSame(cache, cache[8 * n..], b, 8 * n);
        XorComm(Fold(cache, a, 8 * n), Fold(cache, b, 8 * n));
      }
    }
  }

  lemma {:induction false} FoldSame(c: seq<bv32>, d: seq<bv32>, data: seq<bv8>, k: nat)
    requires k <= |c| && k <= |d| && forall i :: 0 <= i < k ==> c[i] == d[i]
    ensures Fold(c, data, k) == Fold(d, data, k)
    decreases k
  {
    hide Xor, Bit;
    if k > 0 {
      FoldSame(c, d, data, k - 1);
    }
  }

  /** toeplitz_init_config for a bidirectional key, and a packet hashed in both directions: the same both
      ways, and the RSS hash of the fields under that key. */
  method HashBothWays(lo: bv8, hi: bv8, types: HashTypes, l3: Layer, l4: Layer) returns (there: bv32, back: bv32)
    ensures there == back
    ensures Swap(there) == if OtherProtocol(l3) then 0
                           else Rss(Repeated(lo, hi), Addresses(types, l3) + Ports(types, l3, l4), 0)
  {
    var conf := new Conf();
    conf.CreateBiKey(lo, hi);
    conf.ExpandKey();
    BothDirectionsAlike(conf.key[..], conf.cache[..], types, l3, l4);
    SwapXor(0, 0);
    hide Fold, Addresses, Ports, ReversedL3, ReversedL4, Rss, Swap, Repeated;
    HashIsRss(conf.key[..], conf.cache[..], Addresses(types, l3) + Ports(types, l3, l4));
    there := HashPacket(conf, types, l3, l4);
    back := HashPacket(conf, types, ReversedL3(l3), ReversedL4(l4));
  }

  // ----- Flows, as their packets are written -----

  /** A packet of a flow: what comes before the addresses in the IP header, the addresses, options or
      extension headers, then the protocol behind them, its ports and the rest of the segment. */
  datatype Flow = Flow(v6: bool, start: seq<bv8>, source: seq<bv8>, destination: seq<bv8>, options: seq<bv8>,
                       protocol: nat, sourcePort: seq<bv8>, destinationPort: seq<bv8>, segment: seq<bv8>) {
    predicate WellFormed() {
      && |start| == (if v6 then 8 else 12)
      && |source| == |destination| == (if v6 then 16 else 4)
      && |sourcePort| == |destinationPort| == 2
    }

    function Network(): Layer {
      Layer(if v6 then 0x86DD else 0x0800, start + source + destination + options)
    }

    function Segment(): Layer {
      Layer(protocol, sourcePort + destinationPort + segment)
    }

    /** A packet that goes the other way. */
    function Reply(): Flow {
      this.(source := destination, destination := source, sourcePort := destinationPort, destinationPort := sourcePort)
    }

    /** What is to be hashed: source and destination address as soon as anything is to be hashed for that
        version of IP, and the ports if the protocol is one for which that was asked. */
    function Hashed(types: HashTypes): seq<bv8> {
      if v6 then Select(types.ipv6, types.tcpIpv6, types.udpIpv6) else Select(types.ipv4, types.tcpIpv4, types.udpIpv4)
    }

    function Select(ip: bool, tcp: bool, udp: bool): seq<bv8> {
      Fields(ip || tcp || udp, (protocol == 6 && tcp) || (protocol == 17 && udp))
    }

    function Fields(addresses: bool, ports: bool): seq<bv8> {
      if !addresses then []
      else if ports then source + destination + sourcePort + destinationPort
      else source + destination
    }
  }

  /** The fields picked from the headers are those of the flow, and the reverse of its headers are the
      headers of the reply. */
  lemma FlowHashed(types: HashTypes, f: Flow)
    requires f.WellFormed()
    ensures Addresses(types, f.Network()) + Ports(types, f.Network(), f.Segment()) == f.Hashed(types)
    ensures ReversedL3(f.Network()) == f.Reply().Network() && ReversedL4(f.Segment()) == f.Reply().Segment()
    ensures !OtherProtocol(f.Network())
  {
    FlowAddresses(types, f);
    FlowReversed(f);
    var l4 := f.Segment();
    assert l4.bytes[..4] == f.sourcePort + f.destinationPort;
    hide Addresses, ReversedL3, ReversedL4;
    assert f.source + f.destination + (f.sourcePort + f.destinationPort) ==
           f.source + f.destination + f.sourcePort + f.destinationPort;
  }

  lemma FlowAddresses(types: HashTypes, f: Flow)
    requires f.WellFormed()
    ensures Addresses(types, f.Network()) ==
            if (if f.v6 then types.ipv6 || types.tcpIpv6 || types.udpIpv6 else types.ipv4 || types.tcpIpv4 || types.udpIpv4)
            then f.source + f.destination else []
  {
    var b, n := f.Network().bytes, |f.start|;
    assert b[n..n + |f.source| + |f.destination|] == f.source + f.destination;
  }

  lemma FlowReversed(f: Flow)
    requires f.WellFormed()
    ensures ReversedL3(f.Network()) == f.Reply().Network() && ReversedL4(f.Segment()) == f.Reply().Segment()
  {
    var b, n, k := f.Network().bytes, |f.start|, |f.source|;
    assert b[..n] == f.start && b[n..n + k] == f.source && b[n + k..n + 2 * k] == f.destination && b[n + 2 * k..] == f.options;
    var p := f.Segment().bytes;
    assert p[..2] == f.sourcePort && p[2..4] == f.destinationPort && p[4..] == f.segment;
  }

  /** A packet of a flow and one of its reply hash to the same value, the RSS hash of addresses and ports
      under the repeated key. */
  method HashFlow(lo: bv8, hi: bv8, types: HashTypes, f: Flow) returns (there: bv32, back: bv32)
    requires f.WellFormed()
    ensures there == back && Swap(there) == Rss(Repeated(lo, hi), f.Hashed(types), 0)
    ensures Swap(back) == Rss(Repeated(lo, hi), f.Reply().Hashed(types), 0)
  {
    var conf := new Conf();
    conf.CreateBiKey(lo, hi);
    conf.ExpandKey();
    hide Addresses, Ports, ReversedL3, ReversedL4, Rss, Swap, Repeated, Fold, OtherProtocol, Flow.Hashed, Flow.Reply;
    ReplyFormed(f);
    FlowHashed(types, f);
    FlowHashed(types, f.Reply());
    HashedSize(types, f);
    HashedSize(types, f.Reply());
    BothDirectionsAlike(conf.key[..], conf.cache[..], types, f.Network(), f.Segment());
    HashIsRss(conf.key[..], conf.cache[..], f.Hashed(types));
    HashIsRss(conf.key[..], conf.cache[..], f.Reply().Hashed(types));
    there := HashPacket(conf, types, f.Network(), f.Segment());
    back := HashPacket(conf, types, f.Reply().Network(), f.Reply().Segment());
  }

  lemma ReplyFormed(f: Flow)
    requires f.WellFormed()
    ensures f.Reply().WellFormed()
  {
  }

  lemma HashedSize(types: HashTypes, f: Flow)
    requires f.WellFormed()
    ensures 8 * |f.Hashed(types)| <= WINDOWS
  {
  }
}
