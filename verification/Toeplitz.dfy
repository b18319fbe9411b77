/** The Toeplitz hash of the Microsoft RSS standard: key expansion, hashing in pieces, and keys that
    make the hash the same in both directions of a flow. */
module Toeplitz {

  const KEY_BYTES: nat := 40
  const WINDOWS: nat := 320

  // ----- Bits -----

  /** 0x80 >> k */
  function Mask(k: nat): bv8
    requires k < 8
  {
    if k == 0 then 0x80 else if k == 1 then 0x40 else if k == 2 then 0x20 else if k == 3 then 0x10
    else if k == 4 then 0x08 else if k == 5 then 0x04 else if k == 6 then 0x02 else 0x01
  }

  predicate GetBit(b: bv8, k: nat)
    requires k < 8
  {
    b & Mask(k) != 0
  }

  /** Bit `i` of a byte string, most significant first; 0 beyond its end. */
  predicate Bit(s: seq<bv8>, i: nat) {
    i < 8 * |s| && GetBit(s[i / 8], i % 8)
  }

  function Push(w: bv32, b: bool): bv32 { (w << 1) | (if b then 1 else 0) }

  /** The `n` bits from position `i` on, as a number. */
  function Bits(s: seq<bv8>, i: nat, n: nat): bv32 {
    if n == 0 then 0 else Push(Bits(s, i, n - 1), Bit(s, i + n - 1))
  }

  /** The 32-bit window of the key that starts at bit `i`. */
  function Window(s: seq<bv8>, i: nat): bv32 { Bits(s, i, 32) }

  function Swap(w: bv32): bv32 {
    ((w & 0xFF) << 24) | ((w & 0xFF00) << 8) | ((w & 0xFF0000) >> 8) | ((w & 0xFF000000) >> 24)
  }

  /** Four bytes read as a number by a little-endian host. */
  function Load(b0: bv8, b1: bv8, b2: bv8, b3: bv8): bv32 {
    (b0 as bv32) | ((b1 as bv32) << 8) | ((b2 as bv32) << 16) | ((b3 as bv32) << 24)
  }

  function AppendByte(w: bv32, b: bv8): bv32 { (w << 8) | (b as bv32) }

  lemma ByteOfBits(w: bv32, b: bv8)
    ensures Push(Push(Push(Push(Push(Push(Push(Push(w, GetBit(b, 0)), GetBit(b, 1)), GetBit(b, 2)), GetBit(b, 3)),
              GetBit(b, 4)), GetBit(b, 5)), GetBit(b, 6)), GetBit(b, 7)) == AppendByte(w, b)
  {
  }

  lemma BitAt(s: seq<bv8>, m: nat, k: nat)
    requires m < |s| && k < 8
    ensures Bit(s, 8 * m + k) == GetBit(s[m], k)
  {
  }

  lemma BitsStep(s: seq<bv8>, m: nat, k: nat)
    requires m < |s| && k < 8
    ensures Bits(s, 0, 8 * m + k + 1) == Push(Bits(s, 0, 8 * m + k), GetBit(s[m], k))
  {
    BitAt(s, m, k);
  }

  lemma BitsByte(s: seq<bv8>, m: nat)
    requires m < |s|
    ensures Bits(s, 0, 8 * m + 8) == AppendByte(Bits(s, 0, 8 * m), s[m])
  {
    hide *;
    BitsStep(s, m, 0);
    BitsStep(s, m, 1);
    BitsStep(s, m, 2);
    BitsStep(s, m, 3);
    BitsStep(s, m, 4);
    BitsStep(s, m, 5);
    BitsStep(s, m, 6);
    BitsStep(s, m, 7);
    ByteOfBits(Bits(s, 0, 8 * m), s[m]);
  }

  /** Four bytes read as a number, first byte on top. */
  function BigEndian(b0: bv8, b1: bv8, b2: bv8, b3: bv8): bv32 {
    ((b0 as bv32) << 24) | ((b1 as bv32) << 16) | ((b2 as bv32) << 8) | (b3 as bv32)
  }

  lemma FourBytes(b0: bv8, b1: bv8, b2: bv8, b3: bv8)
    ensures AppendByte(AppendByte(AppendByte(AppendByte(0, b0), b1), b2), b3) == BigEndian(b0, b1, b2, b3)
  {
  }

  lemma WindowBytes(s: seq<bv8>)
    requires |s| >= 4
    ensures Window(s, 0) == BigEndian(s[0], s[1], s[2], s[3])
  {
    assert Bits(s, 0, 0) == 0 && Window(s, 0) == Bits(s, 0, 32) by { hide Push, BigEndian; }
    hide *;
    BitsByte(s, 0);
    BitsByte(s, 1);
    BitsByte(s, 2);
    BitsByte(s, 3);
    FourBytes(s[0], s[1], s[2], s[3]);
  }

  lemma SwapLoad(b0: bv8, b1: bv8, b2: bv8, b3: bv8)
    ensures Swap(BigEndian(b0, b1, b2, b3)) == Load(b0, b1, b2, b3)
  {
  }

  /** Loading the first four bytes gives the first window with its bytes swapped. */
  lemma LoadIsWindow(s: seq<bv8>)
    requires |s| >= 4
    ensures Load(s[0], s[1], s[2], s[3]) == Swap(Window(s, 0))
  {
    hide *;
    WindowBytes(s);
    SwapLoad(s[0], s[1], s[2], s[3]);
  }

  function Xor(a: bv32, b: bv32): bv32 { a ^ b }

  lemma XorAssoc(a: bv32, b: bv32, c: bv32)
    ensures Xor(Xor(a, b), c) == Xor(a, Xor(b, c))
  {
  }

  lemma XorComm(a: bv32, b: bv32)
    ensures Xor(a, b) == Xor(b, a)
  {
  }

  lemma XorZero(a: bv32)
    ensures Xor(a, 0) == a && Xor(0, a) == a && Xor(a, a) == 0
  {
  }

  lemma SwapXor(a: bv32, b: bv32)
    ensures Swap(Xor(a, b)) == Xor(Swap(a), Swap(b)) && Swap(0) == 0
  {
  }

  /** `t` from bit `d` on is `s`. */
  ghost predicate ShiftedBy(s: seq<bv8>, t: seq<bv8>, d: nat) {
    forall k: nat :: Bit(s, k) == Bit(t, d + k)
  }

  lemma {:induction false} BitsAgree(s: seq<bv8>, t: seq<bv8>, d: nat, i: nat, n: nat)
    requires forall k: nat :: k < i + n ==> Bit(s, k) == Bit(t, d + k)
    ensures Bits(s, i, n) == Bits(t, d + i, n)
  {
    hide Bit, Push;
    if n > 0 {
      BitsAgree(s, t, d, i, n - 1);
      assert Bit(s, i + n - 1) == Bit(t, d + (i + n - 1));
    }
  }

  // ----- Key expansion -----

  /** A byte string shifted left by one bit. */
  function Shifted(s: seq<bv8>): (r: seq<bv8>)
    ensures |r| == |s|
  {
    seq(|s|, j requires 0 <= j < |s| => ShiftedByte(s[j], if j + 1 < |s| then s[j + 1] else 0))
  }

  function ShiftedByte(b: bv8, next: bv8): bv8 { (b << 1) | ((next & 0x80) >> 7) }

  lemma ShiftedByteBits(b: bv8, next: bv8, k: nat)
    requires k < 8
    ensures GetBit(ShiftedByte(b, next), k) == if k < 7 then GetBit(b, k + 1) else GetBit(next, 0)
  {
  }

  lemma ShiftedBits(s: seq<bv8>, i: nat)
    ensures Bit(Shifted(s), i) == Bit(s, i + 1)
  {
    hide GetBit, ShiftedByte;
    if i < 8 * |s| {
      var m, k := i / 8, i % 8;
      ShiftedByteBits(s[m], if m + 1 < |s| then s[m + 1] else 0, k);
      if k < 7 {
        BitAt(s, m, k + 1);
      } else if m + 1 < |s| {
        BitAt(s, m + 1, 0);
      } else {
        NoBits();
      }
    }
  }

  lemma NoBits()
    ensures !GetBit(0, 0)
  {
  }

  lemma Unshifted(s: seq<bv8>)
    ensures ShiftedBy(s, s, 0)
  {
  }

  lemma ExpandStep(s: seq<bv8>, key: seq<bv8>, i: nat)
    requires |s| >= 4 && ShiftedBy(s, key, i)
    ensures Load(s[0], s[1], s[2], s[3]) == Swap(Window(key, i))
    ensures ShiftedBy(Shifted(s), key, i + 1)
  {
    LoadIsWindow(s);
    BitsAgree(s, key, i, 0, 32);
    hide Bit, Load, Swap, Bits;
    forall k: nat ensures Bit(Shifted(s), k) == Bit(key, i + 1 + k) {
      ShiftedBits(s, k);
      assert Bit(s, k + 1) == Bit(key, i + (k + 1));
    }
  }

  /** Shift an array of bytes left by one bit, in place. */
  method ShiftLeft(a: array<bv8>)
    requires a.Length == KEY_BYTES
    modifies a
    ensures a[..] == Shifted(old(a[..]))
  {
    hide ShiftedByte, Doubled, Carried, Shifted;
    ghost var s := a[..];
    for j := 0 to 39
      invariant forall m :: 0 <= m < j ==> a[m] == Shifted(s)[m]
      invariant forall m :: j <= m < KEY_BYTES ==> a[m] == s[m]
    {
      ShiftedAt(s, j);
      CombineByte(s[j], s[j + 1]);
      a[j] := Doubled(a[j]);
      a[j] := Carried(a[j], a[j + 1]);
    }
    a[39] := Doubled(a[39]);
    ShiftedAt(s, 39);
    LastByte(s[39]);
  }

  lemma ShiftedAt(s: seq<bv8>, j: nat)
    requires j < |s|
    ensures Shifted(s)[j] == ShiftedByte(s[j], if j + 1 < |s| then s[j + 1] else 0)
  {
  }

  function Doubled(b: bv8): bv8 {
    b << 1
  }

  /** `b` with the top bit of the next byte at its end. */
  function Carried(b: bv8, next: bv8): bv8 {
    b | ((0x80 & next) >> 7)
  }

  lemma CombineByte(b: bv8, next: bv8)
    ensures Carried(Doubled(b), next) == ShiftedByte(b, next)
  {
  }

  lemma LastByte(b: bv8)
    ensures ShiftedByte(b, 0) == Doubled(b)
  {
  }

  class Conf {
    const key: array<bv8>
    const cache: array<bv32>

    ghost predicate Valid()
    {
      key.Length == KEY_BYTES && cache.Length == WINDOWS
    }

    constructor ()
      ensures Valid() && fresh(key) && fresh(cache)
    {
      key := new bv8[KEY_BYTES];
      cache := new bv32[WINDOWS];
    }

    /** Entry `i` of the cache is the key's window at bit `i`, as a little-endian host loads it. */
    ghost predicate Expanded()
      requires Valid()
      reads key, cache
    {
      Expansion(key[..], cache[..])
    }

    method ExpandKey()
      requires Valid()
      modifies cache
      ensures Expanded()
    {
      hide ShiftedBy, Load, Swap, Window, Shifted;
      ghost var k := key[..];
      var copy := new bv8[KEY_BYTES];
      forall i | 0 <= i < KEY_BYTES {
        copy[i] := key[i];
      }
      assert copy[..] == k;
      Unshifted(k);
      for i := 0 to WINDOWS
        invariant forall j :: 0 <= j < i ==> cache[j] == Swap(Window(k, j))
        invariant ShiftedBy(copy[..], k, i) && key[..] == k
      {
        ExpandStep(copy[..], k, i);
        cache[i] := Load(copy[0], copy[1], copy[2], copy[3]);
        ShiftLeft(copy);
      }
    }

    /** A key made of one 16-bit value, with bytes `lo` and `hi` in memory, repeated 20 times. */
    method CreateBiKey(lo: bv8, hi: bv8)
      requires Valid()
      modifies key
      ensures forall j :: 0 <= j < 20 ==> key[2 * j] == lo && key[2 * j + 1] == hi
      ensures key[..] == Repeated(lo, hi) && BiKey(key[..])
    {
      for i := 0 to 20
        invariant forall j :: 0 <= j < i ==> key[2 * j] == lo && key[2 * j + 1] == hi
      {
        key[2 * i], key[2 * i + 1] := lo, hi;
      }
      forall j | 0 <= j < KEY_BYTES - 2 ensures key[j] == key[j + 2] {
        assert key[2 * (j / 2)] == lo && key[2 * (j / 2 + 1)] == lo;
      }
      forall j | 0 <= j < KEY_BYTES ensures key[j] == Repeated(lo, hi)[j] {
        assert key[2 * (j / 2)] == lo && key[2 * (j / 2) + 1] == hi;
      }
    }
  }

  function Repeated(lo: bv8, hi: bv8): (key: seq<bv8>)
    ensures |key| == KEY_BYTES
  {
    seq(KEY_BYTES, i => if i % 2 == 0 then lo else hi)
  }

  ghost predicate Expansion(key: seq<bv8>, cache: seq<bv32>) {
    |cache| == WINDOWS && forall i :: 0 <= i < WINDOWS ==> cache[i] == Swap(Window(key, i))
  }

  ghost predicate BiKey(key: seq<bv8>) {
    |key| == KEY_BYTES && forall j :: 0 <= j < KEY_BYTES - 2 ==> key[j] == key[j + 2]
  }

  // ----- Hashing -----

  function Pick(b: bool, w: bv32): bv32 { if b then w else 0 }

  /** The cache entries selected by the first `k` bits of `data`, folded together. */
  function Fold(cache: seq<bv32>, data: seq<bv8>, k: nat): bv32
    requires k <= |cache|
  {
    if k == 0 then 0 else Xor(Fold(cache, data, k - 1), Pick(Bit(data, k - 1), cache[k - 1]))
  }

  /** toeplitz_hash: continue a hash `result` with `data`, from cache position `8 * offset` on. */
  method Hash(conf: Conf, data: seq<bv8>, offset: nat, result: bv32) returns (r: bv32)
    requires conf.Valid() && 8 * offset + 8 * |data| <= WINDOWS
    ensures r == Xor(result, Fold(conf.cache[8 * offset..], data, 8 * |data|))
  {
    r := result;
    hide Xor, GetBit;
    ghost var keys := conf.cache[8 * offset..];
    var i := 0;
    XorZero(result);
    for byte := 0 to |data|
      invariant i == 8 * byte && r == Xor(result, Fold(keys, data, i))
    {
      for bit := 0 to 8
        invariant i == 8 * byte + bit && r == Xor(result, Fold(keys, data, i))
      {
        BitAt(data, byte, bit);
        XorAssoc(result, Fold(keys, data, i), keys[i]);
        XorZero(Fold(keys, data, i));
        if GetBit(data[byte], bit) {
          r := Xor(r, conf.cache[8 * offset + i]);
        }
        i := i + 1;
      }
    }
  }

  /** toeplitz_first_hash */
  method FirstHash(conf: Conf, data: seq<bv8>) returns (r: bv32)
    requires conf.Valid() && 8 * |data| <= WINDOWS
    ensures r == Fold(conf.cache[..], data, 8 * |data|)
  {
    hide Fold, Xor;
    r := Hash(conf, data, 0, 0);
    assert conf.cache[8 * 0..] == conf.cache[..];
    XorZero(Fold(conf.cache[..], data, 8 * |data|));
  }

  /** The hash as the RSS standard defines it: for every set bit of the input, add the leftmost 32
      bits of the key; move the key left by one bit after every input bit. */
  function Rss(key: seq<bv8>, data: seq<bv8>, i: nat): bv32
    decreases 8 * |data| - i
  {
    if i >= 8 * |data| then 0 else Xor(Pick(Bit(data, i), Window(key, 0)), Rss(Shifted(key), data, i + 1))
  }

  lemma WindowShifts(key: seq<bv8>, i: nat)
    ensures Window(Shifted(key), i) == Window(key, i + 1)
  {
    forall k: nat | k < i + 32 ensures Bit(Shifted(key), k) == Bit(key, 1 + k) {
      ShiftedBits(key, k);
    }
    hide Bit, Bits, Shifted;
    BitsAgree(Shifted(key), key, 1, i, 32);
  }

  /** The contribution of the input bits from `i` on, with a key that stays in place. */
  function RssFrom(key: seq<bv8>, data: seq<bv8>, i: nat): bv32
    decreases 8 * |data| - i
  {
    if i >= 8 * |data| then 0 else Xor(Pick(Bit(data, i), Window(key, i)), RssFrom(key, data, i + 1))
  }

  lemma {:induction false} RssMoves(key: seq<bv8>, moved: seq<bv8>, data: seq<bv8>, i: nat)
    requires forall j: nat :: Window(moved, j) == Window(key, i + j)
    ensures Rss(moved, data, i) == RssFrom(key, data, i)
    decreases 8 * |data| - i
  {
    if i < 8 * |data| {
      hide Window, Bit, Shifted, Xor;
      forall j: nat ensures Window(Shifted(moved), j) == Window(key, i + 1 + j) {
        WindowShifts(moved, j);
        assert Window(moved, j + 1) == Window(key, i + (j + 1));
      }
      RssMoves(key, Shifted(moved), data, i + 1);
      assert Window(moved, 0) == Window(key, i + 0);
    }
  }

  lemma {:induction false} FoldIsRss(key: seq<bv8>, cache: seq<bv32>, data: seq<bv8>, k: nat)
    requires Expansion(key, cache) && k <= 8 * |data| <= WINDOWS
    ensures Xor(Swap(Fold(cache, data, k)), RssFrom(key, data, k)) == RssFrom(key, data, 0)
    decreases k
  {
    hide Window, Bit, Xor, Swap;
    if k == 0 {
      SwapXor(0, 0);
      XorZero(RssFrom(key, data, 0));
    } else {
      FoldIsRss(key, cache, data, k - 1);
      var f, p := Fold(cache, data, k - 1), Pick(Bit(data, k - 1), cache[k - 1]);
      SwapXor(f, p);
      SwapSwap(Window(key, k - 1));
      XorAssoc(Swap(f), Swap(p), RssFrom(key, data, k));
    }
  }

  lemma SwapSwap(w: bv32)
    ensures Swap(Swap(w)) == w
  {
  }

  /** Hashing from the start of the key gives the RSS hash with its bytes swapped. */
  lemma HashIsRss(key: seq<bv8>, cache: seq<bv32>, data: seq<bv8>)
    requires Expansion(key, cache) && 8 * |data| <= WINDOWS
    ensures Swap(Fold(cache, data, 8 * |data|)) == Rss(key, data, 0)
  {
    hide Window, Fold, Xor, Swap;
    FoldIsRss(key, cache, data, 8 * |data|);
    RssMoves(key, key, data, 0);
    XorZero(Swap(Fold(cache, data, 8 * |data|)));
  }

  // ----- Hashing in pieces, and linearity -----

  /** Hashing `a` and continuing with `b` where `a` ended equals hashing both together. */
  lemma {:induction false} FoldConcat(cache: seq<bv32>, a: seq<bv8>, b: seq<bv8>, k: nat)
    requires 8 * |a| + k <= |cache| && k <= 8 * |b|
    ensures Fold(cache, a + b, 8 * |a| + k) == Xor(Fold(cache, a, 8 * |a|), Fold(cache[8 * |a|..], b, k))
    decreases k
  {
    hide Xor, Bit;
    if k == 0 {
      FoldPrefix(cache, a, b, 8 * |a|);
      XorZero(Fold(cache, a, 8 * |a|));
    } else {
      FoldConcat(cache, a, b, k - 1);
      BitOfConcat(a, b, k - 1);
      XorAssoc(Fold(cache, a, 8 * |a|), Fold(cache[8 * |a|..], b, k - 1), Pick(Bit(b, k - 1), cache[8 * |a| + k - 1]));
    }
  }

  lemma BitOfConcat(a: seq<bv8>, b: seq<bv8>, k: nat)
    ensures Bit(a + b, 8 * |a| + k) == Bit(b, k)
  {
    hide GetBit;
  }

  lemma {:induction false} FoldPrefix(cache: seq<bv32>, a: seq<bv8>, b: seq<bv8>, k: nat)
    requires k <= 8 * |a| && k <= |cache|
    ensures Fold(cache, a + b, k) == Fold(cache, a, k)
    decreases k
  {
    hide Xor, GetBit;
    if k > 0 {
      FoldPrefix(cache, a, b, k - 1);
      assert Bit(a + b, k - 1) == Bit(a, k - 1);
    }
  }

  function XorBytes(a: seq<bv8>, b: seq<bv8>): (r: seq<bv8>)
    requires |a| == |b|
    ensures |r| == |a|
  {
    seq(|a|, i requires 0 <= i < |a| => a[i] ^ b[i])
  }

  lemma AndXor(a: bv8, b: bv8, m: bv8)
    ensures (a ^ b) & m == (a & m) ^ (b & m)
  {
  }

  lemma UnderMask(a: bv8, k: nat)
    requires k < 8
    ensures Mask(k) != 0 && (a & Mask(k) == 0 || a & Mask(k) == Mask(k))
  {
  }

  lemma MaskedXor(m: bv8, x: bv8, y: bv8)
    requires m != 0 && (x == 0 || x == m) && (y == 0 || y == m)
    ensures (x ^ y != 0) == ((x != 0) != (y != 0))
  {
    if x == 0 {
      assert 0 ^ y == y;
    } else if y == 0 {
      assert x ^ 0 == x;
    } else {
      assert m ^ m == 0;
    }
  }

  lemma BitOfXor(a: bv8, b: bv8, k: nat)
    requires k < 8
    ensures GetBit(a ^ b, k) == (GetBit(a, k) != GetBit(b, k))
  {
    var m := Mask(k);
    AndXor(a, b, m);
    UnderMask(a, k);
    UnderMask(b, k);
    hide Mask;
    MaskedXor(m, a & m, b & m);
  }

  /** (f ^ g) ^ (p ^ q) == (f ^ p) ^ (g ^ q) */
  lemma XorExchange(f: bv32, g: bv32, p: bv32, q: bv32)
    ensures Xor(Xor(f, g), Xor(p, q)) == Xor(Xor(f, p), Xor(g, q))
  {
    hide Xor;
    XorAssoc(f, g, Xor(p, q));
    XorAssoc(g, p, q);
    XorComm(g, p);
    XorAssoc(p, g, q);
    XorAssoc(f, p, Xor(g, q));
  }

  lemma PickXor(a: bool, b: bool, w: bv32)
    ensures Pick(a != b, w) == Xor(Pick(a, w), Pick(b, w))
  {
    hide Xor;
    XorZero(w);
    XorZero(0);
  }

  lemma BitOfXorBytes(a: seq<bv8>, b: seq<bv8>, k: nat)
    requires |a| == |b| && k < 8 * |a|
    ensures Bit(XorBytes(a, b), k) == (Bit(a, k) != Bit(b, k))
  {
    hide GetBit;
    BitOfXor(a[k / 8], b[k / 8], k % 8);
  }

  /** The hash is linear in its input. */
  lemma {:induction false} FoldLinear(cache: seq<bv32>, a: seq<bv8>, b: seq<bv8>, k: nat)
    requires |a| == |b| && k <= 8 * |a| && k <= |cache|
    ensures Fold(cache, XorBytes(a, b), k) == Xor(Fold(cache, a, k), Fold(cache, b, k))
    decreases k
  {
    hide Xor, Bit, Pick, XorBytes;
    if k > 0 {
      FoldLinear(cache, a, b, k - 1);
      BitOfXorBytes(a, b, k - 1);
      var p, q := Bit(a, k - 1), Bit(b, k - 1);
      PickXor(p, q, cache[k - 1]);
      XorExchange(Fold(cache, a, k - 1), Fold(cache, b, k - 1), Pick(p, cache[k - 1]), Pick(q, cache[k - 1]));
    } else {
      XorZero(0);
    }
  }
}
