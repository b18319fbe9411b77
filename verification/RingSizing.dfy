/** The sizes of the memory-mapped ring: frames and blocks for a page size and a block order. */
module RingSizing {
  const BUFSIZE: nat := 0x10000
  const RING_FRAMES: nat := 0x100
  const WORD32: nat := 0x1_0000_0000

  /** struct tpacket_req */
  datatype Sizes = Sizes(frame: nat, block: nat, blocks: nat, frames: nat)

  function Power(n: nat): (p: nat)
    ensures p >= 1
  {
    if n == 0 then 1 else 2 * Power(n - 1)
  }

  lemma {:induction false} PowerAdds(a: nat, b: nat)
    ensures Power(a + b) == Power(a) * Power(b)
    decreases b
  {
    if b > 0 {
      PowerAdds(a, b - 1);
      assert Power(a + b) == 2 * Power(a + (b - 1));
    }
  }

  lemma {:induction false} PowerGrows(a: nat, b: nat)
    ensures a < b ==> 2 * Power(a) <= Power(b)
    ensures a <= b ==> Power(a) <= Power(b)
    decreases b
  {
    if a < b {
      PowerGrows(a, b - 1);
    }
  }

  /** The smaller power of two divides the larger. */
  lemma PowerDivides(a: nat, b: nat)
    requires a <= b
    ensures Power(b) == Power(b - a) * Power(a) && Power(b) % Power(a) == 0 && Power(b) / Power(a) == Power(b - a)
  {
    PowerAdds(b - a, a);
    Quotient(Power(b - a), Power(a));
  }

  lemma Quotient(q: nat, d: nat)
    requires d > 0
    ensures q * d % d == 0 && q * d / d == q
  {
    QuotientOf(q * d, q, 0, d);
  }

  lemma QuotientOf(n: nat, q: nat, r: nat, d: nat)
    requires d > 0 && n == q * d + r && r < d
    ensures n / d == q && n % d == r
  {
    var p := n / d;
    assert n == p * d + n % d;
    assert (p - q) * d == r - n % d;
    NoMultiple(p - q, d);
  }

  lemma NoMultiple(k: int, d: nat)
    requires 0 - d < k * d < d
    ensures k == 0
  {
  }

  lemma Times(a: nat, b: nat, c: nat)
    requires a <= b
    ensures a * c <= b * c
  {
  }

  lemma Associate(a: nat, b: nat, c: nat)
    ensures a * b * c == a * (b * c)
  {
  }

  /** A shift in 32 bits. */
  lemma ShiftedOut(p: nat)
    ensures Power(p) % WORD32 == if p < 32 then Power(p) else 0
  {
    hide Power;
    WordIsPower();
    if p < 32 {
      PowerGrows(p, 32);
    } else {
      PowerDivides(32, p);
    }
  }

  lemma WordIsPower()
    ensures Power(32) == WORD32
  {
    hide Power;
    BufsizeIsPower();
    PowerAdds(16, 16);
  }

  // ----- The frame size -----

  /** Double the page until it holds a frame of the wanted size, but not beyond the buffer size. */
  method FrameSize(page: nat, ghost p: nat, wanted: nat) returns (frame: nat, ghost f: nat)
    requires page == Power(p) && p < 31 && wanted <= BUFSIZE
    ensures frame == Power(f) <= (if page <= BUFSIZE then BUFSIZE else page / 2)
    ensures page <= BUFSIZE ==> f >= p && wanted <= frame && (frame == page || frame / 2 < wanted)
    ensures page > BUFSIZE ==> frame == page / 2
  {
    BufsizeIsPower();
    frame, f := page, p;
    while frame < wanted && frame < BUFSIZE
      invariant frame == Power(f) && f >= p
      invariant frame == page || (frame / 2 < wanted && f <= 16)
      decreases BUFSIZE - frame
    {
      PowerGrows(16, f);
      frame, f := 2 * frame, f + 1;
    }
    PowerGrows(f, 16);
    if frame > BUFSIZE {
      PowerGrows(p, 16);
      frame, f := frame / 2, f - 1;
    }
  }

  lemma BufsizeIsPower()
    ensures BUFSIZE == Power(16)
  {
    PowerAdds(8, 8);
    assert Power(8) == 256;
  }

  // ----- The block size -----

  /** Halve the block as long as half of it still holds all frames wanted. */
  method BlockSize(start: nat, ghost s: nat, frame: nat) returns (block: nat, ghost b: nat)
    requires start == Power(s) && s > 0 && frame > 0
    ensures block == Power(b) && 0 < b <= s
    ensures block < 2 * RING_FRAMES * frame && (block == start || RING_FRAMES * frame <= block)
  {
    block, b := start / 2, s - 1;
    while RING_FRAMES * frame <= block
      invariant block == Power(b) && b < s
      invariant block == start / 2 || RING_FRAMES * frame <= 2 * block
      decreases block
    {
      block, b := block / 2, b - 1;
    }
    block, b := 2 * block, b + 1;
  }

  /** calculate_buffers, for a page of 2 to the `p` bytes.  `mtu` is the size of the largest frame with
      its header, if the device told.  A block order so high that the shift gives 0 is lowered; bits shifted
      beyond 32 are taken to be lost.  The
      frames cover the blocks exactly, there are enough of them, and every one lies on pages of its
      own, provided that a block of the order asked for has room for a frame; and unless it does, the
      frame size does not divide the block size. */
  method CalculateBuffers(page: nat, ghost p: nat, mtu: nat, order: nat) returns (r: Sizes, ghost used: nat)
    requires page == Power(p) && 0 < p < 31
    ensures used <= order && p + used < 32 && (used < order ==> p + used == 31)
    ensures Power(p + used) >= r.frame <==> (r.block > 0 && r.frame > 0 && r.block % r.frame == 0)
    ensures Power(p + used) >= r.frame ==> Covered(r)
    ensures Tight(r, Power(p + used))
    ensures page <= BUFSIZE ==> r.frame % page == 0 && Suits(r.frame, page, mtu)
    decreases order
  {
    hide Power, Covered, Tight;
    var wanted := if mtu > BUFSIZE then BUFSIZE else mtu;
    ghost var f: nat;
    var frame;
    frame, f := FrameSize(page, p, wanted);
    PowerAdds(p, order);
    ShiftedOut(p + order);
    var start := page * Power(order) % WORD32;
    if start == 0 {
      r, used := CalculateBuffers(page, p, mtu, order - 1);
      return;
    }
    used := order;
    r := Layout(start, p + order, frame, f);
    if page <= BUFSIZE {
      PowerDivides(p, f);
    }
  }

  /** Frames of 9018 bytes and blocks of two pages of 4096 bytes do not go together. */
  method JumboFrames() returns (r: Sizes)
    ensures r.frame > 0 && r.block % r.frame != 0
  {
    SmallPowers();
    ghost var used: nat;
    r, used := CalculateBuffers(4096, 12, 9018, 1);
    PowerGrows(12 + used, 13);
  }

  lemma SmallPowers()
    ensures Power(12) == 4096 && Power(13) == 8192
  {
    PowerAdds(6, 6);
    assert Power(6) == 64;
  }

  /** Blocks for all frames wanted, a partly used one included. */
  function BlocksFor(frame: nat, block: nat): nat
    requires block > 0
  {
    RING_FRAMES * frame / block + if RING_FRAMES * frame % block != 0 then 1 else 0
  }

  function FramesIn(blocks: nat, block: nat, frame: nat): nat
    requires frame > 0
  {
    blocks * (block / frame)
  }

  /** The part of calculate_buffers from the block size on. */
  method Layout(start: nat, ghost s: nat, frame: nat, ghost f: nat) returns (r: Sizes)
    requires start == Power(s) && s > 0 && frame == Power(f)
    ensures r.frame == frame && r.block > 0
    ensures start >= frame <==> r.block % frame == 0
    ensures start >= frame ==> Covered(r)
    ensures Tight(r, start)
  {
    hide Power, Covered, BlocksFor, FramesIn;
    ghost var b: nat;
    var block;
    block, b := BlockSize(start, s, frame);
    var blocks := BlocksFor(frame, block);
    r := Sizes(frame, block, blocks, FramesIn(blocks, block, frame));
    PowerGrows(b, s);
    Divisible(f, b);
    NoneSpare(frame, block);
    if start >= frame {
      Fits(f, b);
    }
  }

  /** As small as a frame can be that holds the largest packet, in pages and powers of two. */
  predicate Suits(frame: nat, page: nat, mtu: nat) {
    frame <= 65536 && (mtu <= frame || frame == 65536) && (frame == page || frame / 2 < mtu)
  }

  /** The frames fill the blocks, and there are at least 256. */
  predicate Covered(r: Sizes) {
    r.frames * r.frame == r.blocks * r.block && r.frames >= 256
  }

  /** One block less would not do, and neither would blocks of half the size unless they are as large
      as the order asked for allows. */
  predicate Tight(r: Sizes, largest: nat) {
    && (r.blocks - 1) * r.block < 256 * r.frame
    && r.block < 512 * r.frame && (r.block == largest || 256 * r.frame <= r.block)
  }

  lemma Divisible(f: nat, b: nat)
    ensures Power(b) >= Power(f) <==> Power(b) % Power(f) == 0
    ensures Power(b) >= Power(f) <==> f <= b
  {
    hide Power;
    if f <= b {
      PowerDivides(f, b);
      PowerGrows(f, b);
    } else {
      PowerGrows(b, f);
      QuotientOf(Power(b), 0, Power(b), Power(f));
    }
  }

  lemma NoneSpare(frame: nat, block: nat)
    requires block > 0 && frame > 0
    ensures (BlocksFor(frame, block) - 1) * block < RING_FRAMES * frame
  {
    var total := RING_FRAMES * frame;
    var q, r := total / block, total % block;
    assert total == q * block + r;
    assert (q - 1) * block == q * block - block;
  }

  /** Enough blocks for all frames wanted. */
  lemma Enough(total: nat, block: nat, blocks: nat)
    requires block > 0 && blocks == total / block + if total % block != 0 then 1 else 0
    ensures total <= blocks * block
  {
    var q := total / block;
    assert total == q * block + total % block;
    assert (q + 1) * block == q * block + block;
  }

  lemma Cancels(a: nat, b: nat, c: nat)
    requires c > 0 && a * c <= b * c
    ensures a <= b
  {
    if a > b {
      Times(b + 1, a, c);
    }
  }

  lemma Fits(f: nat, b: nat)
    requires f <= b
    ensures var blocks := BlocksFor(Power(f), Power(b));
            Covered(Sizes(Power(f), Power(b), blocks, FramesIn(blocks, Power(b), Power(f))))
  {
    hide Power;
    PowerDivides(f, b);
    var blocks := BlocksFor(Power(f), Power(b));
    Associate(blocks, Power(b - f), Power(f));
    Enough(RING_FRAMES * Power(f), Power(b), blocks);
    Cancels(RING_FRAMES, blocks * Power(b - f), Power(f));
  }

  /** Every frame lies inside the mapping, on page boundaries, and apart from the others. */
  lemma SlotsAreSeparate(r: Sizes, page: nat, i: nat, j: nat)
    requires Covered(r) && page > 0 && r.frame % page == 0 && i < j < r.frames
    ensures i * r.frame % page == 0 && j * r.frame % page == 0 && i * r.frame + r.frame <= j * r.frame
    ensures j * r.frame + r.frame <= r.blocks * r.block
  {
    var k := r.frame / page;
    Multiples(i, r.frame, k, page);
    Multiples(j, r.frame, k, page);
    OneMore(i, j, r.frame);
    OneMore(j, r.frames, r.frame);
  }

  lemma Multiples(i: nat, frame: nat, k: nat, page: nat)
    requires page > 0 && frame == k * page
    ensures i * frame % page == 0
  {
    Associate(i, k, page);
    Quotient(i * k, page);
  }

  lemma OneMore(i: nat, j: nat, c: nat)
    requires i < j
    ensures i * c + c <= j * c
  {
    Times(i + 1, j, c);
  }
}
