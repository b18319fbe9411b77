/** Reconstruction of 64-bit times from the 30-bit microsecond counters of NZIX trace headers. */
module NzixTime {
  const WRAP: nat := 0x4000_0000
  const HALF: nat := 0x2000_0000
  const MICROS: nat := 1_000_000
  const WORD64: nat := 0x1_0000_0000_0000_0000

  function Low(t: nat): nat {
    t % WRAP
  }

  /** A header holds the counter in its upper 30 bits; the lower 2 can be anything. */
  predicate Stamps(header: nat, t: nat) {
    header / 4 == Low(t)
  }

  /** ts_cmp: the distance of two counters, shifted up to 32 bits. */
  function Distance(a: nat, b: nat): (d: nat)
    requires a < WRAP && b < WRAP
    ensures d > 0xFFFF_FFFF / 2 <==> a >= b + HALF || b >= a + HALF
  {
    var x, y := 4 * a % 0x1_0000_0000, 4 * b % 0x1_0000_0000;
    if x > y then x - y else y - x
  }

  class Clock {
    const start: nat
    var high: nat
    var last: nat

    constructor (start: nat)
      ensures this.start == start && high == 0 && Valid()
    {
      this.start, high, last := start, 0, 0;
    }

    /** The last counter value is the lower part of the last time. */
    ghost predicate Valid()
      reads this
    {
      high < WORD64 && last == Low(high)
    }

    /** legacynzix_get_timeval */
    method GetTimeval(header: nat) returns (sec: nat, usec: nat)
      requires Valid() && header < 0x1_0000_0000
      modifies this`high, this`last
      ensures Valid() && high == Following(old(high), header / 4)
      ensures sec == start + high / 1_000_000 && usec == high % 1_000_000
    {
      var ts := high;
      var counter := header / 4;
      if Distance(counter, last) > 0xFFFF_FFFF / 2 {
        ts := (ts + WRAP) % WORD64;
      }
      Masked(high, counter);
      ts := ts - ts % WRAP;
      ts := (ts + counter) % WORD64;
      last := counter;
      sec, usec := start + ts / MICROS, ts % MICROS;
      high := ts;
    }
  }

  /** A jump of the counter by half its range or more is taken for a wrap-around. */
  predicate Jumps(a: nat, b: nat) {
    a >= b + HALF || b >= a + HALF
  }

  function Following(t: nat, counter: nat): nat {
    (t - Low(t) + (if Jumps(counter, Low(t)) then WRAP else 0) + counter) % WORD64
  }

  lemma Masked(t: nat, counter: nat)
    requires t < WORD64 && counter < WRAP
    ensures var ts := (if Jumps(counter, Low(t)) then (t + WRAP) % WORD64 else t);
            (ts - ts % WRAP + counter) % WORD64 == Following(t, counter) && Low(Following(t, counter)) == counter
  {
    hide Jumps;
    var n := t / WRAP;
    assert t == WRAP * n + Low(t) && n < 0x4_0000_0000;
    if !Jumps(counter, Low(t)) {
      InRange(n, counter);
    } else if n + 1 < 0x4_0000_0000 {
      InRange(n + 1, Low(t));
      InRange(n + 1, counter);
    } else {
      InRange(0, Low(t));
      InRange(0, counter);
      AllRound(Low(t));
      AllRound(counter);
    }
  }

  lemma InRange(n: nat, low: nat)
    requires low < WRAP && n < 0x4_0000_0000
    ensures var t := WRAP * n + low; t % WORD64 == t && t % WRAP == low && t - t % WRAP == WRAP * n
  {
    Upper(n, low);
  }

  lemma AllRound(low: nat)
    requires low < WRAP
    ensures (WORD64 + low) % WORD64 == low
  {
  }

  lemma Upper(n: nat, low: nat)
    requires low < WRAP
    ensures (WRAP * n + low) % WRAP == low && (WRAP * n + low) / WRAP == n
  {
  }

  // ----- When the time is right -----

  /** After time `t`, the time of the next packet is reconstructed exactly if its counter jumps when it
      has wrapped once more, and does not when it has not wrapped. */
  lemma RightExactly(t: nat, next: nat)
    requires t <= next < WORD64
    ensures Following(t, Low(next)) == next <==>
            next / WRAP == t / WRAP + if Jumps(Low(next), Low(t)) then 1 else 0
  {
    var n, k := t / WRAP, next / WRAP;
    assert t == WRAP * n + Low(t) && next == WRAP * k + Low(next);
    var j := if Jumps(Low(next), Low(t)) then 1 else 0;
    assert t - Low(t) + WRAP * j + Low(next) == WRAP * (n + j) + Low(next);
    if WRAP * (n + j) + Low(next) < WORD64 {
      Upper(n + j, Low(next));
    } else {
      assert n + j == 0x4_0000_0000 && k < n + j;
      assert (WRAP * (n + j) + Low(next)) % WORD64 == Low(next);
      assert n == 0x3_FFFF_FFFF && k == n;
    }
  }

  /** For gaps of up to one wrap the time is right exactly if the gap is less than half a wrap, or is
      half a wrap across the wrap-around. */
  lemma GapExactly(t: nat, next: nat)
    requires t <= next < WORD64 && next - t <= WRAP
    ensures Following(t, Low(next)) == next <==>
            next - t < HALF || (next - t == HALF && next / WRAP > t / WRAP)
  {
    RightExactly(t, next);
    var n, k := t / WRAP, next / WRAP;
    assert t == WRAP * n + Low(t) && next == WRAP * k + Low(next);
  }

  /** A gap of half a wrap that does not cross the wrap-around puts the time a whole wrap ahead. */
  lemma HalfWrapGap(t: nat)
    requires t + HALF < WORD64 - WRAP && Low(t) < HALF
    ensures Following(t, Low(t + HALF)) == t + HALF + WRAP
  {
    var n := t / WRAP;
    assert t == WRAP * n + Low(t);
    Upper(n, Low(t) + HALF);
    assert Low(t + HALF) == Low(t) + HALF;
  }

  /** Every gap, and the first time, is less than half a wrap. */
  predicate Dense(previous: nat, times: seq<nat>)
    decreases |times|
  {
    times != [] ==>
      previous <= times[0] < WORD64 && times[0] - previous < HALF && Dense(times[0], times[1..])
  }

  function Seconds(start: nat, t: nat): (nat, nat) {
    (start + t / 1_000_000, t % 1_000_000)
  }

  /** Reading a dense stream of packets, each of them any number of times, gives their true times,
      across any number of wrap-arounds. */
  method Times(start: nat, headers: seq<nat>, ghost times: seq<nat>, again: seq<nat>)
    returns (read: seq<(nat, nat)>)
    requires |headers| == |times| == |again| && Dense(0, times)
    requires forall i :: 0 <= i < |headers| ==> headers[i] < 0x1_0000_0000 && Stamps(headers[i], times[i])
    ensures |read| == |headers|
    ensures forall i :: 0 <= i < |read| ==> read[i] == Seconds(start, times[i])
  {
    var clock := new Clock(start);
    read := [];
    var i := 0;
    while i < |headers|
      invariant 0 <= i <= |headers| && |read| == i
      invariant fresh(clock) && clock.Valid() && clock.start == start
      invariant clock.high == (if i == 0 then 0 else times[i - 1]) && Dense(clock.high, times[i..])
      invariant forall j :: 0 <= j < i ==> read[j] == Seconds(start, times[j])
    {
      assert times[i..][0] == times[i] && times[i..][1..] == times[i + 1..];
      GapExactly(clock.high, times[i]);
      var sec, usec := clock.GetTimeval(headers[i]);
      var n := 0;
      while n < again[i]
        invariant 0 <= n <= again[i]
        invariant clock.Valid() && clock.high == times[i] && (sec, usec) == Seconds(start, times[i])
      {
        GapExactly(clock.high, times[i]);
        sec, usec := clock.GetTimeval(headers[i]);
        n := n + 1;
      }
      read := read + [(sec, usec)];
      i := i + 1;
    }
  }

  /** Asking twice for the time of the same packet changes nothing, whatever came before. */
  lemma AskingTwice(t: nat, counter: nat)
    requires t < WORD64 && counter < WRAP
    ensures var u := Following(t, counter); Following(u, counter) == u
  {
    Masked(t, counter);
    GapExactly(Following(t, counter), Following(t, counter));
  }
}
