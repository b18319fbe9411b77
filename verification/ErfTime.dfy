/** Conversion between ERF timestamps (seconds and a 32-bit binary fraction) and timeval or timespec
    (seconds and decimal parts of a second). */
module ErfTime {
  const FRACTION: nat := 0x1_0000_0000
  const WORD64: nat := 0x1_0000_0000_0000_0000
  const MICRO: nat := 1_000_000
  const NANO: nat := 1_000_000_000

  /** A time in seconds and `unit`-ths of a second: a timeval for MICRO, a timespec for NANO. */
  datatype Time = Time(sec: nat, part: nat)

  predicate Decimal(unit: nat) {
    unit == MICRO || unit == NANO
  }

  /** In range for a 32-bit number of seconds. */
  predicate Proper(t: Time, unit: nat) {
    t.sec < FRACTION && t.part < unit
  }

  predicate Before(a: Time, b: Time) {
    a.sec < b.sec || (a.sec == b.sec && a.part < b.part)
  }

  /** timeval or timespec to ERF, in 64-bit arithmetic. */
  function ToErf(t: Time, unit: nat): nat
    requires Decimal(unit)
  {
    (t.sec * FRACTION % WORD64 + t.part * FRACTION % WORD64 / unit) % WORD64
  }

  /** ERF to timeval or timespec, with the carry that the code provides for. */
  function FromErf(ts: nat, unit: nat): (t: Time)
    requires Decimal(unit)
  {
    var part := ts % FRACTION * unit % WORD64 / FRACTION;
    if part >= unit then Time(ts / FRACTION + 1, part - unit) else Time(ts / FRACTION, part)
  }

  /** What the arithmetic comes to when nothing overflows. */
  lemma ToErfIs(t: Time, unit: nat)
    requires Decimal(unit) && Proper(t, unit)
    ensures ToErf(t, unit) == t.sec * FRACTION + t.part * FRACTION / unit < WORD64
    ensures t.part * FRACTION / unit < FRACTION
  {
    Scaled(t.part, unit);
    Small(t.part * FRACTION);
    Small(t.sec * FRACTION);
    Small(t.sec * FRACTION + t.part * FRACTION / unit);
  }

  lemma Small(n: nat)
    requires n < WORD64
    ensures n % WORD64 == n
  {
  }

  lemma Scaled(n: nat, unit: nat)
    requires Decimal(unit) && n < unit
    ensures n * FRACTION < WORD64 && n * FRACTION / unit < FRACTION
    ensures var q := n * FRACTION / unit; unit * q <= n * FRACTION < unit * q + unit
  {
    if unit == MICRO {
      assert unit * (n * FRACTION / unit) <= n * FRACTION;
    } else {
      assert unit * (n * FRACTION / unit) <= n * FRACTION;
    }
  }

  /** The carry never happens: the part is in range, and the seconds are the upper half. */
  lemma FromErfIs(ts: nat, unit: nat)
    requires Decimal(unit) && ts < WORD64
    ensures FromErf(ts, unit) == Time(ts / FRACTION, ts % FRACTION * unit / FRACTION)
    ensures Proper(FromErf(ts, unit), unit)
  {
    var x := ts % FRACTION;
    if unit == MICRO {
      assert x * unit / FRACTION < unit;
    } else {
      assert x * unit / FRACTION < unit;
    }
  }

  /** timeval to ERF to timeval, and timespec to ERF to timespec, keep the seconds and lose at most one
      unit: none exactly if the part is a whole number of 1/64ths of a second, or for nanoseconds of
      1/512ths. */
  lemma ThereAndBack(t: Time, unit: nat)
    requires Decimal(unit) && Proper(t, unit)
    ensures var back := FromErf(ToErf(t, unit), unit);
            && back.sec == t.sec && t.part - 1 <= back.part <= t.part
            && (back.part == t.part <==> t.part % (if unit == MICRO then 15625 else 1953125) == 0)
  {
    ToErfIs(t, unit);
    var x := t.part * FRACTION / unit;
    Halves(t.sec, x);
    FromErfIs(ToErf(t, unit), unit);
    Rounds(t.part, unit);
  }

  lemma Halves(sec: nat, x: nat)
    requires x < FRACTION
    ensures (sec * FRACTION + x) / FRACTION == sec && (sec * FRACTION + x) % FRACTION == x
  {
  }

  lemma Rounds(n: nat, unit: nat)
    requires Decimal(unit) && n < unit
    ensures var m := n * FRACTION / unit * unit / FRACTION;
            n - 1 <= m <= n && (m == n <==> n % (if unit == MICRO then 15625 else 1953125) == 0)
  {
    if unit == MICRO {
      var r := n * FRACTION % MICRO;
      assert n * FRACTION / MICRO * MICRO == n * FRACTION - r;
      assert r == 0 <==> n % 15625 == 0 by {
        Divides(n, n / 15625, n % 15625);
      }
    } else {
      var r := n * FRACTION % NANO;
      assert n * FRACTION / NANO * NANO == n * FRACTION - r;
      assert r == 0 <==> n % 1953125 == 0 by {
        DividesNano(n, n / 1953125, n % 1953125);
      }
    }
  }

  /** 2 to the 32 is 64 times 67108864, and a million 64 times 15625, which is prime to it: 12659 is an
      inverse. */
  lemma Divides(n: nat, q: nat, r: nat)
    requires n == 15625 * q + r && r < 15625
    ensures n * FRACTION % MICRO == 0 <==> r == 0
  {
    var x := r * 67108864;
    assert n * FRACTION == MICRO * (q * 67108864) + 64 * x;
    ShiftedByMicro(q * 67108864, 64 * x);
    if 64 * x % MICRO == 0 {
      Inverse(r, 64 * x / MICRO);
    }
  }

  lemma Inverse(r: nat, k: nat)
    requires r < 15625 && 64 * (r * 67108864) == MICRO * k
    ensures r == 0
  {
    var j := 12659 * k - 54369991 * r;
    assert r == 15625 * j;
  }

  lemma ShiftedByMicro(q: nat, z: nat)
    ensures (MICRO * q + z) % MICRO == z % MICRO
  {
  }

  /** Likewise 512 times 8388608, and 512 times 1953125, with the inverse 1241897. */
  lemma DividesNano(n: nat, q: nat, r: nat)
    requires n == 1953125 * q + r && r < 1953125
    ensures n * FRACTION % NANO == 0 <==> r == 0
  {
    var x := r * 8388608;
    assert n * FRACTION == NANO * (q * 8388608) + 512 * x;
    ShiftedByNano(q * 8388608, 512 * x);
    if 512 * x % NANO == 0 {
      InverseNano(r, 512 * x / NANO);
    }
  }

  lemma InverseNano(r: nat, k: nat)
    requires r < 1953125 && 512 * (r * 8388608) == NANO * k
    ensures r == 0
  {
    var j := 1241897 * k - 5333907 * r;
    assert r == 1953125 * j;
  }

  lemma ShiftedByNano(q: nat, z: nat)
    ensures (NANO * q + z) % NANO == z % NANO
  {
  }

  /** ERF to timespec to ERF loses at most 5 units of the fraction, ERF to timeval to ERF at most 4295,
      and neither touches the seconds. */
  lemma ErfThereAndBack(ts: nat, unit: nat)
    requires Decimal(unit) && ts < WORD64
    ensures var back := ToErf(FromErf(ts, unit), unit);
            back / FRACTION == ts / FRACTION && ts - (if unit == NANO then 5 else 4295) <= back <= ts
  {
    FromErfIs(ts, unit);
    var t := FromErf(ts, unit);
    ToErfIs(t, unit);
    Halves(t.sec, t.part * FRACTION / unit);
    Truncates(ts % FRACTION, unit);
  }

  lemma Truncates(x: nat, unit: nat)
    requires Decimal(unit) && x < FRACTION
    ensures var y := x * unit / FRACTION * FRACTION / unit; x - (if unit == NANO then 5 else 4295) <= y <= x
  {
    if unit == MICRO {
      assert x * MICRO - FRACTION < x * MICRO / FRACTION * FRACTION <= x * MICRO;
    } else {
      assert x * NANO - FRACTION < x * NANO / FRACTION * FRACTION <= x * NANO;
    }
  }

  /** Conversion to ERF is strictly increasing. */
  lemma ToErfIncreases(a: Time, b: Time, unit: nat)
    requires Decimal(unit) && Proper(a, unit) && Proper(b, unit) && Before(a, b)
    ensures ToErf(a, unit) < ToErf(b, unit)
  {
    ToErfIs(a, unit);
    ToErfIs(b, unit);
    if a.sec == b.sec {
      Apart(a.part, b.part, unit);
    }
  }

  lemma Apart(m: nat, n: nat, unit: nat)
    requires Decimal(unit) && m < n < unit
    ensures m * FRACTION / unit < n * FRACTION / unit
  {
    Scaled(m, unit);
    Scaled(n, unit);
  }

  /** Conversion from ERF never reverses an order. */
  lemma FromErfIncreases(a: nat, b: nat, unit: nat)
    requires Decimal(unit) && a <= b < WORD64
    ensures !Before(FromErf(b, unit), FromErf(a, unit))
  {
    FromErfIs(a, unit);
    FromErfIs(b, unit);
    if a / FRACTION == b / FRACTION {
      assert a % FRACTION <= b % FRACTION;
      if unit == MICRO {
        assert a % FRACTION * MICRO <= b % FRACTION * MICRO;
      } else {
        assert a % FRACTION * NANO <= b % FRACTION * NANO;
      }
    }
  }
}
