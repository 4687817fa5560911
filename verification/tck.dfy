/** From the TCK period a client asks for to the divisor of the MPSSE clock. */
module Tck {
  import opened Bits

  /** Halves are rounded up, as `round` does for numbers that are not negative. */
  function Round(x: real): (n: nat)
    requires x >= 0.0
  {
    (x + 0.5).Floor
  }

  /** A frequency in MHz. A period of zero makes it infinite, and its conversion to an integer undefined. */
  datatype Frequency = Undefined | Mhz(freq: nat)

  function Requested(period: nat): Frequency {
    if period == 0 then Undefined else Mhz(Round(1000.0 / period as real))
  }

  /** The divisor for a frequency. The program divides by the frequency, zero or not. */
  function Divisor(freq: nat): (d: byte)
    requires freq > 0
    ensures d <= 29
  {
    DivisorBounds(freq);
    (60 / 2 + freq - 1) / freq - 1
  }

  lemma DivisorBounds(freq: nat)
    requires freq > 0
    ensures 0 <= (60 / 2 + freq - 1) / freq - 1 <= 29
  {
    var q := (29 + freq) / freq;
    Quotient(29 + freq, freq);
    Grows(freq, q, 0);
    Grows(freq, 31, q);
  }

  lemma Quotient(x: nat, y: nat)
    requires y > 0
    ensures y * (x / y) <= x < y * (x / y) + y
    ensures y * (x / y - 1) == y * (x / y) - y
  {
    var q := x / y;
    calc {
      y * (q - 1);
      y * q - y * 1;
      y * q - y;
    }
  }

  lemma Grows(freq: nat, a: int, b: int)
    ensures a <= b ==> freq * a <= freq * b
  {
    if a <= b {
      assert freq * b - freq * a == freq * (b - a);
    }
  }

  /** For a period in ns, `f` is the frequency in MHz, halves rounded up, and `d` the smallest divisor for it. */
  ghost predicate Sets(period: nat, f: nat, d: nat) {
    && (2 * f - 1) * period <= 2000 < (2 * f + 1) * period
    && f * d < 30 <= f * (d + 1)
  }

  /** `d` is the divisor for the period. */
  ghost predicate IsDivisorFor(period: nat, d: nat) {
    exists f: nat :: Sets(period, f, d)
  }

  /** What is computed from a period is the divisor for it. */
  lemma RightDivisor(period: nat)
    requires Requested(period).Mhz? && Requested(period).freq > 0
    ensures IsDivisorFor(period, Divisor(Requested(period).freq))
  {
    var f := Requested(period).freq;
    var d := Divisor(f);
    RoundedTo(period);
    DivisorIsBest(f, if d == 0 then 0 else d - 1);
    assert Sets(period, f, d);
  }

  lemma RoundedTo(period: nat)
    requires period > 0
    ensures var f := Round(1000.0 / period as real);
            (2 * f - 1) * period <= 2000 < (2 * f + 1) * period
  {
    var p, x := period as real, 1000.0 / period as real;
    var f := Round(x);
    var fp := f * period;
    Bounds(x, p, f as real);
    assert f as real * p == fp as real;
    assert 2 * fp - period <= 2000 < 2 * fp + period;
    calc {
      (2 * f - 1) * period;
      2 * fp - period;
    }
    calc {
      (2 * f + 1) * period;
      2 * fp + period;
    }
  }

  lemma Bounds(x: real, p: real, r: real)
    requires p > 0.0 && x * p == 1000.0 && r <= x + 0.5 < r + 1.0
    ensures 2.0 * (r * p) - p <= 2000.0 < 2.0 * (r * p) + p
  {
    var a, b := x + 0.5 - r, r + 0.5 - x;
    calc {
      a * p;
      x * p + 0.5 * p - r * p;
      1000.0 + 0.5 * p - r * p;
    }
    calc {
      b * p;
      r * p + 0.5 * p - x * p;
      r * p + 0.5 * p - 1000.0;
    }
    Positive(a, p);
    Positive(b, p);
  }

  lemma Positive(a: real, p: real)
    requires p > 0.0
    ensures (a >= 0.0 ==> a * p >= 0.0) && (a > 0.0 ==> a * p > 0.0)
  {
  }

  /** The periods, in ns, that a change of the clock survives. */
  predicate Settable(period: nat) {
    1 <= period <= 2000
  }

  /** The division by the frequency is defined just for periods of 1 to 2000 ns: half a MHz is still rounded up. */
  lemma SettableExactly(period: nat)
    ensures Settable(period) <==> Requested(period).Mhz? && Requested(period).freq > 0
  {
    if period > 0 {
      var p, x := period as real, 1000.0 / period as real;
      assert x * p == 1000.0;
      if x >= 0.5 {
        assert (x - 0.5) * p >= 0.0;
      } else {
        assert (0.5 - x) * p > 0.0;
      }
    }
  }

  /** A clock of 125 kHz, which XVC clients do ask for, makes the program divide by zero. */
  lemma SlowClockStops()
    ensures Requested(8000) == Mhz(0) && !Settable(8000)
  {
  }

  /** TCK runs at 30 / (d + 1) MHz. Of all divisors, the one chosen gives the highest frequency that does not exceed the
      one asked for. */
  lemma DivisorIsBest(freq: nat, d: nat)
    requires freq > 0
    ensures 30 <= freq * (Divisor(freq) + 1)
    ensures d < Divisor(freq) ==> 30 > freq * (d + 1)
  {
    var q := Divisor(freq) + 1;
    Quotient(29 + freq, freq);
    assert q == (29 + freq) / freq;
    Grows(freq, d + 1, q - 1);
  }
}
