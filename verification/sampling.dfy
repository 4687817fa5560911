/** How adapters pack sampled TDO bits into response bytes. */
module Sampling {
  import opened Bits
  import opened Tap
  import opened Reference

  /** The input shift register: each sample enters at bit 7. */
  function Register(r: byte, samples: seq<bool>): byte
    decreases samples
  {
    if samples == [] then r else Register(r / 2 + (if samples[0] then 128 else 0), samples[1..])
  }

  /** The samples that share response byte `b`. */
  function Group(samples: seq<bool>, b: nat): (g: seq<bool>)
    requires 8 * b < |samples|
    ensures |g| == if 8 * b + 8 <= |samples| then 8 else |samples| - 8 * b
  {
    samples[8 * b..if 8 * b + 8 <= |samples| then 8 * b + 8 else |samples|]
  }

  /** One response byte for every eight samples, and one for the rest. */
  function Answer(t: Target, trace: seq<Clock>, cs: seq<Clock>): (resp: seq<byte>)
    ensures |resp| == (|cs| + 7) / 8
  {
    seq<byte>((|cs| + 7) / 8, b requires 0 <= b < (|cs| + 7) / 8 =>
      Register(t.junk(trace + cs[..8 * b]), Group(Samples(t, trace, cs), b)))
  }

  /** After n samples, the register holds them in its top n bits. */
  lemma {:induction false} RegisterBit(r: byte, samples: seq<bool>, k: nat)
    requires |samples| <= 8 && k < 8
    ensures Bit(Register(r, samples), k) == if k + |samples| < 8 then Bit(r, k + |samples|) else samples[k + |samples| - 8]
    decreases samples
  {
    if samples != [] {
      var r' := r / 2 + if samples[0] then 128 else 0;
      RegisterBit(r', samples[1..], k);
      if k + |samples| <= 8 {
        Pow2Of8();
        TopBit(r / 2, 7, samples[0], k + |samples| - 1);
      }
    }
  }

  lemma {:induction false} GroupBit(r: byte, samples: seq<bool>, i: nat)
    requires i < |samples|
    ensures var n := |samples|;
            Bit(Register(r, Group(samples, i / 8)), if i / 8 < n / 8 then i % 8 else 8 - n % 8 + i % 8) == samples[i]
  {
    var g := Group(samples, i / 8);
    assert g[i % 8] == samples[i];
    RegisterBit(r, g, 8 - |g| + i % 8);
  }

  /** `resp` holds `samples`, eight to a byte, the last byte filled from the top. */
  ghost predicate HoldsSamples(resp: seq<byte>, samples: seq<bool>) {
    && |resp| == (|samples| + 7) / 8
    && forall i | 0 <= i < |samples| ::
         Bit(resp[i / 8], if i / 8 < |samples| / 8 then i % 8 else 8 - |samples| % 8 + i % 8) == samples[i]
  }

  lemma AnswerHolds(t: Target, trace: seq<Clock>, cs: seq<Clock>)
    ensures HoldsSamples(Answer(t, trace, cs), Samples(t, trace, cs))
  {
    var samples := Samples(t, trace, cs);
    forall i | 0 <= i < |cs|
      ensures Bit(Answer(t, trace, cs)[i / 8], if i / 8 < |cs| / 8 then i % 8 else 8 - |cs| % 8 + i % 8) == samples[i]
    {
      var r := t.junk(trace + cs[..8 * (i / 8)]);
      assert Answer(t, trace, cs)[i / 8] == Register(r, Group(samples, i / 8));
      GroupBit(r, samples, i);
    }
  }

  lemma HoldsAppend(x: seq<byte>, a: seq<bool>, y: seq<byte>, b: seq<bool>)
    requires HoldsSamples(x, a) && HoldsSamples(y, b) && |a| % 8 == 0 && |b| % 8 == 0
    ensures HoldsSamples(x + y, a + b)
  {
    assert |a| == 8 * |x| && |b| == 8 * |y|;
    forall i | 0 <= i < |a + b| ensures i / 8 < |x + y| && Bit((x + y)[i / 8], i % 8) == (a + b)[i] {
      AppendedBit(x, a, y, b, i);
    }
  }

  lemma {:induction false} AppendedBit(x: seq<byte>, a: seq<bool>, y: seq<byte>, b: seq<bool>, i: nat)
    requires HoldsSamples(x, a) && HoldsSamples(y, b) && |a| == 8 * |x| && |b| == 8 * |y| && i < |a| + |b|
    ensures i / 8 < |x| + |y| && Bit((x + y)[i / 8], i % 8) == (a + b)[i]
  {
    if i < |a| {
      assert (x + y)[i / 8] == x[i / 8] && a[i] == Bit(x[i / 8], i % 8);
    } else {
      var k := i - |a|;
      assert i / 8 == |x| + k / 8 && i % 8 == k % 8;
      assert (x + y)[i / 8] == y[k / 8] && b[k] == Bit(y[k / 8], k % 8);
    }
  }
}
