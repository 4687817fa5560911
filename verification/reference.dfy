/** The device under test and the bit-at-a-time server the adapters must agree with. */
module Reference {
  import opened Bits
  import opened Tap

  /** Any device behind a TAP that powers up in `start`. The bit on TDO is any function of the clocks seen so
      far, with TDI hidden on clocks taken outside the Shift states. `junk` is whatever an adapter leaves in the
      bits of a response byte that carry no sample. */
  datatype Target = Target(start: State, tdo: seq<Clock> -> bool, junk: seq<Clock> -> byte)

  predicate Sample(t: Target, trace: seq<Clock>) {
    t.tdo(Mask(t.start, trace))
  }

  /** The TDO bits at the clocks `cs`, which follow `trace`. */
  function Samples(t: Target, trace: seq<Clock>, cs: seq<Clock>): (bits: seq<bool>)
    ensures |bits| == |cs|
  {
    seq(|cs|, i requires 0 <= i < |cs| => Sample(t, trace + cs[..i]))
  }

  /** One (TMS, TDI) pair in, one TDO bit out: the device's bit in a Shift state, zero otherwise. */
  function Serve(t: Target, state: State, hist: seq<Clock>, cs: seq<Clock>): (tdo: seq<bool>)
    ensures |tdo| == |cs|
    decreases cs
  {
    if cs == [] then []
    else [IsShift(state) && Sample(t, hist)] + Serve(t, NextState(state, cs[0].tms), hist + [cs[0]], cs[1..])
  }

  lemma {:induction false} ServeAt(t: Target, state: State, hist: seq<Clock>, cs: seq<Clock>, i: nat)
    requires i < |cs|
    ensures Serve(t, state, hist, cs)[i] == (IsShift(Run(state, cs[..i])) && Sample(t, hist + cs[..i]))
    decreases cs
  {
    if i == 0 {
      assert hist + cs[..0] == hist;
    } else {
      ServeAt(t, NextState(state, cs[0].tms), hist + [cs[0]], cs[1..], i - 1);
      assert cs[..i][1..] == cs[1..][..i - 1];
      assert hist + [cs[0]] + cs[1..][..i - 1] == hist + cs[..i];
    }
  }

  /** Serving a stream in two chunks gives the bits of serving it at once. */
  lemma {:induction false} ServeAppend(t: Target, state: State, hist: seq<Clock>, a: seq<Clock>, b: seq<Clock>)
    ensures Serve(t, state, hist, a + b) == Serve(t, state, hist, a) + Serve(t, Run(state, a), hist + a, b)
    decreases a
  {
    if a == [] {
      assert a + b == b && hist + a == hist;
    } else {
      assert (a + b)[1..] == a[1..] + b;
      assert hist + [a[0]] + a[1..] == hist + a;
      ServeAppend(t, NextState(state, a[0].tms), hist + [a[0]], a[1..], b);
    }
  }

  lemma SamplesAppend(t: Target, trace: seq<Clock>, a: seq<Clock>, b: seq<Clock>)
    ensures Samples(t, trace, a + b) == Samples(t, trace, a) + Samples(t, trace + a, b)
  {
    forall i | 0 <= i < |a + b|
      ensures Samples(t, trace, a + b)[i] == (Samples(t, trace, a) + Samples(t, trace + a, b))[i]
    {
      if i < |a| {
        assert (a + b)[..i] == a[..i];
      } else {
        assert trace + (a + b)[..i] == trace + a + b[..i - |a|];
      }
    }
  }

  lemma SamplesAppend3(t: Target, trace: seq<Clock>, a: seq<Clock>, b: seq<Clock>, f: seq<Clock>)
    ensures Samples(t, trace, a + b + f) ==
            Samples(t, trace, a) + Samples(t, trace + a, b) + Samples(t, trace + a + b, f)
  {
    SamplesAppend(t, trace, a + b, f);
    SamplesAppend(t, trace, a, b);
    assert trace + (a + b) == trace + a + b;
  }

  lemma SamplesSnoc(t: Target, trace: seq<Clock>, a: seq<Clock>, k: Clock)
    ensures Samples(t, trace, a + [k]) == Samples(t, trace, a) + [Sample(t, trace + a)]
  {
    SamplesAppend(t, trace, a, [k]);
    assert trace + a + [k][..0] == trace + a;
  }
}
