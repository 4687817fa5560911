/** A daisy chain of compliant TAPs: clauses 6 to 12 of IEEE 1149.1-2001, as far as probing can tell. */
module Chain {
  import opened Tap
  import opened Reference

  /** A TAP with an IDCODE register. `irCapture` is the pattern its instruction register captures, `other` what the
      data register selected by an instruction other than all ones captures. Bit 0 is the one nearest TDO. */
  datatype Device = Device(irCapture: seq<bool>, idcode: seq<bool>, other: seq<bool> -> seq<bool>)

  predicate Compliant(d: Device) {
    |d.irCapture| >= 1 && |d.idcode| == 32
  }

  predicate AllOnes(bits: seq<bool>) {
    forall i | 0 <= i < |bits| :: bits[i]
  }

  /** The instruction registers in series, the TAP nearest TDO first. */
  function IrPath(chain: seq<Device>): seq<bool> {
    if chain == [] then [] else chain[0].irCapture + IrPath(chain[1..])
  }

  function IdCodes(chain: seq<Device>): (drs: seq<seq<bool>>)
    ensures |drs| == |chain|
  {
    seq(|chain|, i requires 0 <= i < |chain| => chain[i].idcode)
  }

  function ScanPath(drs: seq<seq<bool>>): seq<bool> {
    if drs == [] then [] else drs[0] + ScanPath(drs[1..])
  }

  /** What each TAP's data register will capture once the shifted-in instructions take effect:
      an instruction of all ones selects BYPASS, which captures a 0. */
  function Decode(chain: seq<Device>, path: seq<bool>): (drs: seq<seq<bool>>)
    ensures |drs| == |chain|
  {
    if chain == [] then []
    else
      var n := if |chain[0].irCapture| <= |path| then |chain[0].irCapture| else |path|;
      [if AllOnes(path[..n]) then [false] else chain[0].other(path[..n])] + Decode(chain[1..], path[n..])
  }

  /** `drs` is what each data register captures under its current instruction; `path` is the shift path. `idle` is the
      level read from TDO when there is no device to drive it. */
  datatype ChainState = ChainState(state: State, drs: seq<seq<bool>>, path: seq<bool>, idle: bool)

  /** The shift path after a clock: it moves one place towards TDO and takes in TDI. */
  function ShiftPath(path: seq<bool>, tdi: bool): seq<bool> {
    if path == [] then [] else path[1..] + [tdi]
  }

  function Step(chain: seq<Device>, c: ChainState, k: Clock): ChainState {
    var next := NextState(c.state, k.tms);
    var path :=
      match c.state
      case CaptureIR => IrPath(chain)
      case CaptureDR => ScanPath(c.drs)
      case ShiftIR => ShiftPath(c.path, k.tdi)
      case ShiftDR => ShiftPath(c.path, k.tdi)
      case _ => c.path;
    var drs := if next == TestLogicReset then IdCodes(chain) else if next == UpdateIR then Decode(chain, path) else c.drs;
    ChainState(next, drs, path, c.idle)
  }

  function After(chain: seq<Device>, c: ChainState, cs: seq<Clock>): ChainState
    decreases cs
  {
    if cs == [] then c else After(chain, Step(chain, c, cs[0]), cs[1..])
  }

  predicate Tdo(c: ChainState) {
    if c.path == [] then c.idle else c.path[0]
  }

  /** `t` is the chain, powered up in `c`. */
  ghost predicate IsChain(t: Target, chain: seq<Device>, c: ChainState) {
    && t.start == c.state
    && forall h :: t.tdo(h) == Tdo(After(chain, c, h))
  }

  lemma {:induction false} AfterAppend(chain: seq<Device>, c: ChainState, a: seq<Clock>, b: seq<Clock>)
    ensures After(chain, c, a + b) == After(chain, After(chain, c, a), b)
    decreases a
  {
    if a == [] {
      assert a + b == b;
    } else {
      assert (a + b)[1..] == a[1..] + b;
      AfterAppend(chain, Step(chain, c, a[0]), a[1..], b);
    }
  }

  /** The chain cannot tell a stream from its mask. */
  lemma {:induction false} AfterMask(chain: seq<Device>, c: ChainState, cs: seq<Clock>)
    ensures After(chain, c, Mask(c.state, cs)) == After(chain, c, cs)
    ensures After(chain, c, cs).state == Run(c.state, cs)
    decreases cs
  {
    if cs != [] {
      var k := if IsShift(c.state) then cs[0] else Clock(cs[0].tms, false);
      assert Step(chain, c, k) == Step(chain, c, cs[0]);
      AfterMask(chain, Step(chain, c, cs[0]), cs[1..]);
      assert Mask(c.state, cs)[1..] == Mask(NextState(c.state, cs[0].tms), cs[1..]);
    }
  }

  lemma {:induction false} ChainSample(t: Target, chain: seq<Device>, c: ChainState, trace: seq<Clock>)
    requires IsChain(t, chain, c)
    ensures Sample(t, trace) == Tdo(After(chain, c, trace))
  {
    AfterMask(chain, c, trace);
  }

  /** Five ones reset every TAP, and reset selects IDCODE. */
  lemma {:induction false} ResetSelectsIdCodes(chain: seq<Device>, c: ChainState, cs: seq<Clock>)
    requires |cs| == 5 && forall i | 0 <= i < 5 :: cs[i].tms
    ensures var c' := After(chain, c, cs);
            c'.state == TestLogicReset && c'.drs == IdCodes(chain)
  {
    AfterMask(chain, c, cs);
    FiveOnesReset(c.state, cs);
    assert cs == cs[..5];
    AfterSnoc(chain, c, cs, 4);
  }

  /** Four clocks of a path that ends in a Capture state. */
  lemma {:induction false} FourSteps(chain: seq<Device>, c: ChainState, cs: seq<Clock>)
    requires |cs| == 4
    ensures After(chain, c, cs) == Step(chain, Step(chain, Step(chain, Step(chain, c, cs[0]), cs[1]), cs[2]), cs[3])
  {
    assert cs[1..][1..] == cs[2..] && cs[2..][1..] == cs[3..] && cs[3..][1..] == [];
    var c1 := Step(chain, c, cs[0]);
    var c2 := Step(chain, c1, cs[1]);
    var c3 := Step(chain, c2, cs[2]);
    assert After(chain, c, cs) == After(chain, c1, cs[1..]) == After(chain, c2, cs[2..]) == After(chain, c3, cs[3..]);
    assert After(chain, c3, cs[3..]) == After(chain, Step(chain, c3, cs[3]), []);
  }

  lemma {:induction false} AfterSnoc(chain: seq<Device>, c: ChainState, cs: seq<Clock>, k: nat)
    requires k < |cs|
    ensures After(chain, c, cs[..k + 1]) == Step(chain, After(chain, c, cs[..k]), cs[k])
  {
    assert cs[..k + 1] == cs[..k] + [cs[k]];
    AfterAppend(chain, c, cs[..k], [cs[k]]);
    var d := After(chain, c, cs[..k]);
    assert After(chain, d, [cs[k]]) == After(chain, Step(chain, d, cs[k]), []);
  }

  lemma PathSlides(stream: seq<bool>, k: nat, n: nat)
    requires k + n < |stream|
    ensures ShiftPath(stream[k..k + n], stream[k + n]) == stream[k + 1..k + 1 + n]
  {
  }

  /** While shifting, what was captured comes out first, then what was shifted in. */
  lemma {:induction false} ShiftOut(chain: seq<Device>, c: ChainState, cs: seq<Clock>, k: nat)
    requires IsShift(c.state) && k <= |cs|
    requires forall i | 0 <= i < |cs| - 1 :: !cs[i].tms
    ensures var stream := c.path + Tdis(cs);
            var d := After(chain, c, cs[..k]);
            && d.path == stream[k..k + |c.path|]
            && d.idle == c.idle
            && (k < |cs| ==> d.state == c.state && d.drs == c.drs)
    decreases k
  {
    hide ShiftPath, IrPath, ScanPath, Decode, IdCodes;
    var stream := c.path + Tdis(cs);
    if k == 0 {
      assert cs[..0] == [];
      assert stream[..|c.path|] == c.path;
    } else {
      ShiftOut(chain, c, cs, k - 1);
      AfterSnoc(chain, c, cs, k - 1);
      PathSlides(stream, k - 1, |c.path|);
      assert cs[k - 1].tdi == stream[k - 1 + |c.path|];
    }
  }

  function Tdis(cs: seq<Clock>): (bits: seq<bool>)
    ensures |bits| == |cs|
  {
    seq(|cs|, i requires 0 <= i < |cs| => cs[i].tdi)
  }

  /** The bits read by a scan: the captured path, followed by what the scan itself shifts in. */
  lemma {:induction false} ScanReads(t: Target, chain: seq<Device>, c: ChainState, trace: seq<Clock>, cs: seq<Clock>,
                                     i: nat)
    requires IsChain(t, chain, c) && i < |cs|
    requires IsShift(After(chain, c, trace).state)
    requires forall j | 0 <= j < |cs| - 1 :: !cs[j].tms
    ensures var d := After(chain, c, trace);
            Samples(t, trace, cs)[i] == if d.path == [] then d.idle else (d.path + Tdis(cs))[i]
  {
    var d := After(chain, c, trace);
    ChainSample(t, chain, c, trace + cs[..i]);
    AfterAppend(chain, c, trace, cs[..i]);
    ShiftOut(chain, d, cs, i);
  }

  lemma {:induction false} DecodeOnes(chain: seq<Device>, path: seq<bool>)
    requires AllOnes(path)
    ensures Decode(chain, path) == seq(|chain|, i => [false])
    decreases chain
  {
    if chain != [] {
      var n := if |chain[0].irCapture| <= |path| then |chain[0].irCapture| else |path|;
      DecodeOnes(chain[1..], path[n..]);
    }
  }

  lemma {:induction false} FlattenZeroes(n: nat)
    ensures ScanPath(seq(n, i => [false])) == seq(n, i => false)
  {
    if n > 0 {
      assert seq(n, i => [false])[1..] == seq(n - 1, i => [false]);
      FlattenZeroes(n - 1);
    }
  }

  lemma {:induction false} FlattenIds(drs: seq<seq<bool>>, i: nat, k: nat)
    requires i < |drs| && k < 32 && forall j | 0 <= j < |drs| :: |drs[j]| == 32
    ensures |ScanPath(drs)| == 32 * |drs| && ScanPath(drs)[32 * i + k] == drs[i][k]
    decreases drs
  {
    if |drs| > 1 {
      FlattenIds(drs[1..], if i == 0 then 0 else i - 1, k);
    } else {
      assert ScanPath(drs[1..]) == [];
    }
  }

  /** All ones through instruction registers of no more than that many bits fill them. */
  lemma {:induction false} OnesFill(chain: seq<Device>, c: ChainState, cs: seq<Clock>)
    requires c.state == ShiftIR && cs != [] && |c.path| <= |cs|
    requires forall i | 0 <= i < |cs| :: cs[i].tdi && cs[i].tms == (i == |cs| - 1)
    ensures var d := After(chain, c, cs);
            d.state == Exit1IR && AllOnes(d.path) && |d.path| == |c.path|
  {
    ShiftOut(chain, c, cs, |cs|);
    assert cs[..|cs|] == cs;
    AfterMask(chain, c, cs);
    ShiftEnds(c.state, cs);
  }

  lemma {:induction false} ShiftEnds(s: State, cs: seq<Clock>)
    requires IsShift(s) && cs != [] && forall i | 0 <= i < |cs| :: cs[i].tms == (i == |cs| - 1)
    ensures Run(s, cs) == NextState(s, true)
    decreases cs
  {
    if |cs| > 1 {
      ShiftEnds(s, cs[1..]);
    } else {
      assert Run(s, cs) == Run(NextState(s, cs[0].tms), []);
    }
  }
}
