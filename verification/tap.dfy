/** The TAP controller of clause 6 of IEEE 1149.1-2001, and clock streams seen from its pins. */
module Tap {

  datatype State =
    | TestLogicReset | RunTestIdle
    | SelectDRScan | CaptureDR | ShiftDR | Exit1DR | PauseDR | Exit2DR | UpdateDR
    | SelectIRScan | CaptureIR | ShiftIR | Exit1IR | PauseIR | Exit2IR | UpdateIR

  function NextState(cur: State, tms: bool): State {
    match cur
    case TestLogicReset => if tms then TestLogicReset else RunTestIdle
    case RunTestIdle => if tms then SelectDRScan else RunTestIdle
    case SelectDRScan => if tms then SelectIRScan else CaptureDR
    case CaptureDR => if tms then Exit1DR else ShiftDR
    case ShiftDR => if tms then Exit1DR else ShiftDR
    case Exit1DR => if tms then UpdateDR else PauseDR
    case PauseDR => if tms then Exit2DR else PauseDR
    case Exit2DR => if tms then UpdateDR else ShiftDR
    case UpdateDR => if tms then SelectDRScan else RunTestIdle
    case SelectIRScan => if tms then TestLogicReset else CaptureIR
    case CaptureIR => if tms then Exit1IR else ShiftIR
    case ShiftIR => if tms then Exit1IR else ShiftIR
    case Exit1IR => if tms then UpdateIR else PauseIR
    case PauseIR => if tms then Exit2IR else PauseIR
    case Exit2IR => if tms then UpdateIR else ShiftIR
    case UpdateIR => if tms then SelectDRScan else RunTestIdle
  }

  predicate IsShift(s: State) {
    s == ShiftDR || s == ShiftIR
  }

  /** The state assignment that the standard gives along with its next-state equations. */
  function Code(s: State): nat {
    match s
    case Exit2DR => 0x0
    case Exit1DR => 0x1
    case ShiftDR => 0x2
    case PauseDR => 0x3
    case SelectIRScan => 0x4
    case UpdateDR => 0x5
    case CaptureDR => 0x6
    case SelectDRScan => 0x7
    case Exit2IR => 0x8
    case Exit1IR => 0x9
    case ShiftIR => 0xA
    case PauseIR => 0xB
    case RunTestIdle => 0xC
    case UpdateIR => 0xD
    case CaptureIR => 0xE
    case TestLogicReset => 0xF
  }

  lemma CodeUnique(s: State, u: State)
    requires Code(s) == Code(u)
    ensures s == u
  {
  }

  /** All 32 edges: `NextState` is the flip-flop equations of the standard, and the Shift states are the two codes ?010. */
  lemma NextStateEquations(s: State, t: bool)
    ensures var (n, m) := (Code(s), Code(NextState(s, t)));
            var (a, b, c, d) := (n % 2 == 1, n / 2 % 2 == 1, n / 4 % 2 == 1, n / 8 == 1);
            && (m % 2 == 1 <==> (!t && !c && a) || (t && !b) || (t && !a) || (t && c && d))
            && (m / 2 % 2 == 1 <==>
                (!t && b && !a) || (!t && !c) || (!t && !d && b) || (!t && !d && !a) || (t && c && !b) || (t && d && c && a))
            && (m / 4 % 2 == 1 <==> (c && !b) || (c && a) || (t && !b))
            && (m / 8 == 1 <==> (d && !c) || (d && b) || (!t && c && !b) || (!d && c && !b && !a))
            && (IsShift(s) <==> b && !a && !c)
  {
  }

  /** The pin levels at one rising edge of TCK. */
  datatype Clock = Clock(tms: bool, tdi: bool)

  function Run(s: State, cs: seq<Clock>): State
    decreases cs
  {
    if cs == [] then s else Run(NextState(s, cs[0].tms), cs[1..])
  }

  /** What the device can tell apart: TDI matters only on clocks taken in a Shift state. */
  function Mask(s: State, cs: seq<Clock>): (m: seq<Clock>)
    ensures |m| == |cs|
    decreases cs
  {
    if cs == [] then []
    else [if IsShift(s) then cs[0] else Clock(cs[0].tms, false)] + Mask(NextState(s, cs[0].tms), cs[1..])
  }

  lemma {:induction false} RunAppend(s: State, a: seq<Clock>, b: seq<Clock>)
    ensures Run(s, a + b) == Run(Run(s, a), b)
    decreases a
  {
    if a == [] {
      assert a + b == b;
    } else {
      assert (a + b)[1..] == a[1..] + b;
      RunAppend(NextState(s, a[0].tms), a[1..], b);
    }
  }

  lemma {:induction false} RunSnoc(s: State, cs: seq<Clock>, i: nat)
    requires i < |cs|
    ensures Run(s, cs[..i + 1]) == NextState(Run(s, cs[..i]), cs[i].tms)
  {
    assert cs[..i + 1] == cs[..i] + [cs[i]];
    RunAppend(s, cs[..i], [cs[i]]);
    assert Run(Run(s, cs[..i]), [cs[i]]) == Run(NextState(Run(s, cs[..i]), cs[i].tms), []);
  }

  lemma {:induction false} MaskAppend(s: State, a: seq<Clock>, b: seq<Clock>)
    ensures Mask(s, a + b) == Mask(s, a) + Mask(Run(s, a), b)
    decreases a
  {
    if a == [] {
      assert a + b == b;
    } else {
      assert (a + b)[1..] == a[1..] + b;
      MaskAppend(NextState(s, a[0].tms), a[1..], b);
    }
  }

  /** Masking keeps TMS, so it keeps the state reached. */
  lemma {:induction false} MaskTms(s: State, a: seq<Clock>, i: nat)
    requires i < |a|
    ensures Mask(s, a)[i].tms == a[i].tms
    decreases a
  {
    if i > 0 {
      MaskTms(NextState(s, a[0].tms), a[1..], i - 1);
    }
  }

  ghost predicate SameTms(a: seq<Clock>, b: seq<Clock>) {
    |a| == |b| && forall i | 0 <= i < |a| :: a[i].tms == b[i].tms
  }

  lemma {:induction false} SameTmsRun(s: State, a: seq<Clock>, b: seq<Clock>)
    requires SameTms(a, b)
    ensures Run(s, a) == Run(s, b)
    decreases a
  {
    if a != [] {
      SameTmsRun(NextState(s, a[0].tms), a[1..], b[1..]);
    }
  }

  lemma {:induction false} MaskSameTms(s: State, a: seq<Clock>, b: seq<Clock>)
    requires Mask(s, a) == Mask(s, b)
    ensures SameTms(a, b) && forall p :: Run(p, a) == Run(p, b)
  {
    assert |a| == |b| by { assert |Mask(s, a)| == |Mask(s, b)|; }
    forall i | 0 <= i < |a| ensures a[i].tms == b[i].tms {
      MaskTms(s, a, i);
      MaskTms(s, b, i);
    }
    forall p ensures Run(p, a) == Run(p, b) {
      SameTmsRun(p, a, b);
    }
  }

  lemma {:induction false} MaskPrefix(s: State, a: seq<Clock>, b: seq<Clock>, i: nat)
    requires Mask(s, a) == Mask(s, b) && i <= |a|
    ensures i <= |b| && Mask(s, a[..i]) == Mask(s, b[..i])
  {
    assert |Mask(s, a)| == |a| && |Mask(s, b)| == |b|;
    assert a[..i] + a[i..] == a && b[..i] + b[i..] == b;
    MaskAppend(s, a[..i], a[i..]);
    MaskAppend(s, b[..i], b[i..]);
    assert Mask(s, a[..i]) == Mask(s, a)[..i] && Mask(s, b[..i]) == Mask(s, b)[..i];
  }

  /** Clocks taken outside the Shift states differ only in TDI, which the mask hides. */
  lemma {:induction false} MaskOutsideShift(s: State, a: seq<Clock>, b: seq<Clock>)
    requires SameTms(a, b)
    requires forall i | 0 <= i < |b| :: !IsShift(Run(s, b[..i]))
    ensures Mask(s, a) == Mask(s, b)
    decreases a
  {
    if a != [] {
      assert b[..0] == [];
      var s' := NextState(s, b[0].tms);
      forall i | 0 <= i < |b[1..]| ensures !IsShift(Run(s', b[1..][..i])) {
        assert b[..i + 1][1..] == b[1..][..i];
        assert !IsShift(Run(s, b[..i + 1]));
      }
      MaskOutsideShift(s', a[1..], b[1..]);
    }
  }

  /** The level the TMS pin is left at: MPSSE drives it high until the first clock. */
  predicate TmsPin(trace: seq<Clock>) {
    |trace| == 0 || trace[|trace| - 1].tms
  }

  lemma TmsPinAppend(trace: seq<Clock>, cs: seq<Clock>)
    requires cs != []
    ensures TmsPin(trace + cs) == cs[|cs| - 1].tms
  {
  }

  /** The hidden invariant behind bulk data commands: TMS is low in the Shift states,
      and in Run-Test/Idle once a clock has entered it. */
  lemma {:induction false} PinLow(s: State, trace: seq<Clock>)
    requires !IsShift(s) && s != RunTestIdle
    requires IsShift(Run(s, trace)) || Run(s, trace) == RunTestIdle
    ensures trace != [] && !TmsPin(trace)
  {
    if trace != [] {
      var n := |trace| - 1;
      assert trace == trace[..n] + [trace[n]];
      RunAppend(s, trace[..n], [trace[n]]);
      assert Run(Run(s, trace[..n]), [trace[n]]) == NextState(Run(s, trace[..n]), trace[n].tms);
    }
  }

  ghost predicate FiveOnesAt(cs: seq<Clock>, k: nat) {
    k + 5 <= |cs| && forall i | k <= i < k + 5 :: cs[i].tms
  }

  lemma {:induction false} FiveOnesReset(s: State, cs: seq<Clock>)
    requires |cs| == 5 && forall i | 0 <= i < 5 :: cs[i].tms
    ensures Run(s, cs) == TestLogicReset
  {
    assert cs[1..][1..] == cs[2..] && cs[2..][1..] == cs[3..] && cs[3..][1..] == cs[4..] && cs[4..][1..] == [];
    var s1 := NextState(s, true);
    var s2 := NextState(s1, true);
    var s3 := NextState(s2, true);
    var s4 := NextState(s3, true);
    assert Run(s, cs) == Run(s1, cs[1..]) == Run(s2, cs[2..]);
    assert Run(s2, cs[2..]) == Run(s3, cs[3..]) == Run(s4, cs[4..]);
    assert Run(s4, cs[4..]) == NextState(s4, true);
  }

  /** Whatever state the TAP is really in, five consecutive ones bring it back to the tracked one for good. */
  lemma {:induction false} Resynchronise(p: State, s: State, cs: seq<Clock>, k: nat, m: nat)
    requires FiveOnesAt(cs, k) && k + 5 <= m <= |cs|
    ensures Run(p, cs[..m]) == Run(s, cs[..m])
  {
    assert cs[..m] == cs[..k] + cs[k..k + 5] + cs[k + 5..m];
    forall q ensures Run(q, cs[..m]) == Run(TestLogicReset, cs[k + 5..m]) {
      RunAppend(q, cs[..k] + cs[k..k + 5], cs[k + 5..m]);
      RunAppend(q, cs[..k], cs[k..k + 5]);
      FiveOnesReset(Run(q, cs[..k]), cs[k..k + 5]);
    }
  }
}
