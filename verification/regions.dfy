/** Cutting a raw (TMS, TDI) stream into TMS and DATA regions. */
module Regions {
  import opened Bits
  import opened Tap

  /** TDI is ignored in a TMS region; a DATA region is shifted in bulk, with TMS raised on its last bit if `flipTms`. */
  datatype Region =
    | TmsRegion(begin: nat, end: nat)
    | DataRegion(begin: nat, end: nat, flipTms: bool)
  {
    function Length(): nat
      requires begin <= end
    {
      end - begin
    }
  }

  /** `tms` holds the TMS bits of the clocks `cs`. */
  ghost predicate HoldsTms(tms: seq<byte>, cs: seq<Clock>) {
    && |cs| <= 8 * |tms|
    && forall i | 0 <= i < |cs| :: BitAt(tms, i) == cs[i].tms
  }

  ghost function StateAt(s: State, cs: seq<Clock>, i: nat): State
    requires i <= |cs|
  {
    Run(s, cs[..i])
  }

  /** Every clock of a region is of the region's kind. */
  ghost predicate Homogeneous(s: State, cs: seq<Clock>, r: Region) {
    && r.begin < r.end <= |cs|
    && match r
       case TmsRegion(begin, end) =>
         forall i | begin <= i < end :: !IsShift(StateAt(s, cs, i))
       case DataRegion(begin, end, flipTms) =>
         && IsShift(StateAt(s, cs, begin))
         && (forall i | begin <= i < end :: StateAt(s, cs, i) == StateAt(s, cs, begin))
         && (forall i | begin <= i < end - 1 :: !cs[i].tms)
         && cs[end - 1].tms == flipTms
  }

  /** A region stops only where its kind changes or the input ends. */
  ghost predicate Maximal(s: State, cs: seq<Clock>, r: Region)
    requires r.begin < r.end <= |cs|
  {
    r.end == |cs| || IsShift(StateAt(s, cs, r.end)) == r.TmsRegion?
  }

  ghost predicate Adjacent(rs: seq<Region>, lo: nat, hi: nat) {
    if rs == [] then lo == hi
    else
      && rs[0].begin == lo
      && rs[|rs| - 1].end == hi
      && forall k | 0 < k < |rs| :: rs[k].begin == rs[k - 1].end
  }

  /** `rs` cuts the clocks [0, hi) of `cs` into consecutive homogeneous, maximal regions. */
  ghost predicate CutsTo(s: State, cs: seq<Clock>, rs: seq<Region>, hi: nat) {
    && Adjacent(rs, 0, hi)
    && forall k | 0 <= k < |rs| :: Homogeneous(s, cs, rs[k]) && Maximal(s, cs, rs[k])
  }

  ghost predicate Cuts(s: State, cs: seq<Clock>, rs: seq<Region>) {
    CutsTo(s, cs, rs, |cs|)
  }

  lemma StateStep(s: State, cs: seq<Clock>, i: nat)
    requires i < |cs|
    ensures StateAt(s, cs, i + 1) == NextState(StateAt(s, cs, i), cs[i].tms)
  {
    RunSnoc(s, cs, i);
  }

  lemma PushRegion(s: State, cs: seq<Clock>, rs: seq<Region>, r: Region)
    requires CutsTo(s, cs, rs, r.begin) && Homogeneous(s, cs, r) && Maximal(s, cs, r)
    ensures CutsTo(s, cs, rs + [r], r.end)
  {
  }

  /** The clocks since the last cut are all of one kind: all taken outside the Shift states,
      or all in one Shift state with TMS low. */
  ghost predicate Open(s: State, cs: seq<Clock>, begin: nat, i: nat)
    requires begin <= i <= |cs|
  {
    if IsShift(StateAt(s, cs, i)) then
      && (forall j | begin <= j <= i :: StateAt(s, cs, j) == StateAt(s, cs, i))
      && forall j | begin <= j < i :: !cs[j].tms
    else
      forall j | begin <= j <= i :: !IsShift(StateAt(s, cs, j))
  }

  lemma OpenHere(s: State, cs: seq<Clock>, i: nat)
    requires i <= |cs|
    ensures Open(s, cs, i, i)
  {
  }

  lemma AdvanceInside(s: State, cs: seq<Clock>, begin: nat, i: nat)
    requires begin <= i < |cs| && Open(s, cs, begin, i)
    requires IsShift(StateAt(s, cs, i)) == IsShift(StateAt(s, cs, i + 1))
    ensures Open(s, cs, begin, i + 1)
  {
    StateStep(s, cs, i);
  }

  lemma EnterShift(s: State, cs: seq<Clock>, begin: nat, i: nat)
    requires begin <= i < |cs| && Open(s, cs, begin, i)
    requires !IsShift(StateAt(s, cs, i)) && IsShift(StateAt(s, cs, i + 1))
    ensures Homogeneous(s, cs, TmsRegion(begin, i + 1)) && Maximal(s, cs, TmsRegion(begin, i + 1))
  {
  }

  lemma LeaveShift(s: State, cs: seq<Clock>, begin: nat, i: nat)
    requires begin <= i < |cs| && Open(s, cs, begin, i)
    requires IsShift(StateAt(s, cs, i)) && !IsShift(StateAt(s, cs, i + 1))
    ensures Homogeneous(s, cs, DataRegion(begin, i + 1, true)) && Maximal(s, cs, DataRegion(begin, i + 1, true))
  {
    StateStep(s, cs, i);
  }

  lemma {:induction false} CloseAtEnd(s: State, cs: seq<Clock>, begin: nat, r: Region)
    requires begin < |cs| && Open(s, cs, begin, |cs|)
    requires r == if IsShift(Run(s, cs)) then DataRegion(begin, |cs|, false) else TmsRegion(begin, |cs|)
    ensures Homogeneous(s, cs, r) && Maximal(s, cs, r)
  {
    assert cs[..|cs|] == cs;
  }

  method AnalyzeBitbang(tms: seq<byte>, bits: nat, state: State, ghost cs: seq<Clock>)
      returns (regions: seq<Region>, curState: State)
    requires |cs| == bits && HoldsTms(tms, cs)
    ensures Cuts(state, cs, regions)
    ensures curState == Run(state, cs)
  {
    hide Homogeneous, Maximal, Open, Bit;
    OpenHere(state, cs, 0);
    var shiftPos := 0;
    regions := [];
    curState := state;
    for i := 0 to bits
      invariant shiftPos <= i
      invariant curState == StateAt(state, cs, i)
      invariant CutsTo(state, cs, regions, shiftPos)
      invariant Open(state, cs, shiftPos, i)
    {
      var tmsBit := Bit(tms[i / 8], i % 8);
      assert tmsBit == BitAt(tms, i);
      var newState := NextState(curState, tmsBit);
      StateStep(state, cs, i);
      if (curState != ShiftDR && newState == ShiftDR) || (curState != ShiftIR && newState == ShiftIR) {
        var region := TmsRegion(shiftPos, i + 1);
        EnterShift(state, cs, shiftPos, i);
        PushRegion(state, cs, regions, region);
        regions := regions + [region];
        OpenHere(state, cs, i + 1);
        shiftPos := i + 1;
      } else if (curState == ShiftDR && newState != ShiftDR) || (curState == ShiftIR && newState != ShiftIR) {
        var region := DataRegion(shiftPos, i + 1, true);
        LeaveShift(state, cs, shiftPos, i);
        PushRegion(state, cs, regions, region);
        regions := regions + [region];
        OpenHere(state, cs, i + 1);
        shiftPos := i + 1;
      } else {
        AdvanceInside(state, cs, shiftPos, i);
      }
      curState := newState;
    }
    assert cs[..bits] == cs;
    if shiftPos != bits {
      var region := if curState != ShiftDR && curState != ShiftIR then TmsRegion(shiftPos, bits)
                    else DataRegion(shiftPos, bits, false);
      CloseAtEnd(state, cs, shiftPos, region);
      PushRegion(state, cs, regions, region);
      regions := regions + [region];
    }
  }

  lemma EndsNoLater(s: State, cs: seq<Clock>, a: Region, b: Region)
    requires Homogeneous(s, cs, a) && Homogeneous(s, cs, b) && Maximal(s, cs, b)
    requires a.begin == b.begin
    ensures a.TmsRegion? == b.TmsRegion? && a.end <= b.end
  {
    assert a.TmsRegion? == !IsShift(StateAt(s, cs, a.begin)) == b.TmsRegion?;
  }

  /** Two maximal homogeneous regions that begin together are the same region. */
  lemma SameBegin(s: State, cs: seq<Clock>, a: Region, b: Region)
    requires Homogeneous(s, cs, a) && Maximal(s, cs, a)
    requires Homogeneous(s, cs, b) && Maximal(s, cs, b)
    requires a.begin == b.begin
    ensures a == b
  {
    EndsNoLater(s, cs, a, b);
    EndsNoLater(s, cs, b, a);
  }

  /** The cut is determined by the stream: any two analyses that satisfy `Cuts` agree. */
  lemma {:induction false} CutUnique(s: State, cs: seq<Clock>, a: seq<Region>, b: seq<Region>, k: nat)
    requires Cuts(s, cs, a) && Cuts(s, cs, b)
    requires k <= |a| && k <= |b| && a[..k] == b[..k]
    ensures a == b
    decreases |a| - k
  {
    hide Cuts;
    if k < |a| && k < |b| {
      SameNext(s, cs, a, b, k);
      assert a[..k + 1] == a[..k] + [a[k]] == b[..k + 1];
      CutUnique(s, cs, a, b, k + 1);
    } else if k < |a| {
      NoProperPrefix(s, cs, b, a);
    } else if k < |b| {
      NoProperPrefix(s, cs, a, b);
    }
  }

  lemma SameNext(s: State, cs: seq<Clock>, a: seq<Region>, b: seq<Region>, k: nat)
    requires Cuts(s, cs, a) && Cuts(s, cs, b)
    requires k < |a| && k < |b| && a[..k] == b[..k]
    ensures a[k] == b[k]
  {
    hide Homogeneous, Maximal;
    assert k > 0 ==> a[k - 1] == a[..k][k - 1] == b[..k][k - 1] == b[k - 1];
    SameBegin(s, cs, a[k], b[k]);
  }

  lemma BeginsBelow(s: State, cs: seq<Clock>, rs: seq<Region>, k: nat)
    requires Cuts(s, cs, rs) && k < |rs|
    ensures (if k == 0 then 0 else rs[k - 1].end) < |cs|
  {
    assert Homogeneous(s, cs, rs[k]);
  }

  /** A cut that has reached the end of the stream cannot be extended. */
  lemma NoProperPrefix(s: State, cs: seq<Clock>, a: seq<Region>, b: seq<Region>)
    requires Cuts(s, cs, a) && Cuts(s, cs, b)
    requires |a| <= |b| && b[..|a|] == a
    ensures a == b
  {
    if |a| < |b| {
      BeginsBelow(s, cs, b, |a|);
    }
  }
}
