/** Which read marks the remote bitbang server can be trusted with: exactly the ones it assumes. */
module RbbMarks {
  import opened Bits
  import opened Tap
  import opened Reference
  import opened Regions
  import opened RbbProtocol

  /** The chunk is answered as one character at a time, whatever the device. */
  ghost predicate RightForEveryDevice(s: State, hist: seq<Clock>, chars: seq<byte>, rs: seq<Region>)
    requires Within(rs, |ClocksIn(chars)|)
  {
    forall t: Target ::
      ReadOut(Serve(t, s, hist, ClocksIn(chars)), MarksIn(chars), rs) == OneAtATime(t, s, hist, chars)
  }

  function Ones(digits: seq<byte>): nat {
    if digits == [] then 0
    else Ones(digits[..|digits| - 1]) + if digits[|digits| - 1] == 0x31 then 1 else 0
  }

  lemma {:induction false} OnesAppend(a: seq<byte>, b: seq<byte>)
    ensures Ones(a + b) == Ones(a) + Ones(b)
    decreases b
  {
    if b == [] {
      assert a + b == a;
    } else {
      assert (a + b)[..|a + b| - 1] == a + b[..|b| - 1];
      OnesAppend(a, b[..|b| - 1]);
    }
  }

  lemma {:induction false} OnesRepeat(bit: bool, n: nat)
    ensures Ones(Repeat(Digit(bit), n)) == if bit then n else 0
  {
    if n > 0 {
      assert Repeat(Digit(bit), n)[..n - 1] == Repeat(Digit(bit), n - 1);
      OnesRepeat(bit, n - 1);
    }
  }

  /** `want` has a single one, at `j`. */
  ghost predicate Single(want: seq<bool>, j: nat) {
    forall i | 0 <= i < |want| :: want[i] == (i == j)
  }

  lemma {:induction false} OnesDigits(want: seq<bool>, begin: nat, n: nat, j: nat)
    requires begin <= n <= |want| && Single(want, j)
    ensures Ones(Digits(want[begin..n])) == if begin <= j < n then 1 else 0
    decreases n
  {
    if n > begin {
      var d := Digits(want[begin..n]);
      assert d[..|d| - 1] == Digits(want[begin..n - 1]);
      OnesDigits(want, begin, n - 1, j);
    } else {
      assert want[begin..n] == [];
    }
  }

  /** A single one shows how often it was asked for ... */
  lemma {:induction false} OnesExpand(want: seq<bool>, marks: seq<nat>, n: nat, j: nat)
    requires n <= |want| && n <= |marks| && Single(want, j)
    ensures Ones(Expand(want, marks, n)) == if j < n then marks[j] else 0
  {
    if n > 0 {
      OnesExpand(want, marks, n - 1, j);
      OnesAppend(Expand(want, marks, n - 1), Repeat(Digit(want[n - 1]), marks[n - 1]));
      OnesRepeat(want[n - 1], marks[n - 1]);
    }
  }

  /** ... and how often it was read. */
  lemma {:induction false} OnesReadOut(want: seq<bool>, marks: seq<nat>, rs: seq<Region>, k: nat, m: nat, j: nat)
    requires k <= |rs| && Within(rs, |want|) && |want| <= |marks| && Adjacent(rs, 0, |want|) && Single(want, j)
    requires m < |rs| && rs[m].begin <= j < rs[m].end
    ensures Within(rs[..k], |want|)
    ensures Ones(ReadOut(want, marks, rs[..k])) == if m < k && IsRead(marks, rs[m]) then 1 else 0
  {
    hide ReadOut, Ones, Single, Adjacent, IsRead;
    if k == 0 {
      NothingRead(want, marks, rs);
    } else {
      OnesReadOut(want, marks, rs, k - 1, m, j);
      assert rs[..k] == rs[..k - 1] + [rs[k - 1]];
      OnesReadOutMore(want, marks, rs[..k - 1], rs[k - 1], j);
      Apart(rs, |want|, k - 1, m, j);
    }
  }

  lemma {:induction false} NothingRead(want: seq<bool>, marks: seq<nat>, rs: seq<Region>)
    requires |want| <= |marks|
    ensures Within(rs[..0], |want|) && Ones(ReadOut(want, marks, rs[..0])) == 0
  {
  }

  lemma {:induction false} OnesReadOutMore(want: seq<bool>, marks: seq<nat>, rs: seq<Region>, r: Region, j: nat)
    requires Within(rs, |want|) && r.begin < r.end <= |want| <= |marks| && Single(want, j)
    ensures Within(rs + [r], |want|)
    ensures Ones(ReadOut(want, marks, rs + [r])) ==
            Ones(ReadOut(want, marks, rs)) + if IsRead(marks, r) && r.begin <= j < r.end then 1 else 0
  {
    hide ReadOut, Digits, Single, Ones;
    ReadOutSnoc(want, marks, rs, r);
    OnesAppend(ReadOut(want, marks, rs), if IsRead(marks, r) then Digits(want[r.begin..r.end]) else []);
    OnesDigits(want, r.begin, r.end, j);
    OnesNone();
  }

  lemma OnesNone()
    ensures Ones([]) == 0
  {
  }

  /** A clock is in one region only. */
  lemma Apart(rs: seq<Region>, n: nat, k: nat, m: nat, j: nat)
    requires Adjacent(rs, 0, n) && Within(rs, n) && k < |rs| && m < |rs| && rs[m].begin <= j < rs[m].end
    ensures rs[k].begin <= j < rs[k].end <==> k == m
  {
    if k < m {
      Ordered(rs, n, k, m);
    } else if m < k {
      Ordered(rs, n, m, k);
    }
  }

  lemma {:induction false} Ordered(rs: seq<Region>, n: nat, a: nat, b: nat)
    requires Adjacent(rs, 0, n) && Within(rs, n) && a < b < |rs|
    ensures rs[a].end <= rs[b].begin
    decreases b
  {
    if a < b - 1 {
      Ordered(rs, n, a, b - 1);
    }
  }

  /** A device that drives a one at clock `j` and zeroes elsewhere. */
  function Beacon(hist: seq<Clock>, j: nat): Target {
    Target(TestLogicReset, h => |h| == |hist| + j, h => 0)
  }

  lemma {:induction false} BeaconServes(s: State, hist: seq<Clock>, cs: seq<Clock>, j: nat)
    requires j < |cs| && IsShift(StateAt(s, cs, j))
    ensures Single(Serve(Beacon(hist, j), s, hist, cs), j)
    ensures !Level(Beacon(hist, j), s, hist, cs)
  {
    var want := Serve(Beacon(hist, j), s, hist, cs);
    forall i | 0 <= i < |want| ensures want[i] == (i == j) {
      ServeAt(Beacon(hist, j), s, hist, cs, i);
    }
  }

  /** If a chunk is right for every device, each bit of a DATA region is asked for exactly as often as it is read. */
  lemma {:induction false} DataMarks(s: State, hist: seq<Clock>, chars: seq<byte>, rs: seq<Region>, m: nat, j: nat)
    requires Cuts(s, ClocksIn(chars), rs) && Within(rs, |ClocksIn(chars)|)
    requires RightForEveryDevice(s, hist, chars, rs)
    requires m < |rs| && rs[m].DataRegion? && rs[m].begin <= j < rs[m].end
    ensures MarksIn(chars)[j] == if IsRead(MarksIn(chars), rs[m]) then 1 else 0
  {
    hide Serve, Level;
    var cs, marks, t := ClocksIn(chars), MarksIn(chars), Beacon(hist, j);
    var want := Serve(t, s, hist, cs);
    assert IsShift(StateAt(s, cs, j)) by { assert Homogeneous(s, cs, rs[m]); }
    BeaconServes(s, hist, cs, j);
    assert rs[..|rs|] == rs;
    OnesReadOut(want, marks, rs, |rs|, m, j);
    OneAtATimeExpands(t, s, hist, chars);
    OnesExpand(want, marks, |cs|, j);
    OnesRepeat(false, marks[|cs|]);
    OnesAppend(Expand(want, marks, |cs|), Repeat(Digit(Level(t, s, hist, cs)), marks[|cs|]));
    assert ReadOut(want, marks, rs) == OneAtATime(t, s, hist, chars);
  }

  lemma {:induction false} SumGrows(marks: seq<nat>, begin: nat, n: nat, i: nat)
    requires begin <= n <= |marks|
    ensures Sum(marks[..n]) >= Sum(marks[..begin]) + if begin <= i < n then marks[i] else 0
    decreases n
  {
    if n > begin {
      SumGrows(marks, begin, n - 1, i);
      assert marks[..n][..n - 1] == marks[..n - 1];
    }
  }

  lemma BeginsAt(rs: seq<Region>, n: nat, k: nat)
    requires Adjacent(rs, 0, n) && k < |rs|
    ensures rs[k].begin == if k == 0 then 0 else rs[k - 1].end
  {
  }

  /** A well-marked DATA region is read just if its first bit is marked. */
  lemma ReadWhole(marks: seq<nat>, r: Region)
    requires r.begin < r.end <= |marks|
    requires r.DataRegion? ==> WellMarkedRegion(marks, r)
    ensures IsRead(marks, r) <==> r.DataRegion? && marks[r.begin] == 1
  {
    if r.DataRegion? {
      assert marks[r.end - 1] == marks[r.begin];
    }
  }

  lemma RegionAdds(marks: seq<nat>, r: Region, i: nat)
    requires r.begin < r.end < |marks|
    requires r.DataRegion? ==> WellMarkedRegion(marks, r)
    ensures Sum(marks[..r.end]) >= Sum(marks[..r.begin])
            + (if IsRead(marks, r) then r.end - r.begin else 0)
            + (if r.TmsRegion? && r.begin <= i < r.end then marks[i] else 0)
  {
    hide Sum, WellMarkedRegion;
    ReadWhole(marks, r);
    if r.DataRegion? {
      SumRegion(marks, r, r.end);
    } else {
      SumGrows(marks, r.begin, r.end, i);
    }
  }

  /** The marks before region `k` are those that are read and at least `extra` more. */
  ghost predicate OnTop(marks: seq<nat>, rs: seq<Region>, k: nat, extra: nat) {
    && k <= |rs|
    && Within(rs[..k], |marks|)
    && Sum(marks[..if k == 0 then 0 else rs[..k][k - 1].end]) >= ReadLength(marks, rs[..k]) + extra
  }

  lemma NoneOnTop(marks: seq<nat>, rs: seq<Region>)
    ensures OnTop(marks, rs, 0, 0)
  {
  }

  lemma OneMoreOnTop(marks: seq<nat>, rs: seq<Region>, n: nat, k: nat, extra: nat, i: nat)
    requires k < |rs| && Adjacent(rs, 0, n) && Within(rs, n) && n < |marks|
    requires rs[k].DataRegion? ==> WellMarkedRegion(marks, rs[k])
    requires OnTop(marks, rs, k, extra)
    ensures OnTop(marks, rs, k + 1, extra + if rs[k].TmsRegion? && rs[k].begin <= i < rs[k].end then marks[i] else 0)
  {
    hide ReadLength, Sum, WellMarkedRegion, Adjacent, IsRead;
    ReadLengthMore(marks, rs, k);
    BeginsAt(rs, n, k);
    RegionAdds(marks, rs[k], i);
  }

  /** The marks of a TMS region come on top of those that are read. */
  lemma {:induction false} MarksOnTop(marks: seq<nat>, rs: seq<Region>, n: nat, k: nat, m: nat, i: nat)
    requires k <= |rs| && Adjacent(rs, 0, n) && Within(rs, n) && n < |marks|
    requires forall j | 0 <= j < |rs| && rs[j].DataRegion? :: WellMarkedRegion(marks, rs[j])
    requires m < |rs| && rs[m].TmsRegion? && rs[m].begin <= i < rs[m].end
    ensures OnTop(marks, rs, k, if m < k then marks[i] else 0)
  {
    hide OnTop, WellMarkedRegion, Adjacent;
    if k == 0 {
      NoneOnTop(marks, rs);
    } else {
      MarksOnTop(marks, rs, n, k - 1, m, i);
      OneMoreOnTop(marks, rs, n, k - 1, if m < k - 1 then marks[i] else 0, i);
      Apart(rs, n, k - 1, m, i);
    }
  }

  lemma {:induction false} TmsMarks(s: State, chars: seq<byte>, rs: seq<Region>, m: nat, i: nat)
    requires Cuts(s, ClocksIn(chars), rs) && Within(rs, |ClocksIn(chars)|) && Accepted(MarksIn(chars), rs)
    requires forall j | 0 <= j < |rs| && rs[j].DataRegion? :: WellMarkedRegion(MarksIn(chars), rs[j])
    requires m < |rs| && rs[m].TmsRegion? && rs[m].begin <= i < rs[m].end
    ensures MarksIn(chars)[i] == 0
  {
    hide ReadLength, WellMarkedRegion, ClocksIn, MarksIn;
    var n, marks := |ClocksIn(chars)|, MarksIn(chars);
    MarksOnTop(marks, rs, n, |rs|, m, i);
    assert rs[..|rs|] == rs;
    CutEndsAt(s, ClocksIn(chars), rs);
    SumLast(marks);
  }

  lemma {:induction false} SumLast(marks: seq<nat>)
    requires |marks| > 0
    ensures Sum(marks) == Sum(marks[..|marks| - 1]) + marks[|marks| - 1]
  {
  }

  lemma CutEndsAt(s: State, cs: seq<Clock>, rs: seq<Region>)
    requires Cuts(s, cs, rs)
    ensures Adjacent(rs, 0, |cs|) && (if |rs| == 0 then 0 else rs[|rs| - 1].end) == |cs|
  {
  }

  lemma {:induction false} ReadsCover(marks: seq<nat>, rs: seq<Region>, n: nat, k: nat)
    requires k <= |rs| && Adjacent(rs, 0, n) && Within(rs, n) && n < |marks|
    requires forall j | 0 <= j < |rs| && rs[j].DataRegion? :: WellMarkedRegion(marks, rs[j])
    ensures OnTop(marks, rs, k, 0)
  {
    hide OnTop, WellMarkedRegion, Adjacent;
    if k == 0 {
      NoneOnTop(marks, rs);
    } else {
      ReadsCover(marks, rs, n, k - 1);
      OneMoreOnTop(marks, rs, n, k - 1, 0, rs[k - 1].end);
    }
  }

  /** Among the chunks that pass the program's assertions, those that are answered as one character at a time for every
      device are exactly the well-marked ones. */
  lemma {:induction false} ExactlyWellMarked(s: State, hist: seq<Clock>, chars: seq<byte>, rs: seq<Region>)
    requires Cuts(s, ClocksIn(chars), rs) && Within(rs, |ClocksIn(chars)|) && Accepted(MarksIn(chars), rs)
    ensures RightForEveryDevice(s, hist, chars, rs) <==> WellMarked(MarksIn(chars), rs)
  {
    hide Serve, OneAtATime, ReadOut, Accepted, Cuts;
    var n, marks := |ClocksIn(chars)|, MarksIn(chars);
    if WellMarked(marks, rs) {
      forall t: Target ensures ReadOut(Serve(t, s, hist, ClocksIn(chars)), marks, rs) == OneAtATime(t, s, hist, chars) {
        WellMarkedRefines(t, s, hist, chars, rs);
      }
    }
    if RightForEveryDevice(s, hist, chars, rs) {
      forall m | 0 <= m < |rs| && rs[m].DataRegion? ensures WellMarkedRegion(marks, rs[m]) {
        forall j | rs[m].begin <= j < rs[m].end ensures marks[j] == if IsRead(marks, rs[m]) then 1 else 0 {
          DataMarks(s, hist, chars, rs, m, j);
        }
      }
      forall m | 0 <= m < |rs| && rs[m].TmsRegion? ensures WellMarkedRegion(marks, rs[m]) {
        forall i | rs[m].begin <= i < rs[m].end ensures marks[i] == 0 {
          TmsMarks(s, chars, rs, m, i);
        }
      }
      NoTrailingMarks(s, chars, rs);
    }
  }

  lemma {:induction false} NoTrailingMarks(s: State, chars: seq<byte>, rs: seq<Region>)
    requires Cuts(s, ClocksIn(chars), rs) && Within(rs, |ClocksIn(chars)|) && Accepted(MarksIn(chars), rs)
    requires forall j | 0 <= j < |rs| && rs[j].DataRegion? :: WellMarkedRegion(MarksIn(chars), rs[j])
    ensures MarksIn(chars)[|MarksIn(chars)| - 1] == 0
  {
    var n, marks := |ClocksIn(chars)|, MarksIn(chars);
    ReadsCover(marks, rs, n, |rs|);
    assert rs[..|rs|] == rs;
    assert Sum(marks) == Sum(marks[..n]) + marks[n];
  }
}
