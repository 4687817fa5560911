/** The remote bitbang characters, and the server that handles them one at a time. */
module RbbProtocol {
  import opened Bits
  import opened Tap
  import opened Reference
  import opened Regions

  const READ: byte := 0x52

  /** '4' to '7': the pins are set with TCK high. */
  predicate IsClock(ch: byte) {
    0x34 <= ch <= 0x37
  }

  function ClockOf(ch: byte): Clock
    requires IsClock(ch)
  {
    Clock((ch as int - 0x30) / 2 % 2 == 1, (ch as int - 0x30) % 2 == 1)
  }

  /** The clocks a chunk asks for. */
  function ClocksIn(chars: seq<byte>): (cs: seq<Clock>)
    ensures |cs| <= |chars|
  {
    if chars == [] then []
    else
      var init, ch := chars[..|chars| - 1], chars[|chars| - 1];
      ClocksIn(init) + if IsClock(ch) then [ClockOf(ch)] else []
  }

  /** How many reads are asked for just before each clock, and after the last one. */
  function MarksIn(chars: seq<byte>): (marks: seq<nat>)
    ensures |marks| == |ClocksIn(chars)| + 1
  {
    if chars == [] then [0]
    else
      var init, ch := chars[..|chars| - 1], chars[|chars| - 1];
      var marks := MarksIn(init);
      if IsClock(ch) then marks + [0]
      else if ch == READ then marks[|marks| - 1 := marks[|marks| - 1] + 1]
      else marks
  }

  /** What one more character adds. */
  lemma PrefixParsed(chars: seq<byte>, i: nat)
    requires i < |chars|
    ensures ClocksIn(chars[..i + 1]) == ClocksIn(chars[..i]) + if IsClock(chars[i]) then [ClockOf(chars[i])] else []
    ensures var marks := MarksIn(chars[..i]);
            MarksIn(chars[..i + 1]) ==
            if IsClock(chars[i]) then marks + [0]
            else if chars[i] == READ then marks[|marks| - 1 := marks[|marks| - 1] + 1]
            else marks
  {
    assert chars[..i + 1][..i] == chars[..i];
  }

  function Digit(bit: bool): byte {
    if bit then 0x31 else 0x30
  }

  /** The bit on TDO after the clocks `cs`, as the bit-at-a-time server reports it. */
  predicate Level(t: Target, s: State, hist: seq<Clock>, cs: seq<Clock>) {
    IsShift(Run(s, cs)) && Sample(t, hist + cs)
  }

  /** One character at a time: a clock is made at once, and a read is answered at once with the level of TDO. */
  function OneAtATime(t: Target, s: State, hist: seq<Clock>, chars: seq<byte>): seq<byte> {
    if chars == [] then []
    else
      var init, ch := chars[..|chars| - 1], chars[|chars| - 1];
      OneAtATime(t, s, hist, init) + if ch == READ then [Digit(Level(t, s, hist, ClocksIn(init)))] else []
  }

  /** The levels of TDO at the characters 'R' of a stream, whenever they are asked for. */
  function Levels(t: Target, s: State, hist: seq<Clock>, chars: seq<byte>): seq<bool> {
    if chars == [] then []
    else
      var init, ch := chars[..|chars| - 1], chars[|chars| - 1];
      var now := ClocksIn(init);
      Levels(t, s, hist, init) + if ch == 0x52 then [IsShift(Run(s, now)) && Sample(t, hist + now)] else []
  }

  /** The characters `written` are '1' and '0' for the bits. */
  ghost predicate Spells(written: seq<byte>, bits: seq<bool>) {
    |written| == |bits| && forall k | 0 <= k < |bits| :: written[k] == if bits[k] then 0x31 else 0x30
  }

  /** The one-at-a-time server writes '1' and '0' for the levels. */
  lemma {:induction false} OneAtATimeSpells(t: Target, s: State, hist: seq<Clock>, chars: seq<byte>)
    ensures Spells(OneAtATime(t, s, hist, chars), Levels(t, s, hist, chars))
  {
    hide ClocksIn, Run, Sample;
    if chars != [] {
      OneAtATimeSpells(t, s, hist, chars[..|chars| - 1]);
    }
  }

  /** The character for a pin write is '0' plus 4 for TCK, 2 for TMS and 1 for TDI; those with TCK are the clocks. */
  lemma PinCharacters(tck: bool, tms: bool, tdi: bool)
    ensures var ch: byte := 0x30 + (if tck then 4 else 0) + (if tms then 2 else 0) + (if tdi then 1 else 0);
            (IsClock(ch) <==> tck) && (tck ==> ClockOf(ch) == Clock(tms, tdi))
  {
  }

  /** The answers to the reads marked on the first `n` clocks, whose TDO bits are `want`. */
  function Expand(want: seq<bool>, marks: seq<nat>, n: nat): seq<byte>
    requires n <= |want| && n <= |marks|
  {
    if n == 0 then [] else Expand(want, marks, n - 1) + Repeat(Digit(want[n - 1]), marks[n - 1])
  }

  function Sum(marks: seq<nat>): nat {
    if marks == [] then 0 else Sum(marks[..|marks| - 1]) + marks[|marks| - 1]
  }

  lemma {:induction false} ExpandSame(want: seq<bool>, marks: seq<nat>, want': seq<bool>, marks': seq<nat>, n: nat)
    requires n <= |want| && n <= |marks| && n <= |want'| && n <= |marks'|
    requires want[..n] == want'[..n] && marks[..n] == marks'[..n]
    ensures Expand(want, marks, n) == Expand(want', marks', n)
    decreases n
  {
    if n > 0 {
      assert want[n - 1] == want[..n][n - 1] == want'[n - 1];
      assert marks[n - 1] == marks[..n][n - 1] == marks'[n - 1];
      assert want[..n - 1] == want[..n][..n - 1] == want'[..n - 1];
      assert marks[..n - 1] == marks[..n][..n - 1] == marks'[..n - 1];
      ExpandSame(want, marks, want', marks', n - 1);
    }
  }

  lemma {:induction false} ServeLast(t: Target, s: State, hist: seq<Clock>, cs: seq<Clock>, c: Clock)
    ensures Serve(t, s, hist, cs + [c]) == Serve(t, s, hist, cs) + [Level(t, s, hist, cs)]
  {
    ServeAppend(t, s, hist, cs, [c]);
    ServeAt(t, Run(s, cs), hist + cs, [c], 0);
    assert [c][..0] == [] && hist + cs + [] == hist + cs;
  }

  /** The one-at-a-time answers are those of the marked clocks, then those to reads after the last clock. */
  lemma {:induction false} OneAtATimeExpands(t: Target, s: State, hist: seq<Clock>, chars: seq<byte>)
    ensures var cs, marks := ClocksIn(chars), MarksIn(chars);
            OneAtATime(t, s, hist, chars) ==
            Expand(Serve(t, s, hist, cs), marks, |cs|) + Repeat(Digit(Level(t, s, hist, cs)), marks[|cs|])
    decreases |chars|
  {
    hide Serve, Level, Digit, Sample, Run;
    if chars != [] {
      var init, ch := chars[..|chars| - 1], chars[|chars| - 1];
      OneAtATimeExpands(t, s, hist, init);
      var cs, marks := ClocksIn(init), MarksIn(init);
      var want := Serve(t, s, hist, cs);
      var d := Digit(Level(t, s, hist, cs));
      if IsClock(ch) {
        ServeLast(t, s, hist, cs, ClockOf(ch));
        var want' := Serve(t, s, hist, ClocksIn(chars));
        assert want'[..|cs|] == want[..|cs|] && (marks + [0])[..|cs|] == marks[..|cs|];
        ExpandSame(want, marks, want', marks + [0], |cs|);
        assert Expand(want', marks + [0], |cs| + 1) == Expand(want, marks, |cs|) + Repeat(d, marks[|cs|]);
      } else if ch == READ {
        var marks' := MarksIn(chars);
        assert ClocksIn(chars) == cs;
        ConcatAssoc(Expand(want, marks, |cs|), Repeat(d, marks[|cs|]), [d]);
        assert marks'[..|cs|] == marks[..|cs|];
        ExpandSame(want, marks, want, marks', |cs|);
        assert Repeat(d, marks[|cs|]) + [d] == Repeat(d, marks[|cs|] + 1);
      } else {
        assert ClocksIn(chars) == cs;
      }
    }
  }

  lemma {:induction false} ClocksAppend(a: seq<byte>, b: seq<byte>)
    ensures ClocksIn(a + b) == ClocksIn(a) + ClocksIn(b)
    decreases b
  {
    if b == [] {
      assert a + b == a;
    } else {
      assert (a + b)[..|a + b| - 1] == a + b[..|b| - 1];
      ClocksAppend(a, b[..|b| - 1]);
    }
  }

  /** The one-at-a-time server does not care how its characters are cut into chunks. */
  lemma {:induction false} OneAtATimeAppend(t: Target, s: State, hist: seq<Clock>, a: seq<byte>, b: seq<byte>)
    ensures OneAtATime(t, s, hist, a + b) ==
            OneAtATime(t, s, hist, a) + OneAtATime(t, Run(s, ClocksIn(a)), hist + ClocksIn(a), b)
    decreases b
  {
    hide ClocksIn, Sample, Run;
    if b == [] {
      assert a + b == a;
    } else {
      var init := b[..|b| - 1];
      assert (a + b)[..|a + b| - 1] == a + init;
      OneAtATimeAppend(t, s, hist, a, init);
      ClocksAppend(a, init);
      RunAppend(s, ClocksIn(a), ClocksIn(init));
      ConcatAssoc(hist, ClocksIn(a), ClocksIn(init));
    }
  }

  /** The level of TCK after a chunk. */
  function TckAfter(tck: bool, chars: seq<byte>): bool {
    if chars == [] then tck
    else
      var ch := chars[|chars| - 1];
      if 0x30 <= ch <= 0x37 then IsClock(ch) else TckAfter(tck, chars[..|chars| - 1])
  }

  /** The clocks seen by a server that drives the pins: one for each rising edge of TCK. */
  function EdgesIn(tck: bool, chars: seq<byte>): seq<Clock> {
    if chars == [] then []
    else
      var init, ch := chars[..|chars| - 1], chars[|chars| - 1];
      EdgesIn(tck, init) + if IsClock(ch) && !TckAfter(tck, init) then [ClockOf(ch)] else []
  }

  /** The client lowers TCK before it raises it again. */
  predicate Alternating(tck: bool, chars: seq<byte>) {
    chars == []
    || var init, ch := chars[..|chars| - 1], chars[|chars| - 1];
       Alternating(tck, init) && (IsClock(ch) ==> !TckAfter(tck, init))
  }

  /** The program takes every character that sets TCK for a clock. That is right just for clients that alternate. */
  lemma {:induction false} ClocksAreEdges(tck: bool, chars: seq<byte>)
    ensures |EdgesIn(tck, chars)| <= |ClocksIn(chars)|
    ensures |EdgesIn(tck, chars)| == |ClocksIn(chars)| <==> Alternating(tck, chars)
    ensures EdgesIn(tck, chars) == ClocksIn(chars) <==> Alternating(tck, chars)
    decreases |chars|
  {
    if chars != [] {
      ClocksAreEdges(tck, chars[..|chars| - 1]);
    }
  }

  /** The marks OpenOCD is assumed to make: at most one read for each clock and none after the last; none in a
      TMS region; all or none in a DATA region. */
  ghost predicate WellMarked(marks: seq<nat>, rs: seq<Region>) {
    && |marks| > 0 && marks[|marks| - 1] == 0
    && forall k | 0 <= k < |rs| :: WellMarkedRegion(marks, rs[k])
  }

  ghost predicate WellMarkedRegion(marks: seq<nat>, r: Region) {
    && r.begin < r.end < |marks|
    && (forall i | r.begin <= i < r.end :: marks[i] == marks[r.begin])
    && marks[r.begin] <= if r.DataRegion? then 1 else 0
  }

  function Digits(bits: seq<bool>): (r: seq<byte>)
    ensures |r| == |bits|
  {
    seq(|bits|, i requires 0 <= i < |bits| => Digit(bits[i]))
  }

  /** "44": TCK is raised once and taken for two clocks. */
  lemma HeldHighCountsTwice()
    ensures |ClocksIn([0x34, 0x34])| == 2 && |EdgesIn(false, [0x34, 0x34])| == 1
  {
    var c: seq<byte> := [0x34, 0x34];
    assert c[..1] == [0x34] && c[..1][..0] == [] && c[..0] == [];
    assert EdgesIn(false, c[..1]) == [ClockOf(0x34)];
    PrefixParsed(c, 0);
    PrefixParsed(c, 1);
    assert c[..2] == c;
  }

  lemma {:induction false} ExpandRegion(want: seq<bool>, marks: seq<nat>, r: Region, n: nat)
    requires r.begin <= n <= r.end <= |want| && WellMarkedRegion(marks, r)
    ensures Expand(want, marks, n) ==
            Expand(want, marks, r.begin) + if marks[r.begin] == 1 then Digits(want[r.begin..n]) else []
    decreases n
  {
    hide Digits, Digit, Repeat;
    if n > r.begin {
      ExpandRegion(want, marks, r, n - 1);
      DigitsSnoc(want, r.begin, n);
      assert marks[n - 1] == marks[r.begin];
      ConcatAssoc(Expand(want, marks, r.begin), Digits(want[r.begin..n - 1]), [Digit(want[n - 1])]);
      RepeatOnce(Digit(want[n - 1]));
    } else {
      assert want[r.begin..n] == [];
      DigitsNone();
    }
  }

  lemma DigitsNone()
    ensures Digits([]) == []
  {
  }

  lemma DigitsSnoc(want: seq<bool>, begin: nat, n: nat)
    requires begin < n <= |want|
    ensures Digits(want[begin..n]) == Digits(want[begin..n - 1]) + [Digit(want[n - 1])]
  {
  }

  lemma RepeatOnce(ch: byte)
    ensures Repeat(ch, 0) == [] && Repeat(ch, 1) == [ch]
  {
  }

  /** The check that the loop over a DATA region makes: once a bit is read, all later ones are. */
  ghost predicate Monotone(marks: seq<nat>, r: Region)
    requires r.begin <= r.end <= |marks|
  {
    forall i, j | r.begin <= i < j < r.end :: marks[i] > 0 ==> marks[j] > 0
  }

  /** Whether a region's bits are read, given that. */
  predicate IsRead(marks: seq<nat>, r: Region)
    requires r.begin < r.end <= |marks|
  {
    r.DataRegion? && marks[r.end - 1] > 0
  }

  ghost predicate Within(rs: seq<Region>, n: nat) {
    forall k | 0 <= k < |rs| :: rs[k].begin < rs[k].end <= n
  }

  /** The bits that are read and written to the client, whole regions at a time. */
  ghost function ReadOut(want: seq<bool>, marks: seq<nat>, rs: seq<Region>): seq<byte>
    requires Within(rs, |want|) && |want| <= |marks|
  {
    if rs == [] then []
    else
      var init, r := rs[..|rs| - 1], rs[|rs| - 1];
      ReadOut(want, marks, init) + if IsRead(marks, r) then Digits(want[r.begin..r.end]) else []
  }

  ghost function ReadLength(marks: seq<nat>, rs: seq<Region>): nat
    requires Within(rs, |marks|)
  {
    if rs == [] then 0
    else
      var init, r := rs[..|rs| - 1], rs[|rs| - 1];
      ReadLength(marks, init) + if IsRead(marks, r) then r.end - r.begin else 0
  }

  /** Exactly the chunks that pass the program's own assertions. */
  ghost predicate Accepted(marks: seq<nat>, rs: seq<Region>)
    requires Within(rs, |marks|)
  {
    && (forall k | 0 <= k < |rs| && rs[k].DataRegion? :: Monotone(marks, rs[k]))
    && Sum(marks) == ReadLength(marks, rs)
  }

  lemma {:induction false} ReadOutStable(want: seq<bool>, want': seq<bool>, marks: seq<nat>, rs: seq<Region>)
    requires Within(rs, |want|) && want <= want' && |want'| <= |marks|
    ensures Within(rs, |want'|) && ReadOut(want', marks, rs) == ReadOut(want, marks, rs)
    decreases rs
  {
    if rs != [] {
      var r := rs[|rs| - 1];
      assert want'[r.begin..r.end] == want[r.begin..r.end];
      ReadOutStable(want, want', marks, rs[..|rs| - 1]);
    }
  }

  lemma {:induction false} ReadOutSnoc(want: seq<bool>, marks: seq<nat>, rs: seq<Region>, r: Region)
    requires Within(rs, |want|) && r.begin < r.end <= |want| <= |marks|
    ensures Within(rs + [r], |want|)
    ensures ReadOut(want, marks, rs + [r]) ==
            ReadOut(want, marks, rs) + if IsRead(marks, r) then Digits(want[r.begin..r.end]) else []
    ensures ReadLength(marks, rs + [r]) == ReadLength(marks, rs) + if IsRead(marks, r) then r.end - r.begin else 0
  {
    assert (rs + [r])[..|rs|] == rs;
  }

  lemma {:induction false} ReadNothing(marks: seq<nat>)
    ensures Within([], 0) && ReadOut([], marks, []) == [] && ReadLength(marks, []) == 0
  {
  }

  /** One more region read. */
  lemma {:induction false} ReadOutMore(want: seq<bool>, want': seq<bool>, marks: seq<nat>, rs: seq<Region>, k: nat)
    requires k < |rs| && Within(rs[..k], |want|) && want <= want' && |want'| <= |marks|
    requires rs[k].begin < rs[k].end <= |want'|
    ensures Within(rs[..k + 1], |want'|)
    ensures ReadOut(want', marks, rs[..k + 1]) ==
            ReadOut(want, marks, rs[..k]) + if IsRead(marks, rs[k]) then Digits(want'[rs[k].begin..rs[k].end]) else []
  {
    hide ReadOut, IsRead, Digits;
    assert rs[..k + 1] == rs[..k] + [rs[k]];
    ReadOutStable(want, want', marks, rs[..k]);
    ReadOutSnoc(want', marks, rs[..k], rs[k]);
  }

  lemma {:induction false} ReadLengthMore(marks: seq<nat>, rs: seq<Region>, k: nat)
    requires k < |rs| && Within(rs, |marks|)
    ensures Within(rs[..k], |marks|) && Within(rs[..k + 1], |marks|)
    ensures ReadLength(marks, rs[..k + 1]) ==
            ReadLength(marks, rs[..k]) + if IsRead(marks, rs[k]) then rs[k].end - rs[k].begin else 0
  {
    assert rs[..k + 1][..k] == rs[..k];
  }

  lemma {:induction false} SumRegion(marks: seq<nat>, r: Region, n: nat)
    requires r.begin <= n <= r.end && WellMarkedRegion(marks, r)
    ensures Sum(marks[..n]) == Sum(marks[..r.begin]) + if marks[r.begin] == 1 then n - r.begin else 0
    decreases n
  {
    if n > r.begin {
      SumRegion(marks, r, n - 1);
      assert marks[..n][..n - 1] == marks[..n - 1];
    }
  }

  lemma {:induction false} WellMarkedPrefix(want: seq<bool>, marks: seq<nat>, rs: seq<Region>, k: nat)
    requires k <= |rs| && Within(rs, |want|) && |want| < |marks| && Adjacent(rs, 0, |want|)
    requires forall j | 0 <= j < |rs| :: WellMarkedRegion(marks, rs[j])
    ensures var n := if k == 0 then 0 else rs[k - 1].end;
            && ReadOut(want, marks, rs[..k]) == Expand(want, marks, n)
            && ReadLength(marks, rs[..k]) == Sum(marks[..n])
  {
    if k > 0 {
      var r := rs[k - 1];
      WellMarkedPrefix(want, marks, rs, k - 1);
      assert rs[..k][..k - 1] == rs[..k - 1];
      assert WellMarkedRegion(marks, r);
      assert r.begin == if k == 1 then 0 else rs[k - 2].end;
      ExpandRegion(want, marks, r, r.end);
      SumRegion(marks, r, r.end);
    }
  }

  /** A well-marked chunk passes the assertions, and reading whole regions gives the one-at-a-time answers. */
  lemma {:induction false} WellMarkedRefines(t: Target, s: State, hist: seq<Clock>, chars: seq<byte>, rs: seq<Region>)
    requires Cuts(s, ClocksIn(chars), rs) && WellMarked(MarksIn(chars), rs)
    requires Within(rs, |ClocksIn(chars)|)
    ensures Accepted(MarksIn(chars), rs)
    ensures ReadOut(Serve(t, s, hist, ClocksIn(chars)), MarksIn(chars), rs) == OneAtATime(t, s, hist, chars)
  {
    var cs, marks := ClocksIn(chars), MarksIn(chars);
    var want := Serve(t, s, hist, cs);
    WellMarkedPrefix(want, marks, rs, |rs|);
    assert rs[..|rs|] == rs;
    assert (if |rs| == 0 then 0 else rs[|rs| - 1].end) == |cs|;
    OneAtATimeExpands(t, s, hist, chars);
    forall k | 0 <= k < |rs| && rs[k].DataRegion? ensures Monotone(marks, rs[k]) {
      assert WellMarkedRegion(marks, rs[k]);
    }
    assert Sum(marks) == Sum(marks[..|cs|]) + marks[|cs|];
    var d := Digit(Level(t, s, hist, cs));
    assert Expand(want, marks, |cs|) + Repeat(d, 0) == Expand(want, marks, |cs|);
  }

  /** Clock, read, clock with TMS=1, read, clock. */
  const SMUGGLED: seq<byte> := [0x34, 0x52, 0x36, 0x52, 0x34]

  /** The first `n` characters parse to the clocks `cs` and the marks `marks`. */
  ghost predicate Parses(c: seq<byte>, n: nat, cs: seq<Clock>, marks: seq<nat>) {
    n <= |c| && ClocksIn(c[..n]) == cs && MarksIn(c[..n]) == marks
  }

  lemma ParseNone(c: seq<byte>)
    ensures Parses(c, 0, [], [0])
  {
  }

  lemma ParseClock(c: seq<byte>, n: nat, cs: seq<Clock>, marks: seq<nat>, cs': seq<Clock>, marks': seq<nat>)
    requires n < |c| && Parses(c, n, cs, marks) && IsClock(c[n])
    requires cs' == cs + [ClockOf(c[n])] && marks' == marks + [0]
    ensures Parses(c, n + 1, cs', marks')
  {
    PrefixParsed(c, n);
  }

  lemma ParseRead(c: seq<byte>, n: nat, cs: seq<Clock>, marks: seq<nat>, marks': seq<nat>)
    requires n < |c| && Parses(c, n, cs, marks) && c[n] == READ
    requires |marks| > 0 && marks' == marks[|marks| - 1 := marks[|marks| - 1] + 1]
    ensures Parses(c, n + 1, cs, marks')
  {
    PrefixParsed(c, n);
  }

  lemma {:induction false} ParseAll(c: seq<byte>, cs: seq<Clock>, marks: seq<nat>)
    requires Parses(c, |c|, cs, marks)
    ensures ClocksIn(c) == cs && MarksIn(c) == marks
  {
    assert c[..|c|] == c;
  }

  lemma SmuggledMeans()
    ensures ClocksIn(SMUGGLED) == [Clock(false, false), Clock(true, false), Clock(false, false)]
    ensures MarksIn(SMUGGLED) == [0, 1, 1, 0]
  {
    hide Parses, ClocksIn, MarksIn;
    var c, low, high := SMUGGLED, Clock(false, false), Clock(true, false);
    ParseNone(c);
    ParseClock(c, 0, [], [0], [low], [0, 0]);
    ParseRead(c, 1, [low], [0, 0], [0, 1]);
    ParseClock(c, 2, [low], [0, 1], [low, high], [0, 1, 0]);
    ParseRead(c, 3, [low, high], [0, 1, 0], [0, 1, 1]);
    ParseClock(c, 4, [low, high], [0, 1, 1], [low, high, low], [0, 1, 1, 0]);
    ParseAll(c, [low, high, low], [0, 1, 1, 0]);
  }

  lemma SmuggledCut()
    ensures Cuts(ShiftDR, ClocksIn(SMUGGLED), [DataRegion(0, 2, true), TmsRegion(2, 3)])
  {
    SmuggledMeans();
    var cs := ClocksIn(SMUGGLED);
    StateStep(ShiftDR, cs, 0);
    StateStep(ShiftDR, cs, 1);
    StateStep(ShiftDR, cs, 2);
    assert StateAt(ShiftDR, cs, 0) == ShiftDR;
  }

  lemma {:induction false} SmuggledSums(marks: seq<nat>, rs: seq<Region>)
    requires marks == [0, 1, 1, 0] && rs == [DataRegion(0, 2, true), TmsRegion(2, 3)]
    ensures Within(rs, 3) && Sum(marks) == 2 && ReadLength(marks, rs) == 2
  {
    assert marks[..3] == [0, 1, 1] && marks[..3][..2] == [0, 1] && marks[..3][..2][..1] == [0];
    assert Sum([0]) == 0 by { assert [0][..0] == []; }
    assert Sum(marks[..3][..2]) == 1 && Sum(marks[..3]) == 2;
    assert rs[..1] == [rs[0]] && rs[..1][..0] == [];
    assert ReadLength(marks, rs[..1]) == 2;
  }

  /** The program's assertions do not verify the assumption they are there for: this chunk passes them in Shift-DR,
      because a read in a TMS region makes up for one that the DATA region did not ask for, and the first answer is wrong
      if the device drives a one and then a zero. */
  lemma {:induction false} AssertionsTooWeak(t: Target, hist: seq<Clock>, rs: seq<Region>)
    requires Sample(t, hist) && !Sample(t, hist + [Clock(false, false)])
    requires Cuts(ShiftDR, ClocksIn(SMUGGLED), rs) && Within(rs, |ClocksIn(SMUGGLED)|)
    ensures Accepted(MarksIn(SMUGGLED), rs)
    ensures ReadOut(Serve(t, ShiftDR, hist, ClocksIn(SMUGGLED)), MarksIn(SMUGGLED), rs)
            != OneAtATime(t, ShiftDR, hist, SMUGGLED)
  {
    SmuggledMeans();
    SmuggledCut();
    var cs, marks := ClocksIn(SMUGGLED), [0, 1, 1, 0];
    CutUnique(ShiftDR, cs, rs, [DataRegion(0, 2, true), TmsRegion(2, 3)], 0);
    SmuggledSums(marks, rs);
    var want := Serve(t, ShiftDR, hist, cs);
    ServeAt(t, ShiftDR, hist, cs, 0);
    ServeAt(t, ShiftDR, hist, cs, 1);
    assert hist + cs[..0] == hist && cs[..1] == [Clock(false, false)];
    StateStep(ShiftDR, cs, 0);
    assert want[0] && !want[1];
    OneAtATimeExpands(t, ShiftDR, hist, SMUGGLED);
    SmuggledAnswers(want, marks, rs);
  }

  /** From Test-Logic-Reset to Shift-DR. */
  const TO_SHIFT_DR: seq<byte> := [0x34, 0x36, 0x34, 0x34]

  lemma ToShiftDrClocks()
    ensures ClocksIn(TO_SHIFT_DR) == [Clock(false, false), Clock(true, false), Clock(false, false), Clock(false, false)]
    ensures MarksIn(TO_SHIFT_DR) == [0, 0, 0, 0, 0]
  {
    hide Parses, ClocksIn, MarksIn;
    var c, low, high := TO_SHIFT_DR, Clock(false, false), Clock(true, false);
    ParseNone(c);
    ParseClock(c, 0, [], [0], [low], [0, 0]);
    ParseClock(c, 1, [low], [0, 0], [low, high], [0, 0, 0]);
    ParseClock(c, 2, [low, high], [0, 0, 0], [low, high, low], [0, 0, 0, 0]);
    ParseClock(c, 3, [low, high, low], [0, 0, 0, 0], [low, high, low, low], [0, 0, 0, 0, 0]);
    ParseAll(c, [low, high, low, low], [0, 0, 0, 0, 0]);
  }

  lemma ToShiftDrLeads()
    ensures Run(TestLogicReset, ClocksIn(TO_SHIFT_DR)) == ShiftDR
  {
    hide ClocksIn;
    ToShiftDrClocks();
    var cs := ClocksIn(TO_SHIFT_DR);
    RunSnoc(TestLogicReset, cs, 0);
    RunSnoc(TestLogicReset, cs, 1);
    RunSnoc(TestLogicReset, cs, 2);
    RunSnoc(TestLogicReset, cs, 3);
    assert cs[..0] == [] && cs[..4] == cs;
  }

  lemma {:induction false} NoReadsNoAnswers(t: Target, s: State, hist: seq<Clock>, chars: seq<byte>)
    requires READ !in chars
    ensures OneAtATime(t, s, hist, chars) == []
  {
    if chars != [] {
      NoReadsNoAnswers(t, s, hist, chars[..|chars| - 1]);
    }
  }

  lemma {:induction false} NoMarksWellMarked(s: State, chars: seq<byte>, rs: seq<Region>)
    requires Cuts(s, ClocksIn(chars), rs) && Within(rs, |ClocksIn(chars)|)
    requires forall i | 0 <= i < |MarksIn(chars)| :: MarksIn(chars)[i] == 0
    ensures WellMarked(MarksIn(chars), rs)
  {
  }

  lemma {:induction false} SmuggledAnswers(want: seq<bool>, marks: seq<nat>, rs: seq<Region>)
    requires |want| == 3 && want[0] && !want[1]
    requires marks == [0, 1, 1, 0] && rs == [DataRegion(0, 2, true), TmsRegion(2, 3)]
    ensures Within(rs, 3)
    ensures |ReadOut(want, marks, rs)| > 0 && ReadOut(want, marks, rs)[0] == Digit(true)
    ensures |Expand(want, marks, 3)| > 0 && Expand(want, marks, 3)[0] == Digit(false)
  {
    assert rs[..1] == [rs[0]] && rs[..1][..0] == [];
    assert ReadOut(want, marks, rs[..1]) == Digits(want[0..2]);
    assert Expand(want, marks, 1) == [];
    assert Expand(want, marks, 2) == Repeat(Digit(false), 1);
  }
}
