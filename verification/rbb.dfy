/** The remote bitbang server: chunks of characters in, TDO digits out, each DATA region read at once. */
module Rbb {
  import opened Bits
  import opened Tap
  import opened Reference
  import opened Scan
  import opened Regions
  import opened Execution
  import opened Packing
  import opened RbbProtocol
  import opened Jtag

  lemma CharMeans(ch: byte)
    ensures !(0x30 <= ch <= 0x37) ==> !IsClock(ch)
    ensures ch == READ ==> !IsClock(ch)
    ensures 0x30 <= ch <= 0x37 ==>
            var offset := ch as int - 0x30;
            && (IsClock(ch) <==> offset / 4 % 2 == 1)
            && (IsClock(ch) ==> ClockOf(ch) == Clock(offset / 2 % 2 == 1, offset % 2 == 1))
  {
  }

  lemma SumUpdated(marks: seq<nat>)
    requires |marks| > 0
    ensures Sum(marks + [0]) == Sum(marks)
    ensures Sum(marks[|marks| - 1 := marks[|marks| - 1] + 1]) == Sum(marks) + 1
  {
    assert (marks + [0])[..|marks|] == marks;
    assert marks[|marks| - 1 := marks[|marks| - 1] + 1][..|marks| - 1] == marks[..|marks| - 1];
  }

  /** One more bit OR-ed into a packed vector. */
  method MergeBit(a: array<byte>, i: nat, v: bool)
    requires i < 8 * a.Length
    modifies a
    ensures Merged(old(a[..]), a[..], i, v)
  {
    hide Bit, SetBit;
    SetBitAt(a[..], i, v);
    ghost var before := a[..];
    a[i / 8] := SetBit(a[i / 8], i % 8, v);
    assert a[..] == before[i / 8 := SetBit(before[i / 8], i % 8, v)];
  }

  /** The vectors hold what has been parsed of a chunk. */
  ghost predicate ParsedInto(tms: seq<byte>, tdi: seq<byte>, read: seq<byte>, cs: seq<Clock>, marks: seq<nat>, n: nat)
    requires |tms| == |tdi| == |read| && n <= 8 * |tms| && |marks| == |cs| + 1
  {
    forall j | 0 <= j < n ::
      && BitAt(tms, j) == (j < |cs| && cs[j].tms)
      && BitAt(tdi, j) == (j < |cs| && cs[j].tdi)
      && BitAt(read, j) == (j < |marks| && marks[j] > 0)
  }

  ghost predicate Merged(a: seq<byte>, b: seq<byte>, i: nat, v: bool) {
    |a| == |b| && forall j | 0 <= j < 8 * |a| :: BitAt(b, j) == (BitAt(a, j) || (j == i && v))
  }

  lemma ParsedClock(tms: seq<byte>, tdi: seq<byte>, read: seq<byte>, tms': seq<byte>, tdi': seq<byte>,
                    cs: seq<Clock>, marks: seq<nat>, n: nat, c: Clock)
    requires |tms| == |tdi| == |read| && n <= 8 * |tms| && |marks| == |cs| + 1
    requires ParsedInto(tms, tdi, read, cs, marks, n)
    requires Merged(tms, tms', |cs|, c.tms) && Merged(tdi, tdi', |cs|, c.tdi)
    ensures ParsedInto(tms', tdi', read, cs + [c], marks + [0], n)
  {
  }

  lemma ParsedRead(tms: seq<byte>, tdi: seq<byte>, read: seq<byte>, read': seq<byte>,
                   cs: seq<Clock>, marks: seq<nat>, n: nat)
    requires |tms| == |tdi| == |read| && n <= 8 * |tms| && |marks| == |cs| + 1
    requires ParsedInto(tms, tdi, read, cs, marks, n)
    requires Merged(read, read', |cs|, true)
    ensures ParsedInto(tms, tdi, read', cs, marks[|cs| := marks[|cs|] + 1], n)
  {
  }

  lemma NothingParsed(tms: seq<byte>, tdi: seq<byte>, read: seq<byte>, n: nat)
    requires |tms| == |tdi| == |read| && n <= 8 * |tms|
    requires forall j | 0 <= j < n :: !BitAt(tms, j) && !BitAt(tdi, j) && !BitAt(read, j)
    ensures ClocksIn([]) == [] && MarksIn([]) == [0] && Sum([0]) == 0
    ensures ParsedInto(tms, tdi, read, [], [0], n)
  {
    assert [0][..0] == [];
  }

  /** One character: a clock or a mark more, or nothing. */
  method ParseChar(command: byte, tms: array<byte>, tdi: array<byte>, read: array<byte>, bits: nat, readBits: nat,
                   ghost cs: seq<Clock>, ghost marks: seq<nat>, ghost n: nat)
      returns (bits': nat, readBits': nat)
    requires tms != tdi && tms != read && tdi != read && tms.Length == tdi.Length == read.Length
    requires |marks| == |cs| + 1 && bits == |cs| < n <= 8 * tms.Length
    requires ParsedInto(tms[..], tdi[..], read[..], cs, marks, n)
    modifies tms, tdi, read
    ensures bits' == bits + if IsClock(command) then 1 else 0
    ensures readBits' == readBits + if command == READ then 1 else 0
    ensures ParsedInto(tms[..], tdi[..], read[..], cs + if IsClock(command) then [ClockOf(command)] else [],
                       if IsClock(command) then marks + [0]
                       else if command == READ then marks[|cs| := marks[|cs|] + 1]
                       else marks, n)
  {
    hide BitAt, ClockOf, IsClock, Merged, ParsedInto;
    bits', readBits' := bits, readBits;
    CharMeans(command);
    assert cs + [] == cs;
    ghost var tms0, tdi0, read0 := tms[..], tdi[..], read[..];
    if 0x30 <= command <= 0x37 {
      var offset := command as int - 0x30;
      if offset / 4 % 2 == 1 {
        MergeBit(tms, bits, offset / 2 % 2 == 1);
        MergeBit(tdi, bits, offset % 2 == 1);
        bits' := bits + 1;
        ParsedClock(tms0, tdi0, read0, tms[..], tdi[..], cs, marks, n, ClockOf(command));
      }
    } else if command == READ {
      MergeBit(read, bits, true);
      readBits' := readBits + 1;
      ParsedRead(tms0, tdi0, read0, read[..], cs, marks, n);
    }
  }

  method ParseChunk(chunk: seq<byte>)
      returns (tms: array<byte>, tdi: array<byte>, read: array<byte>, bits: nat, readBits: nat)
    requires |chunk| <= BUFFER_SIZE
    ensures fresh(tms) && fresh(tdi) && fresh(read)
    ensures tms.Length == tdi.Length == read.Length == BUFFER_SIZE
    ensures bits == |ClocksIn(chunk)| && readBits == Sum(MarksIn(chunk))
    ensures HoldsTms(tms[..], ClocksIn(chunk)) && HoldsTdi(tdi[..], ClocksIn(chunk))
    ensures forall i | 0 <= i < bits :: BitAt(read[..], i) == (MarksIn(chunk)[i] > 0)
  {
    hide BitAt, ClockOf, IsClock, Merged, ClocksIn, MarksIn, Sum;
    tms, tdi, read := new byte[BUFFER_SIZE], new byte[BUFFER_SIZE], new byte[BUFFER_SIZE];
    bits, readBits := 0, 0;
    ghost var n := 8 * ((|chunk| + 7) / 8);
    forall i | 0 <= i < (|chunk| + 7) / 8 {
      tms[i] := 0;
    }
    forall i | 0 <= i < (|chunk| + 7) / 8 {
      tdi[i] := 0;
    }
    forall i | 0 <= i < (|chunk| + 7) / 8 {
      read[i] := 0;
    }
    ZeroBytes(tms[..], (|chunk| + 7) / 8);
    ZeroBytes(tdi[..], (|chunk| + 7) / 8);
    ZeroBytes(read[..], (|chunk| + 7) / 8);
    assert chunk[..0] == [];
    NothingParsed(tms[..], tdi[..], read[..], n);
    for i := 0 to |chunk|
      invariant tms != tdi && tms != read && tdi != read
      invariant fresh(tms) && fresh(tdi) && fresh(read)
      invariant bits == |ClocksIn(chunk[..i])| <= i && readBits == Sum(MarksIn(chunk[..i]))
      invariant ParsedInto(tms[..], tdi[..], read[..], ClocksIn(chunk[..i]), MarksIn(chunk[..i]), n)
    {
      PrefixParsed(chunk, i);
      SumUpdated(MarksIn(chunk[..i]));
      CharMeans(chunk[i]);
      bits, readBits := ParseChar(chunk[i], tms, tdi, read, bits, readBits, ClocksIn(chunk[..i]), MarksIn(chunk[..i]), n);
    }
    assert chunk[..|chunk|] == chunk;
  }

  /** The loop over the marks of a DATA region, with its assertion `do_read == read_bit`. */
  method CheckReads(read: array<byte>, region: Region, ghost marks: seq<nat>) returns (doRead: bool, ok: bool)
    requires region.DataRegion? && region.begin < region.end <= |marks| && region.end <= 8 * read.Length
    requires forall i | region.begin <= i < region.end :: BitAt(read[..], i) == (marks[i] > 0)
    ensures ok <==> Monotone(marks, region)
    ensures ok ==> doRead == IsRead(marks, region)
  {
    hide Bit;
    doRead := false;
    for i := region.begin to region.end
      invariant doRead <==> i > region.begin && marks[i - 1] > 0
      invariant forall j, k | region.begin <= j < k < i :: marks[j] > 0 ==> marks[k] > 0
    {
      var readBit := Bit(read[i / 8], i % 8);
      assert readBit == BitAt(read[..], i);
      if readBit {
        doRead := true;
      }
      if doRead != readBit {
        assert marks[i - 1] > 0 && marks[i] == 0;
        return doRead, false;
      }
    }
    ok := true;
  }

  /** The digits of a received region. */
  method ToDigits(buffer: array<byte>, n: nat) returns (digits: seq<byte>)
    requires n <= 8 * buffer.Length
    ensures digits == Digits(Unpack(buffer[..], n))
  {
    hide Bit;
    digits := [];
    for i := 0 to n
      invariant |digits| == i
      invariant forall j | 0 <= j < i :: digits[j] == Digit(BitAt(buffer[..], j))
    {
      var tdoBit := Bit(buffer[i / 8], i % 8);
      assert tdoBit == BitAt(buffer[..], i);
      digits := digits + [Digit(tdoBit)];
    }
  }

  lemma CutWithin(s: State, cs: seq<Clock>, rs: seq<Region>)
    requires Cuts(s, cs, rs)
    ensures Within(rs, |cs|)
  {
    forall k | 0 <= k < |rs| ensures rs[k].begin < rs[k].end <= |cs| {
      assert Homogeneous(s, cs, rs[k]);
    }
  }

  lemma {:induction false} AcceptedMeans(marks: seq<nat>, rs: seq<Region>)
    requires Within(rs, |marks|)
    ensures Accepted(marks, rs) <==>
              && (forall k | 0 <= k < |rs| && rs[k].DataRegion? :: Monotone(marks, rs[k]))
              && Sum(marks) == ReadLength(marks, rs)
  {
  }

  lemma {:induction false} OneMoreChunk(t: Target, s: State, hist: seq<Clock>, chunks: seq<seq<byte>>, k: nat)
    requires k < |chunks|
    ensures var before, cs, more := Flatten(chunks[..k]), ClocksIn(Flatten(chunks[..k])), ClocksIn(chunks[k]);
            && ClocksIn(Flatten(chunks[..k + 1])) == cs + more
            && hist + (cs + more) == hist + cs + more
            && OneAtATime(t, s, hist, Flatten(chunks[..k + 1])) ==
               OneAtATime(t, s, hist, before) + OneAtATime(t, Run(s, cs), hist + cs, chunks[k])
  {
    var before := Flatten(chunks[..k]);
    assert chunks[..k + 1] == chunks[..k] + [chunks[k]];
    FlattenSnoc(chunks[..k], chunks[k]);
    OneAtATimeAppend(t, s, hist, before, chunks[k]);
    ClocksAppend(before, chunks[k]);
    ConcatAssoc(hist, ClocksIn(before), ClocksIn(chunks[k]));
  }

  lemma {:induction false} NothingYet(t: Target, s: State, hist: seq<Clock>)
    ensures Flatten<byte>([]) == [] && ClocksIn([]) == [] && OneAtATime(t, s, hist, []) == []
  {
  }

  class Server {
    const jtag: Port
    /** The characters written to the client. */
    var output: seq<byte>
    /** Every clock the client has asked for. */
    ghost var client: seq<Clock>

    constructor (jtag: Port)
      requires jtag.Valid() && jtag.Trace() == [] && jtag.Pending() == []
      ensures this.jtag == jtag && Valid() && client == [] && output == []
    {
      this.jtag := jtag;
      output, client := [], [];
    }

    /** Between ticks: nothing is left to read back, and the adapter has made, for all the device can tell,
        exactly the clocks the client asked for. */
    ghost predicate Valid()
      reads this, jtag.Repr()
    {
      && jtag.Valid()
      && this !in jtag.Repr()
      && (!jtag.Broken() ==> jtag.Pending() == [] && Alike(jtag.Trace(), client))
    }

    method ExecuteTms(region: Region, tms: array<byte>, ghost cs: seq<Clock>)
      requires jtag.Valid() && tms !in jtag.Repr() && HoldsTms(tms[..], cs) && |cs| <= 8 * BUFFER_SIZE
      requires region.TmsRegion? && region.begin < region.end <= |cs|
      modifies jtag.Repr()
      ensures jtag.Valid() && (old(jtag.Broken()) ==> jtag.Broken())
      ensures jtag.Pending() == old(jtag.Pending())
      ensures jtag.globals.bitsSend == old(jtag.globals.bitsSend) + region.Length()
      ensures !jtag.Broken() ==>
                && old(jtag.Trace()) <= jtag.Trace()
                && Executes(cs, region, jtag.Trace()[|old(jtag.Trace())|..])
    {
      hide Port.Linked, Port.Trace, Port.Pending, Port.Broken, Port.TmsClocks, Executes, Run, Bit;
      ghost var trace := jtag.Trace();
      var tmsBuffer, anySet := CopyBits(tms, region.begin, region.end);
      var ok := jtag.TmsSeq(tmsBuffer[..], region.Length());
      if !jtag.Broken() {
        TmsRegionSent(cs, region, trace, jtag.TmsClocks(tmsBuffer[..], region.Length()));
      }
    }

    /** Scans a DATA region, and reads it back into a buffer if asked to. The program may end here (`died`) once a transfer
        has been given up. */
    method ScanRegion(region: Region, tdi: array<byte>, doRead: bool, ghost s: State, ghost cs: seq<Clock>)
        returns (died: bool, tdoBuffer: array<byte>)
      requires jtag.Valid() && tdi !in jtag.Repr()
      requires HoldsTdi(tdi[..], cs) && |cs| <= BUFFER_SIZE
      requires region.DataRegion? && Homogeneous(s, cs, region)
      requires !jtag.Broken() ==> jtag.globals.state == StateAt(s, cs, region.begin) && jtag.Pending() == []
      modifies jtag.Repr()
      ensures jtag.Valid() && (old(jtag.Broken()) ==> jtag.Broken()) && (died ==> old(jtag.Broken()))
      ensures jtag.globals.bitsSend == old(jtag.globals.bitsSend) + region.Length()
      ensures tdoBuffer.Length == BUFFER_SIZE
      ensures !jtag.Broken() ==>
                var sub := cs[region.begin..region.end];
                && jtag.Trace() == old(jtag.Trace()) + sub
                && jtag.Pending() == []
                && (doRead ==> Unpack(tdoBuffer[..], region.Length()) ==
                               Samples(jtag.Target(), old(jtag.Trace()), sub))
    {
      hide Port.Linked, Port.Trace, Port.Pending, Port.Broken, Port.ScanMade, ScanClocks, TmsPin, Run, Bit, BitAt, Samples, Received;
      var tdiBuffer, anySet := CopyBits(tdi, region.begin, region.end);
      ScanIsRegion(s, cs, region, tdiBuffer[..]);
      tdoBuffer := new byte[BUFFER_SIZE](i => 0);
      ghost var zeroes, trace := tdoBuffer[..], jtag.Trace();
      var outcome := jtag.ScanChain(tdiBuffer[..], tdoBuffer, region.Length(), region.flipTms, doRead);
      died := outcome.Died?;
      if doRead && !jtag.Broken() {
        ReceivedUnpacks(tdoBuffer[..], zeroes, Job(region.flipTms, Samples(jtag.Target(), trace, cs[region.begin..region.end])));
      }
    }

    method ExecuteData(region: Region, tdi: array<byte>, doRead: bool, ghost s: State, ghost cs: seq<Clock>)
        returns (died: bool)
      requires jtag.Valid() && this !in jtag.Repr() && tdi !in jtag.Repr()
      requires HoldsTdi(tdi[..], cs) && |cs| <= BUFFER_SIZE
      requires region.DataRegion? && Homogeneous(s, cs, region)
      requires !jtag.Broken() ==> jtag.globals.state == StateAt(s, cs, region.begin) && jtag.Pending() == []
      modifies jtag.Repr(), this`output
      ensures jtag.Valid() && (old(jtag.Broken()) ==> jtag.Broken()) && (died ==> old(jtag.Broken()))
      ensures jtag.globals.bitsSend == old(jtag.globals.bitsSend) + region.Length()
      ensures !jtag.Broken() ==>
                var sub := cs[region.begin..region.end];
                && jtag.Trace() == old(jtag.Trace()) + sub
                && jtag.Pending() == []
                && output == old(output) +
                   if doRead then Digits(Samples(jtag.Target(), old(jtag.Trace()), sub)) else []
    {
      hide Port.Linked, Port.Trace, Port.Pending, Port.Broken, Run, Bit, BitAt, Samples, Digits;
      var tdoBuffer;
      died, tdoBuffer := ScanRegion(region, tdi, doRead, s, cs);
      if doRead && !died {
        var digits := ToDigits(tdoBuffer, region.Length());
        output := output + digits;
      }
    }

    method CheckAndExecuteData(region: Region, tdi: array<byte>, read: array<byte>, ghost marks: seq<nat>,
                               ghost s: State, ghost cs: seq<Clock>)
        returns (ok: bool, readLength: nat)
      requires jtag.Valid() && this !in jtag.Repr() && tdi !in jtag.Repr()
      requires HoldsTdi(tdi[..], cs) && |cs| <= BUFFER_SIZE <= 8 * read.Length && |cs| < |marks|
      requires region.DataRegion? && Homogeneous(s, cs, region)
      requires forall i | region.begin <= i < region.end :: BitAt(read[..], i) == (marks[i] > 0)
      requires !jtag.Broken() ==> jtag.globals.state == StateAt(s, cs, region.begin) && jtag.Pending() == []
      modifies jtag.Repr(), this`output
      ensures jtag.Valid() && (old(jtag.Broken()) ==> jtag.Broken())
      ensures ok ==> Monotone(marks, region)
      ensures !ok && Monotone(marks, region) ==> jtag.Broken()
      ensures ok ==> jtag.globals.bitsSend == old(jtag.globals.bitsSend) + region.Length()
      ensures ok ==> readLength == if IsRead(marks, region) then region.Length() else 0
      ensures ok && !jtag.Broken() ==>
                var sub := cs[region.begin..region.end];
                && jtag.Trace() == old(jtag.Trace()) + sub
                && jtag.Pending() == []
                && output == old(output) +
                   if IsRead(marks, region) then Digits(Samples(jtag.Target(), old(jtag.Trace()), sub)) else []
    {
      hide Port.Linked, Port.Trace, Port.Pending, Port.Broken, Run, Bit, BitAt, Samples, Digits, Monotone, IsRead, HoldsTdi;
      var doRead;
      doRead, ok := CheckReads(read, region, marks);
      readLength := 0;
      if ok {
        var died := ExecuteData(region, tdi, doRead, s, cs);
        ok := !died;
        if doRead {
          readLength := region.Length();
        }
      }
    }

    /** The first `k` regions of a chunk have been run, and nothing is left to read back. */
    ghost predicate At(p: RegionRun, k: nat)
      reads jtag.Repr()
    {
      p.At(jtag.Target(), k, jtag.Trace()) && jtag.Pending() == []
    }

    /** Runs region `k`; `ok` is false if the program ends: the assertion about its reads fails, or a transfer was given up
        before. */
    method ExecuteRegion(region: Region, tms: array<byte>, tdi: array<byte>, read: array<byte>,
                         ghost marks: seq<nat>, ghost p: RegionRun, ghost k: nat)
        returns (ok: bool, readLength: nat, ghost p': RegionRun)
      requires jtag.Valid() && this !in jtag.Repr() && {tms, tdi, read} !! jtag.Repr()
      requires |p.cs| < |marks| && |p.cs| <= BUFFER_SIZE <= 8 * read.Length
      requires HoldsTms(tms[..], p.cs) && HoldsTdi(tdi[..], p.cs)
      requires forall i | 0 <= i < |p.cs| :: BitAt(read[..], i) == (marks[i] > 0)
      requires Cuts(p.s, p.cs, p.regions) && k < |p.regions| && region == p.regions[k]
      requires region.begin < region.end <= |p.cs|
      requires !jtag.Broken() ==> At(p, k)
      modifies jtag.Repr(), this`output
      ensures jtag.Valid() && (old(jtag.Broken()) ==> jtag.Broken())
      ensures ok ==> (region.DataRegion? ==> Monotone(marks, region))
      ensures !ok && (region.DataRegion? ==> Monotone(marks, region)) ==> jtag.Broken()
      ensures ok ==> jtag.globals.bitsSend == old(jtag.globals.bitsSend) + region.Length()
      ensures ok ==> readLength == if IsRead(marks, region) then region.Length() else 0
      ensures p'.SameStart(p)
      ensures ok && !jtag.Broken() ==>
                && At(p', k + 1)
                && p.want <= p'.want && |p'.want| == region.end
                && output == old(output) + if IsRead(marks, region) then Digits(p'.want[region.begin..region.end]) else []
    {
      hide Port.Linked, Port.Trace, Port.Pending, Port.Broken, Samples, Serve, Digits, BitAt, Monotone, Cuts;
      hide RegionRun.At, Homogeneous;
      p' := p;
      readLength := 0;
      RegionAt(p.s, p.cs, p.regions, k);
      ghost var trace := jtag.Trace();
      if !jtag.Broken() {
        RunReaches(jtag.Target(), p, k, trace);
        jtag.StateIsFold();
      }
      if region.TmsRegion? {
        ExecuteTms(region, tms, p.cs);
        ok := true;
      } else {
        ok, readLength := CheckAndExecuteData(region, tdi, read, marks, p.s, p.cs);
        if !ok {
          return;
        }
      }
      if !jtag.Broken() {
        ghost var a := jtag.Trace()[|trace|..];
        assert jtag.Trace() == trace + a;
        p' := p.Extend(jtag.Target(), k, a);
        RunExtends(jtag.Target(), p, k, trace, a);
      }
    }

    /** The digits read from the regions `rs` have been written after `before`. */
    ghost predicate Wrote(want: seq<bool>, marks: seq<nat>, rs: seq<Region>, before: seq<byte>)
      reads this`output
    {
      && |want| <= |marks|
      && Within(rs, |want|)
      && output == before + ReadOut(want, marks, rs)
    }

    /** Runs the regions of a chunk, up to the first that fails its assertion. */
    method ExecuteRegions(regions: seq<Region>, tms: array<byte>, tdi: array<byte>, read: array<byte>,
                          ghost marks: seq<nat>, ghost start: RegionRun)
        returns (ok: bool, actualReadBits: nat, ghost p: RegionRun)
      requires jtag.Valid() && this !in jtag.Repr() && {tms, tdi, read} !! jtag.Repr()
      requires |start.cs| < |marks| && |start.cs| <= BUFFER_SIZE <= 8 * read.Length
      requires HoldsTms(tms[..], start.cs) && HoldsTdi(tdi[..], start.cs)
      requires forall i | 0 <= i < |start.cs| :: BitAt(read[..], i) == (marks[i] > 0)
      requires regions == start.regions && Cuts(start.s, start.cs, regions) && Within(regions, |start.cs|)
      requires start.driven == [] && start.want == []
      requires !jtag.Broken() ==> At(start, 0)
      modifies jtag.Repr(), this`output
      ensures ok ==> forall k | 0 <= k < |regions| && regions[k].DataRegion? :: Monotone(marks, regions[k])
      ensures !ok && !jtag.Broken() ==> exists k | 0 <= k < |regions| :: regions[k].DataRegion? && !Monotone(marks, regions[k])
      ensures ok ==> jtag.globals.bitsSend == old(jtag.globals.bitsSend) + |start.cs|
      ensures ok ==> actualReadBits == ReadLength(marks, regions)
      ensures p.SameStart(start)
      ensures ok && !jtag.Broken() ==>
                && At(p, |regions|) && |p.want| == |start.cs|
                && Wrote(p.want, marks, regions, old(output))
      ensures jtag.Valid() && (old(jtag.Broken()) ==> jtag.Broken())
    {
      hide Port.Linked, Port.Trace, Port.Pending, Port.Broken, Progress, Digits, BitAt, Monotone, Cuts, Homogeneous;
      hide ReadOut, ReadLength, IsRead, RegionRun.At, RegionRun.Extend;
      ReadNothing(marks);
      p := start;
      actualReadBits := 0;
      ghost var want: seq<bool> := [];
      assert regions[..0] == [];
      for k := 0 to |regions|
        invariant jtag.Valid() && (old(jtag.Broken()) ==> jtag.Broken())
        invariant {tms, tdi, read} !! jtag.Repr()
        invariant tms[..] == old(tms[..]) && tdi[..] == old(tdi[..]) && read[..] == old(read[..])
        invariant forall j | 0 <= j < k && regions[j].DataRegion? :: Monotone(marks, regions[j])
        invariant jtag.globals.bitsSend == old(jtag.globals.bitsSend) + Reached(regions, k)
        invariant Within(regions[..k], |marks|) && actualReadBits == ReadLength(marks, regions[..k])
        invariant p.SameStart(start)
        invariant !jtag.Broken() ==>
                    && At(p, k) && |p.want| == Reached(regions, k) <= |start.cs|
                    && Wrote(p.want, marks, regions[..k], old(output))
      {
        ghost var before := p;
        assert regions[k].begin < regions[k].end;
        CutBounds(start.s, start.cs, regions, k);
        var readLength;
        ok, readLength, p := ExecuteRegion(regions[k], tms, tdi, read, marks, before, k);
        if !ok {
          return;
        }
        actualReadBits := actualReadBits + readLength;
        ReadLengthMore(marks, regions, k);
        if !jtag.Broken() {
          ReadOutMore(before.want, p.want, marks, regions, k);
        }
      }
      CutEnds(start.s, start.cs, regions);
      assert regions[..|regions|] == regions;
      ok := true;
    }

    /** A chunk has been run from the tracked state `s0`, after the clocks `client0`. The program ends (`aborted`) if one of
        its assertions about reads fails, and otherwise only if a transfer has been given up. If the reads are marked as it
        assumes, it answers every one with the bit that the device would have given to the client's clocks one at a
        time. */
    ghost predicate Ran(s0: State, client0: seq<Clock>, output0: seq<byte>, bits0: nat, chunk: seq<byte>, aborted: bool,
                        rs: seq<Region>)
      reads this, jtag.Repr()
    {
      var cs, marks := ClocksIn(chunk), MarksIn(chunk);
      && Cuts(s0, cs, rs) && Within(rs, |cs|)
      && (!Accepted(marks, rs) ==> aborted)
      && (!jtag.Broken() ==> (aborted <==> !Accepted(marks, rs)))
      && (!aborted ==> Valid() && client == client0 + cs && jtag.globals.bitsSend == bits0 + |cs|)
      && (!aborted ==> jtag.globals.state == Run(s0, cs))
      && (!aborted && Good() ==> output == output0 + ReadOut(Serve(jtag.Target(), s0, client0, cs), marks, rs))
      && (WellMarked(marks, rs) && !jtag.Broken() ==> !aborted)
      && (WellMarked(marks, rs) && Good() ==>
            && output == output0 + OneAtATime(jtag.Target(), s0, client0, chunk)
            && Spells(output[|output0|..], Levels(jtag.Target(), s0, client0, chunk)))
    }

    lemma {:induction false} RanMeans(s0: State, client0: seq<Clock>, output0: seq<byte>, bits0: nat, chunk: seq<byte>, aborted: bool,
                   rs: seq<Region>)
      requires Ran(s0, client0, output0, bits0, chunk, aborted, rs)
      ensures Cuts(s0, ClocksIn(chunk), rs)
      ensures !aborted ==>
                Valid() && client == client0 + ClocksIn(chunk) && jtag.globals.bitsSend == bits0 + |ClocksIn(chunk)|
      ensures WellMarked(MarksIn(chunk), rs) && !jtag.Broken() ==> !aborted
      ensures WellMarked(MarksIn(chunk), rs) && Good() ==>
                output == output0 + OneAtATime(jtag.Target(), s0, client0, chunk)
    {
    }

    /** A tick: a chunk of characters is parsed, run, and read back region by region. */
    method Tick(chunk: seq<byte>) returns (aborted: bool, ghost regions: seq<Region>)
      requires Valid() && |chunk| <= BUFFER_SIZE
      modifies this, jtag.Repr()
      ensures (old(jtag.Broken()) ==> jtag.Broken()) && (jtag.Reliable() ==> !jtag.Broken())
      ensures Ran(old(jtag.globals.state), old(client), old(output), old(jtag.globals.bitsSend), chunk, aborted, regions)
    {
      hide Port.Linked, Port.Trace, Port.Pending, Port.Broken, Cuts, Alike, ClocksIn, MarksIn, Accepted, WellMarked, ReadOut;
      hide Ran;
      var tms, tdi, read, bits, readBits := ParseChunk(chunk);
      aborted, regions := RunChunk(chunk, tms, tdi, read, bits, readBits);
    }

    method RunChunk(ghost chunk: seq<byte>, tms: array<byte>, tdi: array<byte>, read: array<byte>, bits: nat, readBits: nat)
        returns (aborted: bool, ghost regions: seq<Region>)
      requires Valid() && {tms, tdi, read} !! jtag.Repr() && BUFFER_SIZE <= 8 * read.Length
      requires bits == |ClocksIn(chunk)| <= BUFFER_SIZE && readBits == Sum(MarksIn(chunk))
      requires HoldsTms(tms[..], ClocksIn(chunk)) && HoldsTdi(tdi[..], ClocksIn(chunk))
      requires forall i | 0 <= i < bits :: BitAt(read[..], i) == (MarksIn(chunk)[i] > 0)
      modifies this, jtag.Repr()
      ensures (old(jtag.Broken()) ==> jtag.Broken()) && (jtag.Reliable() ==> !jtag.Broken())
      ensures Ran(old(jtag.globals.state), old(client), old(output), old(jtag.globals.bitsSend), chunk, aborted, regions)
    {
      hide Port.Linked, Port.Trace, Port.Pending, Port.Broken, Progress, BitAt, Monotone, Cuts, Alike;
      hide Serve, ClocksIn, MarksIn, WellMarked, ReadOut, OneAtATime, Sum, Run, HoldsTms, HoldsTdi, RegionRun.At;
      hide Accepted, ReadLength, IsRead, IsShift, Spells, Levels;
      ghost var cs, marks, s, trace := ClocksIn(chunk), MarksIn(chunk), jtag.globals.state, jtag.Trace();
      var rs, curState := AnalyzeBitbang(tms[..], bits, jtag.globals.state, cs);
      regions := rs;
      CutWithin(s, cs, rs);
      AcceptedMeans(marks, rs);
      if WellMarked(marks, rs) {
        WellMarkedRefines(jtag.Target(), s, client, chunk, rs);
      }
      OneAtATimeSpells(jtag.Target(), s, client, chunk);
      ghost var p := RegionRun(s, trace, cs, rs, [], []);
      if !jtag.Broken() {
        jtag.StateIsFold();
        RunStarts(jtag.Target(), p);
      }
      var ok, actualReadBits;
      ok, actualReadBits, p := ExecuteRegions(rs, tms, tdi, read, marks, p);
      jtag.NeverStarved();
      if !ok {
        return true, rs;
      }
      if !jtag.Broken() {
        RunEnds(jtag.Target(), p, jtag.Trace());
        RunLikeClient(jtag.Target(), p, jtag.Trace(), client);
        jtag.StateIsFold();
      }
      client := client + cs;
      aborted := curState != jtag.globals.state || readBits != actualReadBits;
    }

    /** Chunk `k` marks its reads as the program assumes, in the state that the chunks before it lead to from `s`. */
    static ghost predicate WellMarkedChunk(s: State, chunks: seq<seq<byte>>, k: nat)
      requires k < |chunks|
    {
      forall rs | Cuts(Run(s, ClocksIn(Flatten(chunks[..k]))), ClocksIn(chunks[k]), rs) ::
        WellMarked(MarksIn(chunks[k]), rs)
    }

    static lemma {:induction false} MarkedWell(s: State, chunks: seq<seq<byte>>, k: nat, rs: seq<Region>)
      requires k < |chunks| && WellMarkedChunk(s, chunks, k)
      requires Cuts(Run(s, ClocksIn(Flatten(chunks[..k]))), ClocksIn(chunks[k]), rs)
      ensures WellMarked(MarksIn(chunks[k]), rs)
    {
    }

    /** The adapter has made as many clocks as the client asked for, and its tracked state is that of the client's
        stream. The device may have powered up in any other state: five ones in a row bring it into step for good. */
    lemma InStep(k: nat)
      requires Valid() && !jtag.Broken()
      ensures |jtag.Trace()| == |client| && jtag.globals.state == Run(TestLogicReset, client)
      ensures FiveOnesAt(client, k) ==>
                forall p, m | k + 5 <= m <= |client| ::
                  Run(p, jtag.Trace()[..m]) == Run(TestLogicReset, client[..m])
    {
      hide Run;
      jtag.StateIsFold();
      AlikeInStep(jtag.Trace(), client, k);
    }

    /** A whole session: if every chunk marks its reads as assumed, the program does not stop unless a transfer is given up,
        and the characters written are those of the one-at-a-time server on the whole stream. */
    method Session(chunks: seq<seq<byte>>) returns (aborted: bool)
      requires Valid() && forall c | c in chunks :: |c| <= BUFFER_SIZE
      requires forall k | 0 <= k < |chunks| :: WellMarkedChunk(Run(TestLogicReset, client), chunks, k)
      modifies this, jtag.Repr()
      ensures (old(jtag.Broken()) ==> jtag.Broken()) && (jtag.Reliable() ==> !jtag.Broken())
      ensures aborted ==> jtag.Broken()
      ensures !aborted ==> Valid() && client == old(client) + ClocksIn(Flatten(chunks))
      ensures !aborted ==> jtag.globals.bitsSend == old(jtag.globals.bitsSend) + |ClocksIn(Flatten(chunks))|
      ensures Good() ==>
                var s := Run(TestLogicReset, old(client));
                && output == old(output) + OneAtATime(jtag.Target(), s, old(client), Flatten(chunks))
                && Spells(output[|old(output)|..], Levels(jtag.Target(), s, old(client), Flatten(chunks)))
    {
      hide Port.Linked, Port.Trace, Port.Pending, Port.Broken, Cuts, Alike, ClocksIn, MarksIn, Accepted, WellMarked, ReadOut;
      hide Run, OneAtATime, Flatten;
      ghost var s, client0, output0, bits0 := Run(TestLogicReset, client), client, output, jtag.globals.bitsSend;
      jtag.NeverStarved();
      NothingYet(jtag.Target(), s, client0);
      assert chunks[..0] == [];
      hide WellMarkedChunk, Server.Valid;
      aborted := false;
      for k := 0 to |chunks|
        invariant !aborted && Valid() && Served(s, client0, output0, bits0, chunks, k)
        invariant (old(jtag.Broken()) ==> jtag.Broken()) && (jtag.Reliable() ==> !jtag.Broken())
      {
        assert chunks[k] in chunks && WellMarkedChunk(s, chunks, k);
        aborted := ServeChunk(chunks, k, s, client0, output0, bits0);
        if aborted {
          return;
        }
      }
      assert chunks[..|chunks|] == chunks;
      OneAtATimeSpells(jtag.Target(), s, client0, Flatten(chunks));
      assert Good() ==> output[|output0|..] == OneAtATime(jtag.Target(), s, client0, Flatten(chunks));
    }

    /** The first `k` chunks have been answered. */
    ghost predicate Served(s: State, client0: seq<Clock>, output0: seq<byte>, bits0: nat, chunks: seq<seq<byte>>, k: nat)
      requires k <= |chunks|
      reads this, jtag.Repr()
    {
      var chars := Flatten(chunks[..k]);
      && client == client0 + ClocksIn(chars)
      && jtag.globals.bitsSend == bits0 + |ClocksIn(chars)|
      && (Good() ==> output == output0 + OneAtATime(jtag.Target(), s, client0, chars))
    }

    method ServeChunk(chunks: seq<seq<byte>>, k: nat, ghost s: State, ghost client0: seq<Clock>,
                      ghost output0: seq<byte>, ghost bits0: nat)
        returns (aborted: bool)
      requires Valid() && k < |chunks| && |chunks[k]| <= BUFFER_SIZE && s == Run(TestLogicReset, client0)
      requires WellMarkedChunk(s, chunks, k) && Served(s, client0, output0, bits0, chunks, k)
      modifies this, jtag.Repr()
      ensures (old(jtag.Broken()) ==> jtag.Broken()) && (jtag.Reliable() ==> !jtag.Broken())
      ensures aborted ==> jtag.Broken()
      ensures !aborted ==> Valid() && Served(s, client0, output0, bits0, chunks, k + 1)
    {
      hide Port.Linked, Port.Trace, Port.Pending, Port.Broken, Cuts, Alike, ClocksIn, MarksIn, Accepted, WellMarked, ReadOut;
      hide Run, OneAtATime, Flatten, WellMarkedChunk, Server.Valid, Ran;
      ghost var state, client1, output1, bits1 := jtag.globals.state, client, output, jtag.globals.bitsSend;
      ghost var good := !jtag.Broken();
      RunAppend(TestLogicReset, client0, ClocksIn(Flatten(chunks[..k])));
      if good {
        InStep(0);
      }
      OneMoreChunk(jtag.Target(), s, client0, chunks, k);
      ghost var regions;
      aborted, regions := Tick(chunks[k]);
      RanMeans(state, client1, output1, bits1, chunks[k], aborted, regions);
      if good {
        MarkedWell(s, chunks, k, regions);
      }
    }

    /** No transfer has been given up, and the device started in the tracked state. */
    ghost predicate Good()
      reads jtag.Repr()
    {
      !jtag.Broken() && jtag.Target().start == TestLogicReset
    }
  }
}
