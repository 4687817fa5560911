/** Finding the devices of a daisy chain and reading their IDCODEs. */
module Probe {
  import opened Bits
  import opened Tap
  import opened Reference
  import opened Scan
  import opened Chain
  import opened Jtag

  const MAX_TAPS := 8
  const MAX_IR := 16

  /** `v` is the 32-bit number whose bits, least significant first, are `idcode`. */
  ghost predicate IsIdCode(v: nat, idcode: seq<bool>) {
    && |idcode| == 32 && v < Pow2(32)
    && forall k | 0 <= k < 32 :: Bit(v, k) == idcode[k]
  }

  ghost predicate AllZeroes(path: seq<bool>, n: nat) {
    |path| == n && forall i | 0 <= i < n :: !path[i]
  }

  /** From Test-Logic-Reset to Shift-IR: the instruction registers are captured on the way. */
  lemma {:induction false} ToShiftIr(chain: seq<Device>, c: ChainState, cs: seq<Clock>)
    requires c.state == TestLogicReset && |cs| == 5
    requires !cs[0].tms && cs[1].tms && cs[2].tms && !cs[3].tms && !cs[4].tms
    ensures var d := After(chain, c, cs); d.state == ShiftIR && d.path == IrPath(chain)
  {
    FourSteps(chain, c, cs[..4]);
    assert cs == cs[..5];
    AfterSnoc(chain, c, cs, 4);
  }

  /** From Exit1-IR to Shift-DR: the instructions take effect, and BYPASS captures zeroes. */
  lemma {:induction false} ToShiftDrInBypass(chain: seq<Device>, c: ChainState, cs: seq<Clock>)
    requires c.state == Exit1IR && AllOnes(c.path) && |cs| == 4
    requires cs[0].tms && cs[1].tms && !cs[2].tms && !cs[3].tms
    ensures var d := After(chain, c, cs); d.state == ShiftDR && AllZeroes(d.path, |chain|)
  {
    hide Decode, ScanPath, IrPath, IdCodes, AllOnes;
    FourSteps(chain, c, cs);
    DecodeOnes(chain, c.path);
    FlattenZeroes(|chain|);
    var c1 := Step(chain, c, cs[0]);
    assert c1 == ChainState(UpdateIR, Decode(chain, c.path), c.path, c.idle);
    var c2 := Step(chain, c1, cs[1]);
    assert c2 == ChainState(SelectDRScan, c1.drs, c.path, c.idle);
    var c3 := Step(chain, c2, cs[2]);
    assert c3 == ChainState(CaptureDR, c1.drs, c.path, c.idle);
  }

  /** From Test-Logic-Reset to Shift-DR: the IDCODE registers are captured on the way. */
  lemma {:induction false} ToShiftDrWithIds(chain: seq<Device>, c: ChainState, cs: seq<Clock>)
    requires c.state == TestLogicReset && c.drs == IdCodes(chain) && |cs| == 4
    requires !cs[0].tms && cs[1].tms && !cs[2].tms && !cs[3].tms
    ensures var d := After(chain, c, cs); d.state == ShiftDR && d.path == ScanPath(IdCodes(chain))
  {
    FourSteps(chain, c, cs);
  }

  /** Zeroes shifted through zeroes leave zeroes. */
  lemma {:induction false} ZeroesStay(chain: seq<Device>, c: ChainState, cs: seq<Clock>, n: nat)
    requires c.state == ShiftDR && AllZeroes(c.path, n)
    requires forall i | 0 <= i < |cs| :: !cs[i].tms && !cs[i].tdi
    ensures var d := After(chain, c, cs); d.state == ShiftDR && AllZeroes(d.path, n)
  {
    assert cs[..|cs|] == cs;
    ShiftOut(chain, c, cs, |cs|);
    AfterMask(chain, c, cs);
    ShiftRun(ShiftDR, cs, false);
  }

  ghost predicate ProbeOn(jtag: Port, chain: seq<Device>, c: ChainState)
    reads jtag.Repr()
  {
    && jtag.Valid()
    && (!jtag.Broken() ==> jtag.Pending() == [])
    && IsChain(jtag.Target(), chain, c)
    && (forall d | d in chain :: Compliant(d))
    && |IrPath(chain)| <= 128
  }

  /** The state of the chain once all clocks have been made. */
  ghost function Now(jtag: Port, chain: seq<Device>, c: ChainState): ChainState
    reads jtag.Repr()
  {
    After(chain, c, jtag.Trace())
  }

  lemma OnesBytes(data: seq<byte>, i: nat)
    requires i < 8 * |data| && forall b | 0 <= b < |data| :: data[b] == 0xFF
    ensures BitAt(data, i)
  {
    var k := i % 8;
    assert Bit(255, 7) == Bit(127, 6) == Bit(63, 5) == Bit(31, 4);
    assert Bit(255, 6) == Bit(127, 5) == Bit(63, 4);
    assert Bit(255, 5) == Bit(127, 4);
    SmallBits(255);
    SmallBits(127);
    SmallBits(63);
    SmallBits(31);
    assert k == 0 || k == 1 || k == 2 || k == 3 || k == 4 || k == 5 || k == 6 || k == 7;
  }

  /** Test-Logic-Reset selects every IDCODE register, wherever the TAPs were. */
  method Reset(jtag: Port, ghost chain: seq<Device>, ghost c: ChainState)
    requires ProbeOn(jtag, chain, c)
    modifies jtag.Repr()
    ensures ProbeOn(jtag, chain, c) && (old(jtag.Broken()) ==> jtag.Broken())
    ensures jtag.globals.bitsSend == old(jtag.globals.bitsSend) + 5
    ensures jtag.globals.state == TestLogicReset
    ensures !jtag.Broken() ==>
              Now(jtag, chain, c).state == TestLogicReset && Now(jtag, chain, c).drs == IdCodes(chain)
  {
    hide Port.Linked, Port.Trace, Port.Pending, Port.Broken, IsChain, After, IrPath, Bit;
    ghost var trace, cs := jtag.Trace(), jtag.TmsClocks([0x1F], 5);
    FiveOnes();
    var ok := jtag.GotoTlr();
    AfterAppend(chain, c, trace, cs);
    ResetSelectsIdCodes(chain, After(chain, c, trace), cs);
  }

  method GoToShiftIr(jtag: Port, ghost chain: seq<Device>, ghost c: ChainState)
    requires ProbeOn(jtag, chain, c) && jtag.globals.state == TestLogicReset
    requires !jtag.Broken() ==> Now(jtag, chain, c).state == TestLogicReset
    modifies jtag.Repr()
    ensures ProbeOn(jtag, chain, c) && (old(jtag.Broken()) ==> jtag.Broken())
    ensures jtag.globals.bitsSend == old(jtag.globals.bitsSend) + 5
    ensures jtag.globals.state == ShiftIR
    ensures !jtag.Broken() ==> Now(jtag, chain, c).state == ShiftIR && Now(jtag, chain, c).path == IrPath(chain)
  {
    hide Port.Linked, Port.Trace, Port.Pending, Port.Broken, IsChain, After, IrPath, Bit;
    ghost var trace, cs := jtag.Trace(), jtag.TmsClocks([0x06], 5);
    SixBits();
    var ok := jtag.TmsSeqTo(ShiftIR);
    AfterAppend(chain, c, trace, cs);
    if !jtag.Broken() {
      ToShiftIr(chain, After(chain, c, trace), cs);
    }
  }

  lemma SixBits()
    ensures !BitAt([0x06], 0) && BitAt([0x06], 1) && BitAt([0x06], 2) && !BitAt([0x06], 3) && !BitAt([0x06], 4)
    ensures BitAt([0x03], 0) && BitAt([0x03], 1) && !BitAt([0x03], 2) && !BitAt([0x03], 3)
    ensures !BitAt([0x02], 0) && BitAt([0x02], 1) && !BitAt([0x02], 2) && !BitAt([0x02], 3)
  {
    SmallBits(6);
    SmallBits(3);
    SmallBits(2);
  }

  method SendOnes(jtag: Port, ghost chain: seq<Device>, ghost c: ChainState)
    requires ProbeOn(jtag, chain, c)
    requires !jtag.Broken() ==> jtag.globals.state == ShiftIR
    requires !jtag.Broken() ==> Now(jtag, chain, c).state == ShiftIR && Now(jtag, chain, c).path == IrPath(chain)
    modifies jtag.Repr()
    ensures ProbeOn(jtag, chain, c) && (old(jtag.Broken()) ==> jtag.Broken())
    ensures jtag.globals.bitsSend == old(jtag.globals.bitsSend) + 128
    ensures !jtag.Broken() ==> jtag.globals.state == Exit1IR
    ensures !jtag.Broken() ==> Now(jtag, chain, c).state == Exit1IR && AllOnes(Now(jtag, chain, c).path)
  {
    hide Port.Linked, Port.Trace, Port.Pending, Port.Broken, Port.ScanMade, IsChain, After, IrPath, Bit, AllOnes;
    hide Samples, TmsPin, Run;
    var ones: seq<byte> := seq(MAX_TAPS * MAX_IR / 8, i => 0xFF);
    ghost var trace, cs := jtag.Trace(), ScanClocks(false, ones, MAX_TAPS * MAX_IR, true);
    var outcome := jtag.ScanChainSend(ones, MAX_TAPS * MAX_IR, true, false);
    if !jtag.Broken() {
      forall i | 0 <= i < |cs| ensures cs[i].tdi {
        OnesBytes(ones, i);
      }
      OnesFill(chain, After(chain, c, trace), cs);
      AfterAppend(chain, c, trace, cs);
      ShiftEnds(ShiftIR, cs);
    }
  }

  method GoToShiftDr(jtag: Port, ghost chain: seq<Device>, ghost c: ChainState)
    requires ProbeOn(jtag, chain, c)
    requires jtag.globals.state == Exit1IR
    requires !jtag.Broken() ==> Now(jtag, chain, c).state == Exit1IR && AllOnes(Now(jtag, chain, c).path)
    modifies jtag.Repr()
    ensures ProbeOn(jtag, chain, c) && (old(jtag.Broken()) ==> jtag.Broken())
    ensures jtag.globals.bitsSend == old(jtag.globals.bitsSend) + 4
    ensures jtag.globals.state == ShiftDR
    ensures !jtag.Broken() ==>
              Now(jtag, chain, c).state == ShiftDR && AllZeroes(Now(jtag, chain, c).path, |chain|)
  {
    hide Port.Linked, Port.Trace, Port.Pending, Port.Broken, IsChain, After, IrPath, Bit, AllOnes, AllZeroes;
    ghost var trace, cs := jtag.Trace(), jtag.TmsClocks([0x03], 4);
    SixBits();
    var ok := jtag.TmsSeqTo(ShiftDR);
    AfterAppend(chain, c, trace, cs);
    if !jtag.Broken() {
      ToShiftDrInBypass(chain, After(chain, c, trace), cs);
    }
  }

  /** Steps 1 to 4: an instruction of all ones puts every device in BYPASS. */
  method SelectBypass(jtag: Port, ghost chain: seq<Device>, ghost c: ChainState)
    requires ProbeOn(jtag, chain, c)
    modifies jtag.Repr()
    ensures ProbeOn(jtag, chain, c) && (old(jtag.Broken()) ==> jtag.Broken())
    ensures !jtag.Broken() ==> jtag.globals.bitsSend == old(jtag.globals.bitsSend) + 142
    ensures !jtag.Broken() ==>
              && jtag.globals.state == ShiftDR
              && Now(jtag, chain, c).state == ShiftDR && AllZeroes(Now(jtag, chain, c).path, |chain|)
  {
    hide ProbeOn, AllZeroes, AllOnes, IrPath, Now, Port.Broken;
    Reset(jtag, chain, c);
    GoToShiftIr(jtag, chain, c);
    SendOnes(jtag, chain, c);
    if jtag.globals.state == Exit1IR {
      GoToShiftDr(jtag, chain, c);
    } // else the state table has no entry and the program stops; that takes a failed transfer
  }

  /** The bits read by the second DR scan: a zero for every device, then the ones that follow. Without a device, it is the
      level of a TDO that nobody drives. */
  lemma {:induction false} BypassReads(jtag: Port, chain: seq<Device>, c: ChainState, trace: seq<Clock>,
                                       cs: seq<Clock>, i: nat)
    requires IsChain(jtag.Target(), chain, c) && i < |cs|
    requires After(chain, c, trace).state == ShiftDR && AllZeroes(After(chain, c, trace).path, |chain|)
    requires forall j | 0 <= j < |cs| :: cs[j].tdi && cs[j].tms == (j == |cs| - 1)
    ensures Samples(jtag.Target(), trace, cs)[i] ==
            if chain == [] then After(chain, c, trace).idle else i >= |chain|
  {
    ScanReads(jtag.Target(), chain, c, trace, cs, i);
  }

  method SendZeros(jtag: Port, ghost chain: seq<Device>, ghost c: ChainState)
    requires ProbeOn(jtag, chain, c)
    requires !jtag.Broken() ==>
               && jtag.globals.state == ShiftDR
               && Now(jtag, chain, c).state == ShiftDR && AllZeroes(Now(jtag, chain, c).path, |chain|)
    modifies jtag.Repr()
    ensures ProbeOn(jtag, chain, c) && (old(jtag.Broken()) ==> jtag.Broken())
    ensures jtag.globals.bitsSend == old(jtag.globals.bitsSend) + 8
    ensures !jtag.Broken() ==>
              && jtag.globals.state == ShiftDR
              && Now(jtag, chain, c).state == ShiftDR && AllZeroes(Now(jtag, chain, c).path, |chain|)
  {
    hide Port.Linked, Port.Trace, Port.Pending, Port.Broken, IsChain, After, IrPath, Bit, AllZeroes;
    var zeros: seq<byte> := seq(MAX_TAPS / 8, i => 0);
    ghost var trace, cs := jtag.Trace(), ScanClocks(false, zeros, MAX_TAPS, false);
    var outcome := jtag.ScanChainSend(zeros, MAX_TAPS, false, false);
    ZeroBytes(zeros, MAX_TAPS / 8);
    if !jtag.Broken() {
      ZeroesStay(chain, After(chain, c, trace), cs, |chain|);
      AfterAppend(chain, c, trace, cs);
      ShiftRun(ShiftDR, cs, false);
    }
  }

  /** Eight ones shifted into devices in BYPASS push out a zero for each. */
  method ReadBypass(jtag: Port, ghost chain: seq<Device>, ghost c: ChainState) returns (readBuffer: array<byte>)
    requires ProbeOn(jtag, chain, c)
    requires !jtag.Broken() ==>
               && jtag.globals.state == ShiftDR
               && Now(jtag, chain, c).state == ShiftDR && AllZeroes(Now(jtag, chain, c).path, |chain|)
    modifies jtag.Repr()
    ensures ProbeOn(jtag, chain, c) && (old(jtag.Broken()) ==> jtag.Broken())
    ensures jtag.globals.bitsSend == old(jtag.globals.bitsSend) + 8
    ensures readBuffer.Length == MAX_TAPS / 8
    ensures !jtag.Broken() ==>
              forall i | 0 <= i < MAX_TAPS ::
                BitAt(readBuffer[..], i) == if chain == [] then old(Now(jtag, chain, c)).idle else i >= |chain|
  {
    hide Port.Linked, Port.Trace, Port.Pending, Port.Broken, IsChain, After, IrPath, Bit, AllZeroes, Samples;
    var ones: seq<byte> := seq(MAX_TAPS / 8, i => 0xFF);
    readBuffer := new byte[MAX_TAPS / 8];
    ghost var trace, cs := jtag.Trace(), ScanClocks(false, ones, MAX_TAPS, true);
    var outcome := jtag.ScanChain(ones, readBuffer, MAX_TAPS, true, true);
    if !jtag.Broken() {
      forall j | 0 <= j < MAX_TAPS ensures cs[j].tdi {
        OnesBytes(ones, j);
      }
      forall i | 0 <= i < MAX_TAPS
        ensures BitAt(readBuffer[..], i) == if chain == [] then After(chain, c, trace).idle else i >= |chain|
      {
        BypassReads(jtag, chain, c, trace, cs, i);
      }
    }
  }

  /** Steps 5 and 6: as many zeroes come out as there are devices in BYPASS. */
  method CountDevices(jtag: Port, ghost chain: seq<Device>, ghost c: ChainState) returns (numDevices: nat)
    requires ProbeOn(jtag, chain, c)
    requires !jtag.Broken() ==>
               && jtag.globals.state == ShiftDR
               && Now(jtag, chain, c).state == ShiftDR && AllZeroes(Now(jtag, chain, c).path, |chain|)
    modifies jtag.Repr()
    ensures ProbeOn(jtag, chain, c) && (old(jtag.Broken()) ==> jtag.Broken())
    ensures jtag.globals.bitsSend == old(jtag.globals.bitsSend) + 16
    ensures numDevices < 8
    ensures !jtag.Broken() ==> numDevices == if |chain| < 8 then |chain| else 0
  {
    hide ProbeOn, AllZeroes, Now, Port.Broken, Bit;
    SendZeros(jtag, chain, c);
    var readBuffer := ReadBypass(jtag, chain, c);
    numDevices := 0;
    for i := 0 to MAX_TAPS
      invariant numDevices == 0
      invariant !jtag.Broken() && chain != [] ==> i <= |chain|
      invariant !jtag.Broken() && chain == [] && i > 0 ==> !BitAt(readBuffer[..], 0)
      modifies {}
    {
      var readBit := Bit(readBuffer[i / 8], i % 8);
      assert readBit == BitAt(readBuffer[..], i);
      if readBit {
        numDevices := i;
        break;
      }
    }
  }

  method GoToIds(jtag: Port, ghost chain: seq<Device>, ghost c: ChainState)
    requires ProbeOn(jtag, chain, c)
    modifies jtag.Repr()
    ensures ProbeOn(jtag, chain, c) && (old(jtag.Broken()) ==> jtag.Broken())
    ensures jtag.globals.bitsSend == old(jtag.globals.bitsSend) + 9
    ensures !jtag.Broken() ==>
              && jtag.globals.state == ShiftDR
              && Now(jtag, chain, c).state == ShiftDR && Now(jtag, chain, c).path == ScanPath(IdCodes(chain))
  {
    hide Port.Linked, Port.Trace, Port.Pending, Port.Broken, IsChain, After, IrPath, Bit, ScanPath;
    Reset(jtag, chain, c);
    ghost var trace, cs := jtag.Trace(), jtag.TmsClocks([0x02], 4);
    SixBits();
    GetTmsSeqLeads(TestLogicReset, ShiftDR, cs);
    var ok := jtag.TmsSeq([0x02], 4);
    AfterAppend(chain, c, trace, cs);
    if !jtag.Broken() {
      ToShiftDrWithIds(chain, After(chain, c, trace), cs);
    }
  }

  /** The bits read by the IDCODE scan. */
  lemma {:induction false} IdReads(jtag: Port, chain: seq<Device>, c: ChainState, trace: seq<Clock>, cs: seq<Clock>,
                                   i: nat, k: nat)
    requires IsChain(jtag.Target(), chain, c) && (forall d | d in chain :: Compliant(d))
    requires i < |chain| && Compliant(chain[i]) && k < 32 && 32 * i + k < |cs|
    requires After(chain, c, trace).state == ShiftDR && After(chain, c, trace).path == ScanPath(IdCodes(chain))
    requires forall j | 0 <= j < |cs| :: cs[j].tms == (j == |cs| - 1)
    ensures Samples(jtag.Target(), trace, cs)[32 * i + k] == chain[i].idcode[k]
  {
    forall j | 0 <= j < |chain| ensures |IdCodes(chain)[j]| == 32 {
      assert chain[j] in chain;
    }
    FlattenIds(IdCodes(chain), i, k);
    ScanReads(jtag.Target(), chain, c, trace, cs, 32 * i + k);
  }

  ghost predicate HoldsIdCode(r: seq<byte>, d: Device, i: nat)
    requires 32 * i + 32 <= 8 * |r|
  {
    |d.idcode| == 32 && forall k | 0 <= k < 32 :: BitAt(r, 32 * i + k) == d.idcode[k]
  }

  /** Step 8: the IDCODE registers, and zeroes behind them. */
  method ScanIdCodes(jtag: Port, ghost chain: seq<Device>, ghost c: ChainState) returns (readBuffer: array<byte>)
    requires ProbeOn(jtag, chain, c) && (!jtag.Broken() ==> |chain| < MAX_TAPS)
    modifies jtag.Repr()
    ensures ProbeOn(jtag, chain, c) && (old(jtag.Broken()) ==> jtag.Broken())
    ensures jtag.globals.bitsSend == old(jtag.globals.bitsSend) + 265
    ensures readBuffer.Length == MAX_TAPS * 32 / 8
    ensures !jtag.Broken() ==>
              |chain| < MAX_TAPS && forall i | 0 <= i < |chain| :: HoldsIdCode(readBuffer[..], chain[i], i)
  {
    hide Port.Linked, Port.Trace, Port.Pending, Port.Broken, IsChain, After, IrPath, Bit, ScanPath, Samples;
    GoToIds(jtag, chain, c);
    var zeros: seq<byte> := seq(MAX_TAPS * 32 / 8, i => 0);
    readBuffer := new byte[MAX_TAPS * 32 / 8];
    ghost var trace, cs := jtag.Trace(), ScanClocks(false, zeros, MAX_TAPS * 32, true);
    var outcome := jtag.ScanChain(zeros, readBuffer, MAX_TAPS * 32, true, true);
    if !jtag.Broken() {
      forall i | 0 <= i < |chain| ensures HoldsIdCode(readBuffer[..], chain[i], i) {
        assert Compliant(chain[i]);
        forall k | 0 <= k < 32 ensures BitAt(readBuffer[..], 32 * i + k) == chain[i].idcode[k] {
          IdReads(jtag, chain, c, trace, cs, i, k);
        }
      }
    }
  }

  /** Steps 7 to 9: reads as many IDCODEs as devices were found. */
  method ReadIdCodes(jtag: Port, numDevices: nat, ghost chain: seq<Device>, ghost c: ChainState) returns (res: seq<nat>)
    requires ProbeOn(jtag, chain, c) && numDevices < MAX_TAPS
    requires !jtag.Broken() ==> numDevices == |chain|
    modifies jtag.Repr()
    ensures ProbeOn(jtag, chain, c) && (old(jtag.Broken()) ==> jtag.Broken())
    ensures jtag.globals.bitsSend == old(jtag.globals.bitsSend) + 265
    ensures |res| == numDevices
    ensures !jtag.Broken() ==> forall i | 0 <= i < |chain| :: IsIdCode(res[i], chain[i].idcode)
  {
    hide ProbeOn, Port.Broken, Word, BitAt;
    var readBuffer := ScanIdCodes(jtag, chain, c);
    res := Collect(readBuffer, numDevices);
    if !jtag.Broken() {
      forall i | 0 <= i < |chain| ensures IsIdCode(res[i], chain[i].idcode) {
        assert HoldsIdCode(readBuffer[..], chain[i], i);
        WordIsIdCode(readBuffer[..], chain[i].idcode, i);
        assert readBuffer[..][4 * i..4 * i + 4] == readBuffer[4 * i..4 * i + 4];
      }
    }
  }

  method Collect(readBuffer: array<byte>, numDevices: nat) returns (res: seq<nat>)
    requires 4 * numDevices <= readBuffer.Length
    ensures |res| == numDevices
    ensures forall i | 0 <= i < numDevices :: res[i] == Word(readBuffer[4 * i..4 * i + 4])
  {
    hide Word;
    res := [];
    for i := 0 to numDevices
      invariant |res| == i
      invariant forall j | 0 <= j < i :: res[j] == Word(readBuffer[4 * j..4 * j + 4])
    {
      res := res + [Word(readBuffer[4 * i..4 * i + 4])];
    }
  }

  lemma WordIsIdCode(r: seq<byte>, idcode: seq<bool>, i: nat)
    requires 4 * i + 4 <= |r| && |idcode| == 32
    requires forall k | 0 <= k < 32 :: BitAt(r, 32 * i + k) == idcode[k]
    ensures IsIdCode(Word(r[4 * i..4 * i + 4]), idcode)
  {
    var w := r[4 * i..4 * i + 4];
    forall k: nat | k < 32 ensures Word(w) < Pow2(32) && Bit(Word(w), k) == idcode[k] {
      WordBits(w, k);
      assert (32 * i + k) / 8 == 4 * i + k / 8 && (32 * i + k) % 8 == k % 8;
    }
    WordBits(w, 0);
  }

  /** Probing a chain of fewer than eight devices returns exactly their IDCODEs, in order from the TDO end, and
      leaves every TAP reset. A longer chain is taken for an empty one; an empty one is found empty, whatever level is read
      from its TDO. */
  method ProbeDevices(jtag: Port, ghost chain: seq<Device>, ghost c: ChainState) returns (res: seq<nat>)
    requires ProbeOn(jtag, chain, c)
    modifies jtag.Repr()
    ensures ProbeOn(jtag, chain, c) && (old(jtag.Broken()) ==> jtag.Broken())
    ensures !jtag.Broken() ==> jtag.globals.bitsSend == old(jtag.globals.bitsSend) + if res == [] then 158 else 428
    ensures jtag.Reliable() ==> !jtag.Broken()
    ensures !jtag.Broken() ==>
              if |chain| < 8 then
                && |res| == |chain|
                && (forall i | 0 <= i < |chain| :: IsIdCode(res[i], chain[i].idcode))
                && (chain != [] ==> jtag.globals.state == Now(jtag, chain, c).state == TestLogicReset)
              else
                res == []
  {
    hide ProbeOn, AllZeroes, AllOnes, IrPath, Now, Port.Broken, IsIdCode;
    SelectBypass(jtag, chain, c);
    var numDevices := CountDevices(jtag, chain, c);
    if numDevices == 0 {
      NotBroken(jtag, chain, c);
      return [];
    }
    res := ReadIdCodes(jtag, numDevices, chain, c);
    Reset(jtag, chain, c);
    NotBroken(jtag, chain, c);
  }

  lemma NotBroken(jtag: Port, chain: seq<Device>, c: ChainState)
    requires ProbeOn(jtag, chain, c)
    ensures jtag.Reliable() ==> !jtag.Broken()
  {
    hide Port.Linked, Port.Broken, Port.Reliable;
    jtag.NeverStarved();
  }
}
