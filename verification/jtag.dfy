/** The JTAG operations common to all protocols: they track the TAP and hand the work to the adapter's driver. */
module Jtag {
  import opened Bits
  import opened Tap
  import opened Reference
  import opened Scan
  import opened Globals
  import opened Ftdi
  import opened Tck
  import Mpsse
  import MpsseBuffer
  import UsbBlaster
  import BlasterChip
  import MpsseChip

  /** The `driver` table in use. */
  datatype Adapter = UseMpsse(mpsse: Mpsse.Driver) | UseBlaster(blaster: UsbBlaster.Driver)

  lemma {:induction false} ShiftRun(s: State, cs: seq<Clock>, flipTms: bool)
    requires IsShift(s) && (flipTms ==> cs != [])
    requires forall i | 0 <= i < |cs| :: cs[i].tms == (flipTms && i == |cs| - 1)
    ensures Run(s, cs) == if flipTms then NextState(s, true) else s
    decreases cs
  {
    if |cs| > 1 || (|cs| == 1 && !flipTms) {
      ShiftRun(s, cs[1..], flipTms);
    } else if |cs| == 1 {
      assert Run(NextState(s, cs[0].tms), cs[1..]) == NextState(s, true);
    }
  }

  lemma {:induction false} IdleRun(cs: seq<Clock>)
    requires forall i | 0 <= i < |cs| :: !cs[i].tms
    ensures Run(RunTestIdle, cs) == RunTestIdle
  {
    if cs != [] {
      IdleRun(cs[1..]);
    }
  }

  /** The TMS bits that lead from one state to another, for the pairs that are ever asked for. */
  function GetTmsSeq(from: State, to: State): (o: TmsSteps)
    ensures o.Steps? ==> o.numBits <= 5
  {
    if from == to then Steps(0, 0)
    else
      match (from, to)
      case (TestLogicReset, ShiftIR) => Steps(0x06, 5)
      case (TestLogicReset, ShiftDR) => Steps(0x02, 4)
      case (RunTestIdle, ShiftIR) => Steps(0x03, 4)
      case (RunTestIdle, ShiftDR) => Steps(0x01, 3)
      case (Exit1IR, ShiftDR) => Steps(0x03, 4)
      case (Exit1IR, RunTestIdle) => Steps(0x01, 2)
      case (Exit1DR, RunTestIdle) => Steps(0x01, 2)
      case _ => Unlisted
  }

  /** The pairs that the protocols ask for are in the table, and no others. */
  lemma Listed(from: State, to: State)
    ensures GetTmsSeq(from, to).Steps? <==>
              || from == to
              || ((from == TestLogicReset || from == RunTestIdle) && (to == ShiftIR || to == ShiftDR))
              || (from == Exit1IR && (to == ShiftDR || to == RunTestIdle))
              || (from == Exit1DR && to == RunTestIdle)
  {
  }

  datatype TmsSteps = Unlisted | Steps(tms: byte, numBits: nat)

  /** The state that the TMS bits of `data` lead to. */
  method Follow(state: State, data: seq<byte>, n: nat, ghost cs: seq<Clock>) returns (newState: State)
    requires |cs| == n <= 8 * |data| && forall i | 0 <= i < n :: cs[i].tms == BitAt(data, i)
    ensures newState == Run(state, cs)
  {
    newState := state;
    for i := 0 to n
      invariant newState == Run(state, cs[..i])
    {
      var bit := Bit(data[i / 8], i % 8);
      assert bit == BitAt(data, i);
      RunSnoc(state, cs, i);
      newState := NextState(newState, bit);
    }
    assert cs[..n] == cs;
  }

  class Port {
    const globals: Globals
    const adapter: Adapter

    ghost function Repr(): set<object> {
      match adapter
      case UseMpsse(m) => {globals, m, m.buffer, m.buffer.data, m.buffer.ftdi, m.ftdi}
      case UseBlaster(b) => {globals, b, b.recvBuffer, b.ftdi}
    }

    ghost function Target(): Target {
      match adapter
      case UseMpsse(m) => m.ftdi.device.target
      case UseBlaster(b) => b.ftdi.device.target
    }

    /** Some transfer has been given up. */
    ghost predicate Broken()
      reads Repr()
    {
      match adapter
      case UseMpsse(m) => m.ftdi.broken
      case UseBlaster(b) => b.ftdi.broken
    }

    /** Some read has waited for a byte that the adapter never sends. */
    ghost predicate Starved()
      reads Repr()
    {
      match adapter
      case UseMpsse(m) => m.ftdi.starved
      case UseBlaster(b) => b.ftdi.starved
    }

    /** The link to the adapter never fails. */
    ghost predicate Reliable() {
      match adapter
      case UseMpsse(m) => m.ftdi.reliable
      case UseBlaster(b) => b.ftdi.reliable
    }

    /** How the transfers over the link have ended. */
    ghost function Transfers(): seq<Transfer>
      reads Repr()
    {
      match adapter
      case UseMpsse(m) => m.ftdi.transfers
      case UseBlaster(b) => b.ftdi.transfers
    }

    /** The bytes that the adapter has received, and those that it has received or that wait for it. */
    ghost function Delivered(): seq<byte>
      reads Repr()
    {
      match adapter
      case UseMpsse(m) => m.ftdi.written
      case UseBlaster(b) => b.ftdi.written
    }

    ghost function Log(): seq<byte>
      reads Repr()
    {
      match adapter
      case UseMpsse(m) => if m.buffer.Bounded() then m.buffer.Log() else []
      case UseBlaster(b) => b.ftdi.written
    }

    /** Every clock the adapter has made, or will make once it has received what is in its write buffer. */
    ghost function Trace(): seq<Clock>
      reads Repr()
    {
      match adapter
      case UseMpsse(m) => if m.buffer.Bounded() then m.Chip().trace else []
      case UseBlaster(b) => b.Chip().trace
    }

    ghost function Pending(): seq<Job>
      reads Repr()
    {
      match adapter
      case UseMpsse(m) => m.pending
      case UseBlaster(b) => b.pending
    }

    /** The driver is in order, wherever the TAP is. */
    ghost predicate Linked()
      reads Repr()
    {
      match adapter
      case UseMpsse(m) => m.Valid() && m.globals == globals
      case UseBlaster(b) => b.Valid() && b.globals == globals
    }

    /** The tracked state is the fold of every TMS bit clocked. */
    ghost predicate Valid()
      reads Repr()
    {
      Linked() && (!Broken() ==> globals.state == Run(TestLogicReset, Trace()))
    }

    lemma StateIsFold()
      requires Valid() && !Broken()
      ensures globals.state == Run(TestLogicReset, Trace())
    {
    }

    /** Every read is for bytes that the adapter has been told to send, unless a transfer has been given up before; and
        none is given up unless one has failed or 100 in a row have been partial, and none on a reliable link. */
    lemma NeverStarved()
      requires Linked()
      ensures Starved() ==> Broken()
      ensures Broken() ==> Blamed(Transfers())
      ensures Reliable() ==> !Broken()
    {
    }

    /** What bulk scans and free clocks rely on: TMS was left low. */
    lemma PinIsLow()
      requires Valid() && !Broken() && (IsShift(globals.state) || globals.state == RunTestIdle)
      ensures Trace() != [] && !TmsPin(Trace())
    {
      PinLow(TestLogicReset, Trace());
    }

    constructor (adapter: Adapter, globals: Globals)
      requires match adapter
               case UseMpsse(m) => m.Valid() && m.globals == globals && m.pending == [] && m.Chip().trace == []
               case UseBlaster(b) => b.Valid() && b.globals == globals && b.pending == [] && b.Chip().trace == []
      requires globals.state == TestLogicReset
      ensures this.adapter == adapter && this.globals == globals
      ensures Valid() && Trace() == [] && Pending() == []
    {
      this.adapter := adapter;
      this.globals := globals;
    }

    /** How each adapter clocks a TMS sequence; they differ only in TDI. */
    ghost function TmsClocks(data: seq<byte>, n: nat): (cs: seq<Clock>)
      requires n <= 8 * |data|
      ensures |cs| == n && forall i | 0 <= i < n :: cs[i].tms == BitAt(data, i)
    {
      match adapter
      case UseMpsse(_) => Mpsse.TmsClocks(data, n)
      case UseBlaster(_) => UsbBlaster.TmsClocks(data, n)
    }

    /** How each adapter clocks a scan that begins with TMS at `pin`; they differ only in the left-over bits. */
    ghost function ScanMade(pin: bool, data: seq<byte>, n: nat, flipTms: bool): (cs: seq<Clock>)
      requires n <= 8 * |data| && (flipTms ==> n > 0)
      ensures |cs| == n
    {
      match adapter
      case UseMpsse(_) => ScanClocks(pin, data, n, flipTms)
      case UseBlaster(_) => UsbBlaster.PartClocks(pin, data, n, flipTms)
    }

    lemma ScanMadeLow(data: seq<byte>, n: nat, flipTms: bool)
      requires n <= 8 * |data| && (flipTms ==> n > 0)
      ensures ScanMade(false, data, n, flipTms) == ScanClocks(false, data, n, flipTms)
    {
      UsbBlaster.SameScan(false, data, n, flipTms);
    }

    /** The largest scan the adapter can take at once. */
    ghost predicate Fits(n: nat, flipTms: bool, doRead: bool)
      requires flipTms ==> n > 0
    {
      match adapter
      case UseMpsse(_) => 3 + Bulk(n, flipTms) / 8 < MpsseBuffer.BUFFER_LENGTH
      case UseBlaster(_) => doRead ==> BlasterChip.RawLength(n, flipTms) <= UsbBlaster.RECV_BUFFER_SIZE
    }

    method TmsSeq(data: seq<byte>, n: nat) returns (ok: bool)
      requires Linked() && n <= 8 * |data| && (adapter.UseBlaster? ==> n > 0)
      modifies Repr()
      ensures Linked() && Broken() == (old(Broken()) || !ok)
      ensures Pending() == old(Pending())
      ensures globals.bitsSend == old(globals.bitsSend) + n
      ensures globals.state == Run(old(globals.state), TmsClocks(data, n))
      ensures !Broken() ==> Trace() == old(Trace()) + TmsClocks(data, n)
      ensures old(Valid()) ==> Valid()
      ensures ok && adapter.UseMpsse? ==> |Log()| == |old(Log())| + 3 * ((n + 7) / 8)
    {
      hide MpsseChip.Exec, MpsseChip.Whole, MpsseChip.CarriesAll, BlasterChip.Exec, BlasterChip.Whole, BlasterChip.RawCarries;
      globals.bitsSend := globals.bitsSend + n;
      ghost var cs := TmsClocks(data, n);
      var newState := Follow(globals.state, data, n, cs);
      RunAppend(TestLogicReset, Trace(), cs);
      globals.state := newState;
      match adapter
      case UseMpsse(m) => ok := m.TmsSeq(data, n);
      case UseBlaster(b) => ok := b.TmsSeq(data, n);
    }

    /** A scan, wherever the TAP is. In a Shift state it is made with TMS low and keeps the tracked state right. */
    method ScanChainSend(data: seq<byte>, n: nat, flipTms: bool, doRead: bool) returns (outcome: Outcome)
      requires Linked() && n <= 8 * |data| && (flipTms ==> n > 0) && Fits(n, flipTms, doRead)
      requires !Broken() && adapter.UseBlaster? ==> Pending() == []
      modifies Repr()
      ensures Linked() && Broken() == (old(Broken()) || outcome.Failed?)
      ensures outcome.Died? ==> old(Broken()) && adapter.UseBlaster?
      ensures globals.bitsSend == old(globals.bitsSend) + n
      ensures outcome.Done? ==>
                globals.state == if flipTms then NextState(old(globals.state), true) else old(globals.state)
      ensures !Broken() ==>
                var cs := ScanMade(TmsPin(old(Trace())), data, n, flipTms);
                && Trace() == old(Trace()) + cs
                && Pending() == old(Pending()) +
                   if doRead then [Job(flipTms, Samples(Target(), old(Trace()), cs))] else []
      ensures old(Valid()) && (old(Broken()) || IsShift(old(globals.state))) ==>
                && Valid()
                && (!Broken() ==>
                      && ScanMade(TmsPin(old(Trace())), data, n, flipTms) == ScanClocks(false, data, n, flipTms)
                      && globals.state == Run(old(globals.state), ScanClocks(false, data, n, flipTms)))
    {
      hide Linked, Trace, Pending, Broken, ScanMade, ScanClocks, Samples, Run, Fits;
      Count(n);
      if old(Valid()) && IsShift(globals.state) && !Broken() {
        InShift(data, n, flipTms);
      }
      outcome := DriverSend(data, n, flipTms, doRead);
    }

    method Count(n: nat)
      modifies globals`bitsSend
      ensures globals.bitsSend == old(globals.bitsSend) + n
      ensures Linked() == old(Linked()) && Broken() == old(Broken())
      ensures Trace() == old(Trace()) && Pending() == old(Pending())
      ensures Log() == old(Log()) && Delivered() == old(Delivered())
    {
      hide MpsseChip.Exec, MpsseChip.Whole, MpsseChip.CarriesAll, BlasterChip.Exec, BlasterChip.Whole, BlasterChip.RawCarries;
      globals.bitsSend := globals.bitsSend + n;
    }

    /** The driver's own `jtag_scan_chain_send`. */
    method DriverSend(data: seq<byte>, n: nat, flipTms: bool, doRead: bool) returns (outcome: Outcome)
      requires Linked() && n <= 8 * |data| && (flipTms ==> n > 0) && Fits(n, flipTms, doRead)
      requires !Broken() && adapter.UseBlaster? ==> Pending() == []
      modifies Repr()
      ensures Linked() && Broken() == (old(Broken()) || outcome.Failed?)
      ensures outcome.Died? ==> old(Broken()) && adapter.UseBlaster?
      ensures globals.bitsSend == old(globals.bitsSend)
      ensures outcome.Done? ==>
                globals.state == if flipTms then NextState(old(globals.state), true) else old(globals.state)
      ensures !Broken() ==>
                var cs := ScanMade(TmsPin(old(Trace())), data, n, flipTms);
                && Trace() == old(Trace()) + cs
                && Pending() == old(Pending()) +
                   if doRead then [Job(flipTms, Samples(Target(), old(Trace()), cs))] else []
    {
      hide MpsseChip.Exec, MpsseChip.Whole, MpsseChip.CarriesAll, BlasterChip.Exec, BlasterChip.Whole, BlasterChip.RawCarries;
      hide UsbBlaster.PartClocks, ScanClocks, Samples;
      match adapter
      case UseMpsse(m) =>
        var ok := m.ScanChainSend(data, n, flipTms, doRead);
        outcome := if ok then Done else Failed;
      case UseBlaster(b) => outcome := b.ScanChainSend(data, n, flipTms, doRead);
    }

    lemma InShift(data: seq<byte>, n: nat, flipTms: bool)
      requires Valid() && !Broken() && IsShift(globals.state) && n <= 8 * |data| && (flipTms ==> n > 0)
      ensures var cs := ScanClocks(false, data, n, flipTms);
              && ScanMade(TmsPin(Trace()), data, n, flipTms) == cs
              && Run(globals.state, cs) == (if flipTms then NextState(globals.state, true) else globals.state)
              && Run(TestLogicReset, Trace() + cs) == Run(globals.state, cs)
    {
      hide Linked, Broken, Trace, ScanMade;
      ghost var cs := ScanClocks(false, data, n, flipTms);
      PinIsLow();
      ScanMadeLow(data, n, flipTms);
      ShiftRun(globals.state, cs, flipTms);
      RunAppend(TestLogicReset, Trace(), cs);
    }

    method ScanChainRecv(recv: array<byte>, n: nat, flipTms: bool) returns (outcome: Outcome)
      requires Linked() && n <= 8 * recv.Length && (flipTms ==> n > 0) && Fits(n, flipTms, true)
      requires recv !in Repr()
      requires !Broken() ==> Pending() != [] && Pending()[0].flipTms == flipTms && |Pending()[0].samples| == n
      modifies Repr(), recv
      ensures Linked() && Broken() == (old(Broken()) || outcome.Failed?)
      ensures outcome.Died? ==> old(Broken()) && adapter.UseBlaster?
      ensures globals.state == old(globals.state) && globals.bitsSend == old(globals.bitsSend)
      ensures !Broken() ==>
                && Trace() == old(Trace())
                && Received(recv[..], old(recv[..]), old(Pending())[0])
                && Pending() == old(Pending())[1..]
      ensures old(Valid()) ==> Valid()
    {
      hide MpsseChip.Exec, MpsseChip.Whole, MpsseChip.CarriesAll, BlasterChip.Exec, BlasterChip.Whole, BlasterChip.RawCarries;
      match adapter
      case UseMpsse(m) =>
        var ok := m.ScanChainRecv(recv, n, flipTms);
        outcome := if ok then Done else Failed;
      case UseBlaster(b) => outcome := b.ScanChainRecv(recv, n, flipTms);
    }

    /** Sends a scan and reads it back at once. */
    method ScanChain(data: seq<byte>, recv: array<byte>, n: nat, flipTms: bool, doRead: bool) returns (outcome: Outcome)
      requires Linked() && n <= 8 * |data| && (flipTms ==> n > 0) && Fits(n, flipTms, doRead)
      requires n <= 8 * recv.Length && recv !in Repr()
      requires !Broken() ==> Pending() == []
      modifies Repr(), recv
      ensures Linked() && Broken() == (old(Broken()) || outcome.Failed?)
      ensures outcome.Died? ==> old(Broken()) && adapter.UseBlaster?
      ensures globals.bitsSend == old(globals.bitsSend) + n
      ensures outcome.Done? ==>
                globals.state == if flipTms then NextState(old(globals.state), true) else old(globals.state)
      ensures !Broken() ==>
                var cs := ScanMade(TmsPin(old(Trace())), data, n, flipTms);
                && Trace() == old(Trace()) + cs
                && Pending() == []
                && if doRead then Received(recv[..], old(recv[..]), Job(flipTms, Samples(Target(), old(Trace()), cs)))
                   else recv[..] == old(recv[..])
      ensures old(Valid()) && (old(Broken()) || IsShift(old(globals.state))) ==>
                && Valid()
                && (!Broken() ==>
                      && ScanMade(TmsPin(old(Trace())), data, n, flipTms) == ScanClocks(false, data, n, flipTms)
                      && globals.state == Run(old(globals.state), ScanClocks(false, data, n, flipTms)))
    {
      hide Linked, Trace, Pending, Broken, ScanMade, ScanClocks, Samples, Run, Fits, Received, Starved;
      outcome := ScanChainSend(data, n, flipTms, doRead);
      if outcome.Done? && doRead {
        outcome := ScanChainRecv(recv, n, flipTms);
      }
    }

    /** Free-running clocks. Only the MPSSE driver makes any; it holds the pins. In Run-Test/Idle they keep the tracked state
        right. */
    method ClockTck(times: nat) returns (ok: bool)
      requires Linked()
      modifies Repr()
      ensures Linked() && Broken() == (old(Broken()) || !ok)
      ensures Pending() == old(Pending()) && globals.state == old(globals.state)
      ensures globals.bitsSend == old(globals.bitsSend) + times
      ensures !Broken() ==>
                && |Trace()| == |old(Trace())| + (if adapter.UseMpsse? then Mpsse.FreeClocks(times) else 0)
                && old(Trace()) <= Trace()
                && forall i | |old(Trace())| <= i < |Trace()| :: Trace()[i].tms == TmsPin(old(Trace()))
      ensures old(Valid()) && (old(Broken()) || old(globals.state) == RunTestIdle) ==> Valid()
      ensures old(Valid()) && !Broken() && globals.state == RunTestIdle ==> !TmsPin(old(Trace()))
      ensures ok && adapter.UseMpsse? ==> Delivered() == Log() && |Log()| <= |old(Log())| + 5
    {
      hide Linked, Trace, Pending, Broken, Delivered, Log, HeldClocks, Run;
      Count(times);
      HeldMeans(Trace(), times);
      if old(Valid()) && !Broken() && globals.state == RunTestIdle {
        IdleHeld(times);
      }
      ok := DriverClock(times);
    }

    /** What free clocks are: the MPSSE engine holds its pins. */
    ghost function HeldClocks(trace: seq<Clock>, times: nat): seq<Clock> {
      if adapter.UseMpsse? then Repeat(MpsseChip.Pins(trace), Mpsse.FreeClocks(times)) else []
    }

    lemma HeldMeans(trace: seq<Clock>, times: nat)
      ensures |HeldClocks(trace, times)| == if adapter.UseMpsse? then Mpsse.FreeClocks(times) else 0
      ensures forall i | 0 <= i < |HeldClocks(trace, times)| :: HeldClocks(trace, times)[i].tms == TmsPin(trace)
    {
    }

    lemma IdleHeld(times: nat)
      requires Valid() && !Broken() && globals.state == RunTestIdle
      ensures !TmsPin(Trace())
      ensures Run(TestLogicReset, Trace() + HeldClocks(Trace(), times)) == RunTestIdle
    {
      hide Linked, Trace, Broken, HeldClocks;
      PinIsLow();
      HeldMeans(Trace(), times);
      RunAppend(TestLogicReset, Trace(), HeldClocks(Trace(), times));
      IdleRun(HeldClocks(Trace(), times));
    }

    /** The driver's own `jtag_clock_tck`. */
    method DriverClock(times: nat) returns (ok: bool)
      requires Linked()
      modifies Repr()
      ensures Linked() && Broken() == (old(Broken()) || !ok)
      ensures Pending() == old(Pending())
      ensures globals.state == old(globals.state) && globals.bitsSend == old(globals.bitsSend)
      ensures !Broken() ==> Trace() == old(Trace()) + HeldClocks(old(Trace()), times)
      ensures ok && adapter.UseMpsse? ==> Delivered() == Log() && |Log()| <= |old(Log())| + 5
    {
      hide MpsseChip.Exec, MpsseChip.Whole, MpsseChip.CarriesAll, BlasterChip.Exec, BlasterChip.Whole, BlasterChip.RawCarries;
      match adapter
      case UseMpsse(m) => ok := m.ClockTck(times);
      case UseBlaster(b) =>
        assert Trace() + [] == Trace();
        ok := true;
    }

    /** Changes the clock frequency and nothing else. Only the MPSSE driver divides by it. */
    method SetTckFreq(freqMhz: nat) returns (outcome: Outcome)
      requires Linked()
      modifies Repr()
      ensures Linked() && Broken() == (old(Broken()) || outcome.Failed?)
      ensures Pending() == old(Pending())
      ensures globals.state == old(globals.state) && globals.bitsSend == old(globals.bitsSend)
      ensures adapter.UseMpsse? ==> (outcome.Died? ==> freqMhz == 0) && (outcome.Done? ==> freqMhz > 0)
      ensures adapter.UseMpsse? && outcome.Done? ==>
                Delivered() == Log() == old(Log()) + [0x86, Divisor(freqMhz), 0x00, 0x8A]
      ensures adapter.UseBlaster? ==> outcome.Done? && Delivered() == old(Delivered())
      ensures !Broken() ==> Trace() == old(Trace())
      ensures old(Valid()) ==> Valid()
    {
      hide MpsseChip.Exec, MpsseChip.Whole, MpsseChip.CarriesAll, BlasterChip.Exec, BlasterChip.Whole, BlasterChip.RawCarries;
      match adapter
      case UseMpsse(m) => outcome := m.SetTckFreq(freqMhz);
      case UseBlaster(b) => outcome := Done;
    }

    /** Five ones, from any state: whatever the tracked state was before, it is right afterwards. */
    method GotoTlr() returns (ok: bool)
      requires Linked()
      modifies Repr()
      ensures Linked() && Broken() == (old(Broken()) || !ok)
      ensures Pending() == old(Pending())
      ensures globals.bitsSend == old(globals.bitsSend) + 5
      ensures globals.state == TestLogicReset
      ensures !Broken() ==> Trace() == old(Trace()) + TmsClocks([0x1F], 5)
      ensures Valid()
    {
      hide Linked, Trace, Pending, Broken, TmsClocks, Run;
      ghost var cs := TmsClocks([0x1F], 5);
      assert forall i | 0 <= i < 5 :: cs[i].tms by { FiveOnes(); }
      FiveOnesReset(globals.state, cs);
      FiveOnesReset(Run(TestLogicReset, Trace()), cs);
      RunAppend(TestLogicReset, Trace(), cs);
      ok := TmsSeq([0x1F], 5);
    }

    method TmsSeqTo(to: State) returns (ok: bool)
      requires Linked() && GetTmsSeq(globals.state, to).Steps?
      modifies Repr()
      ensures Linked() && Broken() == (old(Broken()) || !ok)
      ensures Pending() == old(Pending())
      ensures globals.state == to
      ensures globals.bitsSend == old(globals.bitsSend) + GetTmsSeq(old(globals.state), to).numBits
      ensures !Broken() ==>
                var o := GetTmsSeq(old(globals.state), to);
                Trace() == old(Trace()) + TmsClocks([o.tms], o.numBits)
      ensures old(Valid()) ==> Valid()
    {
      hide Port.Linked, Port.Trace, Port.Pending, Port.Broken, GetTmsSeq, Run, BitAt;
      var o := GetTmsSeq(globals.state, to);
      ghost var from := globals.state;
      assert Trace() + TmsClocks([o.tms], 0) == Trace();
      NoBitsNoMove(from, to);
      if o.numBits > 0 {
        ok := TmsSeq([o.tms], o.numBits);
        OneByte(o.tms);
        GetTmsSeqLeads(from, to, TmsClocks([o.tms], o.numBits));
      } else {
        ok := true;
      }
    }
  }

  lemma NoBitsNoMove(from: State, to: State)
    requires GetTmsSeq(from, to).Steps?
    ensures GetTmsSeq(from, to).numBits == 0 ==> from == to
  {
  }

  lemma {:induction false} OneByte(b: byte)
    ensures forall i: nat | i < 8 :: BitAt([b], i) == Bit(b, i)
  {
  }

  lemma FiveOnes()
    ensures forall i | 0 <= i < 5 :: BitAt([0x1F], i)
  {
    assert Bit(31, 4) == Bit(15, 3) == Bit(7, 2) == Bit(3, 1) == Bit(1, 0);
  }

  lemma {:induction false} SmallBits(b: byte)
    ensures Bit(b, 1) == Bit(b / 2, 0) && Bit(b, 2) == Bit(b / 2 / 2, 0)
    ensures Bit(b, 3) == Bit(b / 2 / 2 / 2, 0) && Bit(b, 4) == Bit(b / 2 / 2 / 2 / 2, 0)
  {
    assert Bit(b, 2) == Bit(b / 2, 1) && Bit(b, 3) == Bit(b / 2, 2) && Bit(b, 4) == Bit(b / 2, 3);
    assert Bit(b / 2, 2) == Bit(b / 2 / 2, 1) && Bit(b / 2, 3) == Bit(b / 2 / 2, 2) == Bit(b / 2 / 2 / 2, 1);
  }

  /** The states passed on the way. */
  ghost function Path(from: State, to: State): seq<State> {
    if from == to then [from]
    else
      match (from, to)
      case (TestLogicReset, ShiftIR) => [TestLogicReset, RunTestIdle, SelectDRScan, SelectIRScan, CaptureIR, ShiftIR]
      case (TestLogicReset, ShiftDR) => [TestLogicReset, RunTestIdle, SelectDRScan, CaptureDR, ShiftDR]
      case (RunTestIdle, ShiftIR) => [RunTestIdle, SelectDRScan, SelectIRScan, CaptureIR, ShiftIR]
      case (RunTestIdle, ShiftDR) => [RunTestIdle, SelectDRScan, CaptureDR, ShiftDR]
      case (Exit1IR, ShiftDR) => [Exit1IR, UpdateIR, SelectDRScan, CaptureDR, ShiftDR]
      case (Exit1IR, RunTestIdle) => [Exit1IR, UpdateIR, RunTestIdle]
      case (Exit1DR, RunTestIdle) => [Exit1DR, UpdateDR, RunTestIdle]
      case _ => [from]
  }

  lemma PathStep(from: State, to: State, i: nat)
    requires GetTmsSeq(from, to).Steps? && i < GetTmsSeq(from, to).numBits
    ensures |Path(from, to)| == GetTmsSeq(from, to).numBits + 1
    ensures Path(from, to)[i + 1] == NextState(Path(from, to)[i], Bit(GetTmsSeq(from, to).tms, i))
    ensures !IsShift(Path(from, to)[i])
  {
    SmallBits(GetTmsSeq(from, to).tms);
    assert i == 0 || i == 1 || i == 2 || i == 3 || i == 4;
  }

  lemma {:induction false} PathRuns(from: State, to: State, cs: seq<Clock>, i: nat)
    requires GetTmsSeq(from, to).Steps? && i <= |cs| == GetTmsSeq(from, to).numBits
    requires forall k | 0 <= k < |cs| :: cs[k].tms == Bit(GetTmsSeq(from, to).tms, k)
    ensures i < |Path(from, to)| && Run(from, cs[..i]) == Path(from, to)[i]
  {
    if i > 0 {
      PathRuns(from, to, cs, i - 1);
      PathStep(from, to, i - 1);
      RunSnoc(from, cs, i - 1);
    }
  }

  /** The table is right: the bits lead to the state asked for, through no Shift state on the way. */
  lemma {:induction false} GetTmsSeqLeads(from: State, to: State, cs: seq<Clock>)
    requires GetTmsSeq(from, to).Steps? && |cs| == GetTmsSeq(from, to).numBits
    requires forall i | 0 <= i < |cs| :: cs[i].tms == Bit(GetTmsSeq(from, to).tms, i)
    ensures Run(from, cs) == to
    ensures forall i | 0 <= i < |cs| :: !IsShift(Run(from, cs[..i]))
  {
    forall i | 0 <= i < |cs| ensures !IsShift(Run(from, cs[..i])) {
      PathRuns(from, to, cs, i);
      PathStep(from, to, i);
    }
    assert cs[..|cs|] == cs;
    PathRuns(from, to, cs, |cs|);
  }
}
