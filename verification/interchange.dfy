/** The adapters are interchangeable, and so are reading back late and reading back at once. */
module Interchange {
  import opened Bits
  import opened Tap
  import opened Reference
  import opened Scan
  import opened Jtag
  import Mpsse
  import UsbBlaster

  /** What the servers ask of the JTAG layer: TMS sequences and scans, in any order and wherever the TAP is. */
  datatype Op =
    | Tms(data: seq<byte>, n: nat)
    | Shift(data: seq<byte>, n: nat, flipTms: bool, doRead: bool)
  {
    predicate Valid() {
      && n <= 8 * |data|
      && (Shift? && flipTms ==> n > 0)
    }

    predicate Reads() {
      Shift? && doRead
    }
  }

  ghost function MpsseMade(pin: bool, op: Op): (cs: seq<Clock>)
    requires op.Valid()
    ensures |cs| == op.n
  {
    match op
    case Tms(data, n) => Mpsse.TmsClocks(data, n)
    case Shift(data, n, flipTms, _) => ScanClocks(pin, data, n, flipTms)
  }

  ghost function BlasterMade(pin: bool, op: Op): (cs: seq<Clock>)
    requires op.Valid()
    ensures |cs| == op.n
  {
    match op
    case Tms(data, n) => UsbBlaster.TmsClocks(data, n)
    case Shift(data, n, flipTms, _) => UsbBlaster.PartClocks(pin, data, n, flipTms)
  }

  /** One of the adapters, and the device behind it. */
  datatype Rig = Rig(mpsse: bool, target: Target)
  {
    /** The clocks made for `op`, with TMS at `pin` before. */
    ghost function Made(pin: bool, op: Op): (cs: seq<Clock>)
      requires op.Valid()
      ensures |cs| == op.n
    {
      if mpsse then MpsseMade(pin, op) else BlasterMade(pin, op)
    }
  }

  ghost function RigOf(port: Port): Rig {
    Rig(port.adapter.UseMpsse?, port.Target())
  }

  lemma MadeBy(port: Port, pin: bool, op: Op)
    requires op.Valid()
    ensures RigOf(port).Made(pin, op) ==
            match op
            case Tms(data, n) => port.TmsClocks(data, n)
            case Shift(data, n, flipTms, _) => port.ScanMade(pin, data, n, flipTms)
  {
  }

  /** Everything clocked after the operations. */
  ghost function TraceAfter(r: Rig, trace: seq<Clock>, ops: seq<Op>): seq<Clock>
    requires forall op | op in ops :: op.Valid()
  {
    if ops == [] then trace
    else
      var now := TraceAfter(r, trace, ops[..|ops| - 1]);
      now + r.Made(TmsPin(now), ops[|ops| - 1])
  }

  function StepState(s: State, op: Op): State
    requires op.Valid()
  {
    match op
    case Tms(data, n) => Run(s, UsbBlaster.TmsClocks(data, n))
    case Shift(_, _, flipTms, _) => if flipTms then NextState(s, true) else s
  }

  /** The tracked state after the operations. */
  ghost function StateAfter(s: State, ops: seq<Op>): State
    requires forall op | op in ops :: op.Valid()
  {
    if ops == [] then s
    else
      assert ops[|ops| - 1] in ops;
      StepState(StateAfter(s, ops[..|ops| - 1]), ops[|ops| - 1])
  }

  /** What scan `k` samples. */
  ghost function JobAt(r: Rig, trace: seq<Clock>, ops: seq<Op>, k: nat): Job
    requires k < |ops| && (forall op | op in ops :: op.Valid()) && ops[k].Shift?
  {
    var now := TraceAfter(r, trace, ops[..k]);
    Job(ops[k].flipTms, Samples(r.target, now, r.Made(TmsPin(now), ops[k])))
  }

  lemma JobShape(r: Rig, trace: seq<Clock>, ops: seq<Op>, k: nat)
    requires k < |ops| && (forall op | op in ops :: op.Valid()) && ops[k].Shift?
    ensures JobAt(r, trace, ops, k).flipTms == ops[k].flipTms
    ensures |JobAt(r, trace, ops, k).samples| == ops[k].n
  {
  }

  ghost function JobsAt(r: Rig, trace: seq<Clock>, ops: seq<Op>, k: nat): seq<Job>
    requires k < |ops| && forall op | op in ops :: op.Valid()
  {
    if ops[k].Reads() then [JobAt(r, trace, ops, k)] else []
  }

  /** The scans among `ops[from..end]` that read. */
  ghost function Jobs(r: Rig, trace: seq<Clock>, ops: seq<Op>, from: nat, end: nat): seq<Job>
    requires from <= end <= |ops| && forall op | op in ops :: op.Valid()
    decreases end - from
  {
    if from == end then []
    else JobsAt(r, trace, ops, from) + Jobs(r, trace, ops, from + 1, end)
  }

  lemma {:induction false} JobsSnoc(r: Rig, trace: seq<Clock>, ops: seq<Op>, from: nat, end: nat)
    requires from <= end < |ops| && forall op | op in ops :: op.Valid()
    ensures Jobs(r, trace, ops, from, end + 1) ==
            Jobs(r, trace, ops, from, end) + JobsAt(r, trace, ops, end)
    decreases end - from
  {
    hide JobsAt;
    var first, last := JobsAt(r, trace, ops, from), JobsAt(r, trace, ops, end);
    if from < end {
      JobsSnoc(r, trace, ops, from + 1, end);
      ConcatAssoc(first, Jobs(r, trace, ops, from + 1, end), last);
    } else {
      assert first + [] == first == [] + last;
    }
  }

  lemma {:induction false} OneMore(r: Rig, trace: seq<Clock>, s: State, ops: seq<Op>, k: nat)
    requires k < |ops| && forall op | op in ops :: op.Valid()
    ensures var now := TraceAfter(r, trace, ops[..k]);
            TraceAfter(r, trace, ops[..k + 1]) == now + r.Made(TmsPin(now), ops[k])
    ensures StateAfter(s, ops[..k + 1]) == StepState(StateAfter(s, ops[..k]), ops[k])
  {
    assert ops[..k + 1][..k] == ops[..k];
  }

  function Blank(n: nat): seq<byte> {
    seq<byte>((n + 7) / 8, i => 0)
  }

  /** `port` takes every operation, and there is nothing left to read back. */
  ghost predicate CanRun(port: Port, ops: seq<Op>)
    reads port.Repr()
  {
    && port.Linked()
    && (!port.Broken() ==> port.Pending() == [])
    && Takes(port, ops)
  }

  ghost predicate Takes(port: Port, ops: seq<Op>) {
    forall op | op in ops ::
      && op.Valid()
      && (op.Shift? ==> port.Fits(op.n, op.flipTms, op.doRead))
      && (op.Tms? && port.adapter.UseBlaster? ==> op.n > 0)
  }

  /** `buffers` holds what each of the first `n` operations read, if it did. */
  ghost predicate HoldsAll(r: Rig, trace: seq<Clock>, ops: seq<Op>, buffers: seq<seq<byte>>, n: nat)
    requires forall op | op in ops :: op.Valid()
  {
    && n <= |buffers| && n <= |ops|
    && forall k | 0 <= k < n ::
         if ops[k].Reads() then Received(buffers[k], Blank(ops[k].n), JobAt(r, trace, ops, k)) else buffers[k] == []
  }

  /** The first `k` operations have been issued, and the scans `pending` are still to be read back. */
  ghost predicate IssuedUpTo(port: Port, trace: seq<Clock>, s: State, ops: seq<Op>, k: nat, pending: seq<Job>)
    requires k <= |ops| && forall op | op in ops :: op.Valid()
    reads port.Repr()
  {
    && port.Linked()
    && (!port.Broken() ==>
          && port.Trace() == TraceAfter(RigOf(port), trace, ops[..k])
          && port.globals.state == StateAfter(s, ops[..k])
          && port.Pending() == pending)
  }

  lemma NothingIssued(port: Port, ops: seq<Op>)
    requires CanRun(port, ops)
    ensures IssuedUpTo(port, port.Trace(), port.globals.state, ops, 0, [])
  {
  }

  lemma {:induction false} SameTmsSteps(port: Port, s: State, data: seq<byte>, n: nat)
    requires n <= 8 * |data|
    ensures Run(s, port.TmsClocks(data, n)) == Run(s, UsbBlaster.TmsClocks(data, n))
  {
    SameTmsRun(s, port.TmsClocks(data, n), UsbBlaster.TmsClocks(data, n));
  }

  /** One operation, not read back. */
  method Make(port: Port, op: Op)
    requires port.Linked() && op.Valid() && (op.Shift? ==> port.Fits(op.n, op.flipTms, op.doRead))
    requires port.adapter.UseBlaster? ==> (op.Tms? ==> op.n > 0) && (!port.Broken() ==> port.Pending() == [])
    modifies port.Repr()
    ensures port.Linked() && (old(port.Broken()) ==> port.Broken())
    ensures !port.Broken() ==>
              var cs := RigOf(port).Made(TmsPin(old(port.Trace())), op);
              && port.Trace() == old(port.Trace()) + cs
              && port.globals.state == StepState(old(port.globals.state), op)
              && port.Pending() == old(port.Pending()) +
                 if op.Reads() then [Job(op.flipTms, Samples(port.Target(), old(port.Trace()), cs))] else []
  {
    hide Port.Linked, Port.Trace, Port.Pending, Port.Broken, Port.TmsClocks, Port.ScanMade, Port.Fits, Port.Log;
    hide Port.Delivered, Samples, Run, TmsPin, Rig.Made;
    MadeBy(port, TmsPin(port.Trace()), op);
    assert port.Pending() + [] == port.Pending();
    match op {
      case Tms(data, n) =>
        SameTmsSteps(port, port.globals.state, data, n);
        var ok := port.TmsSeq(data, n);
      case Shift(data, n, flipTms, doRead) =>
        var outcome := port.ScanChainSend(data, n, flipTms, doRead);
    }
  }

  /** Issues operation `k`, without reading it back. */
  method Issue(port: Port, ops: seq<Op>, k: nat, ghost trace: seq<Clock>, ghost s: State, ghost pending: seq<Job>)
    requires k < |ops| && Takes(port, ops) && IssuedUpTo(port, trace, s, ops, k, pending)
    requires port.adapter.UseBlaster? ==> pending == []
    modifies port.Repr()
    ensures old(port.Broken()) ==> port.Broken()
    ensures IssuedUpTo(port, trace, s, ops, k + 1, pending + JobsAt(RigOf(port), trace, ops, k))
  {
    hide Port.Linked, Port.Trace, Port.Pending, Port.Broken, Port.Fits;
    hide Samples, TraceAfter, StateAfter, StepState, TmsPin, Rig.Made;
    assert ops[k] in ops;
    OneMore(RigOf(port), trace, s, ops, k);
    Make(port, ops[k]);
  }

  /** Reads back the oldest scan that is pending into a zeroed buffer. */
  method Fetch(port: Port, n: nat, flipTms: bool) returns (buffer: seq<byte>)
    requires port.Linked() && (flipTms ==> n > 0) && port.Fits(n, flipTms, true)
    requires !port.Broken() ==>
               port.Pending() != [] && port.Pending()[0].flipTms == flipTms && |port.Pending()[0].samples| == n
    modifies port.Repr()
    ensures port.Linked() && (old(port.Broken()) ==> port.Broken())
    ensures port.globals.state == old(port.globals.state)
    ensures !port.Broken() ==>
              && port.Trace() == old(port.Trace())
              && Received(buffer, Blank(n), old(port.Pending())[0])
              && port.Pending() == old(port.Pending())[1..]
  {
    hide Port.Linked, Port.Trace, Port.Pending, Port.Broken, Port.Fits, Received;
    var recv := new byte[(n + 7) / 8](i => 0);
    assert recv[..] == Blank(n);
    var outcome := port.ScanChainRecv(recv, n, flipTms);
    buffer := recv[..];
  }

  /** Reads back scan `k`, the oldest that is pending. */
  method ReadOne(port: Port, ops: seq<Op>, k: nat, m: nat, ghost trace: seq<Clock>, ghost s: State,
                 ghost pending: seq<Job>)
      returns (buffer: seq<byte>)
    requires k < m <= |ops| && Takes(port, ops) && ops[k].Reads()
    requires IssuedUpTo(port, trace, s, ops, m, pending)
    requires pending != [] && pending[0] == JobAt(RigOf(port), trace, ops, k)
    modifies port.Repr()
    ensures old(port.Broken()) ==> port.Broken()
    ensures IssuedUpTo(port, trace, s, ops, m, pending[1..])
    ensures !port.Broken() ==> Received(buffer, Blank(ops[k].n), JobAt(RigOf(port), trace, ops, k))
  {
    hide Port.Linked, Port.Trace, Port.Pending, Port.Broken, Port.Fits, Received, TraceAfter, StateAfter;
    assert ops[k] in ops;
    JobShape(RigOf(port), trace, ops, k);
    hide JobAt;
    buffer := Fetch(port, ops[k].n, ops[k].flipTms);
  }

  /** The schedule of the XVC server: everything is issued before anything is read back. */
  method SendAllThenRead(port: Port, ops: seq<Op>) returns (buffers: seq<seq<byte>>)
    requires CanRun(port, ops) && port.adapter.UseMpsse?
    modifies port.Repr()
    ensures |buffers| == |ops| && (old(port.Broken()) ==> port.Broken())
    ensures IssuedUpTo(port, old(port.Trace()), old(port.globals.state), ops, |ops|, [])
    ensures !port.Broken() ==> HoldsAll(RigOf(port), old(port.Trace()), ops, buffers, |ops|)
  {
    hide Port.Linked, Port.Trace, Port.Pending, Port.Broken, Port.Fits, IssuedUpTo, Received, JobAt;
    ghost var trace, s := port.Trace(), port.globals.state;
    NothingIssued(port, ops);
    for k := 0 to |ops|
      invariant old(port.Broken()) ==> port.Broken()
      invariant IssuedUpTo(port, trace, s, ops, k, Jobs(RigOf(port), trace, ops, 0, k))
    {
      JobsSnoc(RigOf(port), trace, ops, 0, k);
      Issue(port, ops, k, trace, s, Jobs(RigOf(port), trace, ops, 0, k));
    }
    buffers := [];
    for k := 0 to |ops|
      invariant |buffers| == k && (old(port.Broken()) ==> port.Broken())
      invariant IssuedUpTo(port, trace, s, ops, |ops|, Jobs(RigOf(port), trace, ops, k, |ops|))
      invariant !port.Broken() ==> HoldsAll(RigOf(port), trace, ops, buffers, k)
    {
      var buffer := [];
      ghost var pending, rest := Jobs(RigOf(port), trace, ops, k, |ops|), Jobs(RigOf(port), trace, ops, k + 1, |ops|);
      assert pending == if ops[k].Reads() then [JobAt(RigOf(port), trace, ops, k)] + rest else rest;
      if ops[k].Reads() {
        assert pending[1..] == rest;
        buffer := ReadOne(port, ops, k, |ops|, trace, s, pending);
      }
      buffers := buffers + [buffer];
    }
  }

  /** The schedule of the remote bitbang server: every scan is read back at once. */
  method ReadEach(port: Port, ops: seq<Op>) returns (buffers: seq<seq<byte>>)
    requires CanRun(port, ops)
    modifies port.Repr()
    ensures |buffers| == |ops| && (old(port.Broken()) ==> port.Broken())
    ensures IssuedUpTo(port, old(port.Trace()), old(port.globals.state), ops, |ops|, [])
    ensures !port.Broken() ==> HoldsAll(RigOf(port), old(port.Trace()), ops, buffers, |ops|)
  {
    hide Port.Linked, Port.Trace, Port.Pending, Port.Broken, Port.Fits, IssuedUpTo, Received, JobAt;
    ghost var trace, s := port.Trace(), port.globals.state;
    NothingIssued(port, ops);
    buffers := [];
    for k := 0 to |ops|
      invariant |buffers| == k && (old(port.Broken()) ==> port.Broken())
      invariant IssuedUpTo(port, trace, s, ops, k, [])
      invariant !port.Broken() ==> HoldsAll(RigOf(port), trace, ops, buffers, k)
    {
      ghost var pending := JobsAt(RigOf(port), trace, ops, k);
      assert [] + pending == pending;
      Issue(port, ops, k, trace, s, []);
      var buffer := [];
      if ops[k].Reads() {
        assert pending[1..] == [];
        buffer := ReadOne(port, ops, k, k + 1, trace, s, pending);
      }
      buffers := buffers + [buffer];
    }
  }

  /** One schedule or the other. Only the MPSSE driver can read back late. */
  method RunBatch(port: Port, ops: seq<Op>, late: bool) returns (buffers: seq<seq<byte>>)
    requires CanRun(port, ops) && (late ==> port.adapter.UseMpsse?)
    modifies port.Repr()
    ensures |buffers| == |ops| && (old(port.Broken()) ==> port.Broken())
    ensures port.Linked() && (port.Reliable() ==> !port.Broken())
    ensures !port.Broken() ==>
              && port.Trace() == TraceAfter(RigOf(port), old(port.Trace()), ops)
              && port.globals.state == StateAfter(old(port.globals.state), ops)
              && port.Pending() == []
              && HoldsAll(RigOf(port), old(port.Trace()), ops, buffers, |ops|)
  {
    hide Port.Linked, Port.Trace, Port.Pending, Port.Broken, HoldsAll, TraceAfter, StateAfter;
    if late {
      buffers := SendAllThenRead(port, ops);
    } else {
      buffers := ReadEach(port, ops);
    }
    assert ops[..|ops|] == ops;
    port.NeverStarved();
  }

  /** What the adapters do for `op` after `trace` is the same to a device that started in `start`: a TMS sequence that
      sends TDI through a Shift state must send zeroes, for the MPSSE driver sends bit 7 of each byte there, and a scan must
      begin with the pin low or have no left-over bits. */
  ghost predicate Alike(start: State, trace: seq<Clock>, op: Op)
    requires op.Valid()
  {
    match op
    case Tms(data, n) =>
      forall i | 0 <= i < n && IsShift(Run(start, trace + UsbBlaster.TmsClocks(data, n)[..i])) :: !Bit(data[i / 8], 7)
    case Shift(_, n, flipTms, _) => TmsPin(trace) ==> Bulk(n, flipTms) % 8 == 0
  }

  /** Exactly when a device cannot tell the two drivers apart. */
  lemma {:induction false} AlikeExactly(start: State, trace: seq<Clock>, op: Op)
    requires op.Valid()
    ensures Mask(Run(start, trace), MpsseMade(TmsPin(trace), op)) == Mask(Run(start, trace), BlasterMade(TmsPin(trace), op))
            <==> Alike(start, trace, op)
  {
    hide UsbBlaster.PartClocks, ScanClocks, Mask, Bit, BitAt;
    var s, pin := Run(start, trace), TmsPin(trace);
    match op {
      case Tms(data, n) =>
        var a, b := Mpsse.TmsClocks(data, n), UsbBlaster.TmsClocks(data, n);
        MaskDiffersAt(s, a, b);
        forall i | 0 <= i < n ensures Run(start, trace + b[..i]) == Run(s, b[..i]) {
          RunAppend(start, trace, b[..i]);
        }
      case Shift(data, n, flipTms, _) =>
        var a, b := ScanClocks(pin, data, n, flipTms), UsbBlaster.PartClocks(pin, data, n, flipTms);
        UsbBlaster.SameScan(pin, data, n, flipTms);
        if a != b {
          SameTmsDiffers(pin, data, n, flipTms);
          if Mask(s, a) == Mask(s, b) {
            MaskSameTms(s, a, b);
            assert false;
          }
        }
    }
  }

  /** A TMS sequence in a Shift state whose byte has bit 7 set: one driver shifts in a one, the other a zero. */
  lemma {:induction false} DifferentTms(start: State, trace: seq<Clock>)
    requires IsShift(Run(start, trace))
    ensures var op := Tms([0x80], 1);
            Mask(Run(start, trace), MpsseMade(TmsPin(trace), op)) != Mask(Run(start, trace), BlasterMade(TmsPin(trace), op))
  {
    hide Mask;
    var op := Tms([0x80], 1);
    AlikeExactly(start, trace, op);
    assert trace + UsbBlaster.TmsClocks([0x80], 1)[..0] == trace;
    assert Bit(128, 7) == Bit(64, 6) == Bit(32, 5) == Bit(16, 4) == Bit(8, 3) == Bit(4, 2) == Bit(2, 1) == Bit(1, 0);
    assert !Alike(start, trace, op);
  }

  /** Streams with the same TMS look different just at a clock in a Shift state with different TDI. */
  lemma {:induction false} MaskDiffersAt(s: State, a: seq<Clock>, b: seq<Clock>)
    requires SameTms(a, b)
    ensures Mask(s, a) == Mask(s, b)
            <==> forall i | 0 <= i < |b| && IsShift(Run(s, b[..i])) :: a[i].tdi == b[i].tdi
  {
    forall i | 0 <= i < |b|
      ensures Mask(s, a)[i] == (if IsShift(Run(s, b[..i])) then a[i] else Clock(a[i].tms, false))
      ensures Mask(s, b)[i] == (if IsShift(Run(s, b[..i])) then b[i] else Clock(b[i].tms, false))
    {
      MaskAt(s, a, i);
      MaskAt(s, b, i);
      SameTmsRun(s, a[..i], b[..i]);
    }
  }

  lemma {:induction false} MaskAt(s: State, cs: seq<Clock>, i: nat)
    requires i < |cs|
    ensures Mask(s, cs)[i] == if IsShift(Run(s, cs[..i])) then cs[i] else Clock(cs[i].tms, false)
    decreases cs
  {
    if i > 0 {
      MaskAt(NextState(s, cs[0].tms), cs[1..], i - 1);
      assert cs[..i][1..] == cs[1..][..i - 1];
    }
  }

  lemma SameTmsDiffers(pin: bool, data: seq<byte>, n: nat, flipTms: bool)
    requires n <= 8 * |data| && (flipTms ==> n > 0)
    requires ScanClocks(pin, data, n, flipTms) != UsbBlaster.PartClocks(pin, data, n, flipTms)
    ensures !SameTms(ScanClocks(pin, data, n, flipTms), UsbBlaster.PartClocks(pin, data, n, flipTms))
  {
    hide BitAt, UsbBlaster.PartClocks;
    UsbBlaster.SameScan(pin, data, n, flipTms);
    var i := Bulk(n, flipTms) / 8 * 8;
    UsbBlaster.PartClockAt(pin, data, n, flipTms, i);
  }

  /** ... after every prefix of the batch, as either adapter has driven it. */
  ghost predicate AllAlike(r: Rig, start: State, trace: seq<Clock>, ops: seq<Op>)
    requires forall op | op in ops :: op.Valid()
  {
    forall k | 0 <= k < |ops| :: Alike(start, TraceAfter(r, trace, ops[..k]), ops[k])
  }

  /** The batch looks the same through both ports: they have the same adapter, or every operation does with either. */
  ghost predicate LooksSame(a: Rig, b: Rig, start: State, trace: seq<Clock>, ops: seq<Op>)
    requires forall op | op in ops :: op.Valid()
  {
    a.mpsse == b.mpsse || AllAlike(a, start, trace, ops)
  }

  /** What the servers do always looks the same: TMS sequences whose clocks are outside the Shift states ... */
  lemma {:induction false} TmsOutside(r: Rig, trace: seq<Clock>, op: Op)
    requires op.Valid() && op.Tms?
    requires var s := Run(TestLogicReset, trace);
             forall i | 0 <= i < op.n :: !IsShift(Run(s, UsbBlaster.TmsClocks(op.data, op.n)[..i]))
    ensures Alike(TestLogicReset, trace, op)
    ensures Run(TestLogicReset, trace + r.Made(TmsPin(trace), op)) ==
            Run(Run(TestLogicReset, trace), UsbBlaster.TmsClocks(op.data, op.n))
  {
    hide Run, BitAt, Bit, ScanClocks;
    var s, cs := Run(TestLogicReset, trace), UsbBlaster.TmsClocks(op.data, op.n);
    forall i | 0 <= i < op.n ensures Run(TestLogicReset, trace + cs[..i]) == Run(s, cs[..i]) {
      RunAppend(TestLogicReset, trace, cs[..i]);
    }
    var made := r.Made(TmsPin(trace), op);
    RunAppend(TestLogicReset, trace, made);
    SameTmsRun(s, made, cs);
  }

  /** ... and scans in a Shift state. */
  lemma {:induction false} ScanInside(r: Rig, trace: seq<Clock>, op: Op)
    requires op.Valid() && op.Shift? && IsShift(Run(TestLogicReset, trace))
    ensures Alike(TestLogicReset, trace, op)
    ensures var s := Run(TestLogicReset, trace);
            Run(TestLogicReset, trace + r.Made(TmsPin(trace), op)) == if op.flipTms then NextState(s, true) else s
  {
    hide BitAt, UsbBlaster.PartClocks;
    PinLow(TestLogicReset, trace);
    var cs := ScanClocks(false, op.data, op.n, op.flipTms);
    UsbBlaster.SameScan(false, op.data, op.n, op.flipTms);
    RunAppend(TestLogicReset, trace, cs);
    ShiftRun(Run(TestLogicReset, trace), cs, op.flipTms);
  }

  /** An entry of the TMS table. */
  lemma {:induction false} TableLeads(r: Rig, trace: seq<Clock>, to: State)
    requires GetTmsSeq(Run(TestLogicReset, trace), to).Steps?
    ensures var o := GetTmsSeq(Run(TestLogicReset, trace), to);
            var op := Tms([o.tms], o.numBits);
            && Alike(TestLogicReset, trace, op)
            && Run(TestLogicReset, trace + r.Made(TmsPin(trace), op)) == to
  {
    hide GetTmsSeq, Run, BitAt, Rig.Made;
    var from := Run(TestLogicReset, trace);
    var o := GetTmsSeq(from, to);
    OneByte(o.tms);
    GetTmsSeqLeads(from, to, UsbBlaster.TmsClocks([o.tms], o.numBits));
    TmsOutside(r, trace, Tms([o.tms], o.numBits));
  }

  /** A table entry or a scan in a Shift state, as operation `k` of a batch. */
  lemma {:induction false} StepLeads(r: Rig, ops: seq<Op>, k: nat, from: State, to: State)
    requires k < |ops| && forall op | op in ops :: op.Valid()
    requires Run(TestLogicReset, TraceAfter(r, [], ops[..k])) == from
    requires match ops[k]
             case Tms(data, n) => |data| == 1 && GetTmsSeq(from, to) == Steps(data[0], n)
             case Shift(_, _, flipTms, _) => IsShift(from) && to == if flipTms then NextState(from, true) else from
    ensures Alike(TestLogicReset, TraceAfter(r, [], ops[..k]), ops[k])
    ensures Run(TestLogicReset, TraceAfter(r, [], ops[..k + 1])) == to
  {
    hide Alike, Rig.Made, TraceAfter, Run, GetTmsSeq;
    assert ops[k] in ops;
    var trace := TraceAfter(r, [], ops[..k]);
    OneMore(r, [], TestLogicReset, ops, k);
    match ops[k]
    case Tms(data, n) =>
      assert data == [data[0]];
      TableLeads(r, trace, to);
    case Shift(_, _, _, _) => ScanInside(r, trace, ops[k]);
  }

  /** From power-up, an IR scan and then a DR scan, each left by its last bit, look the same through every rig. */
  lemma {:induction false} IrThenDr(r: Rig, ops: seq<Op>)
    requires |ops| == 4 && forall op | op in ops :: op.Valid()
    requires ops[0] == Tms([0x06], 5) && ops[1].Shift? && ops[1].flipTms
    requires ops[2] == Tms([0x03], 4) && ops[3].Shift? && ops[3].flipTms
    ensures AllAlike(r, TestLogicReset, [], ops)
  {
    hide Alike, Rig.Made;
    assert TraceAfter(r, [], ops[..0]) == [] && Run(TestLogicReset, []) == TestLogicReset;
    hide TraceAfter, Run;
    StepLeads(r, ops, 0, TestLogicReset, ShiftIR);
    StepLeads(r, ops, 1, ShiftIR, Exit1IR);
    StepLeads(r, ops, 2, Exit1IR, ShiftDR);
    StepLeads(r, ops, 3, ShiftDR, Exit1DR);
  }

  /** Two ports whose devices behave alike and have been driven alike. */
  ghost predicate Twins(a: Port, b: Port)
    reads a.Repr(), b.Repr()
  {
    && a.Target() == b.Target()
    && a.globals.state == b.globals.state
    && Mask(a.Target().start, a.Trace()) == Mask(b.Target().start, b.Trace())
  }

  /** One operation keeps two streams alike. */
  lemma {:induction false} StepAlike(a: Rig, b: Rig, start: State, ta: seq<Clock>, tb: seq<Clock>, op: Op)
    requires op.Valid() && Mask(start, ta) == Mask(start, tb)
    requires a.mpsse == b.mpsse || Alike(start, ta, op)
    requires TmsPin(ta) == TmsPin(tb)
    ensures var x, y := a.Made(TmsPin(ta), op), b.Made(TmsPin(tb), op);
            && Mask(Run(start, ta), x) == Mask(Run(start, tb), y)
            && Mask(start, ta + x) == Mask(start, tb + y)
  {
    hide Mask, MpsseMade, BlasterMade, Alike, Run;
    var pin := TmsPin(ta);
    if a.mpsse != b.mpsse {
      AlikeExactly(start, ta, op);
    }
    MaskSameTms(start, ta, tb);
    MaskAppend(start, ta, a.Made(pin, op));
    MaskAppend(start, tb, b.Made(pin, op));
  }

  /** The level that the pin is left at is seen by the device, unless there has been no clock at all. */
  lemma {:induction false} SamePin(start: State, ta: seq<Clock>, tb: seq<Clock>)
    requires Mask(start, ta) == Mask(start, tb)
    ensures TmsPin(ta) == TmsPin(tb)
  {
    MaskSameTms(start, ta, tb);
  }

  lemma {:induction false} StillAlike(a: Rig, b: Rig, start: State, ta: seq<Clock>, tb: seq<Clock>, ops: seq<Op>, k: nat)
    requires k <= |ops| && (forall op | op in ops :: op.Valid()) && LooksSame(a, b, start, ta, ops)
    requires Mask(start, ta) == Mask(start, tb)
    ensures Mask(start, TraceAfter(a, ta, ops[..k])) == Mask(start, TraceAfter(b, tb, ops[..k]))
    decreases k
  {
    hide Mask, Rig.Made, Alike, Run, TmsPin;
    if k == 0 {
      assert ops[..0] == [];
    } else {
      StillAlike(a, b, start, ta, tb, ops, k - 1);
      OneMore(a, ta, start, ops, k - 1);
      OneMore(b, tb, start, ops, k - 1);
      var x, y := TraceAfter(a, ta, ops[..k - 1]), TraceAfter(b, tb, ops[..k - 1]);
      SamePin(start, x, y);
      assert ops[k - 1] in ops;
      StepAlike(a, b, start, x, y, ops[k - 1]);
    }
  }

  /** Scan `k` samples the same through both adapters. */
  lemma {:induction false} SameJob(a: Rig, b: Rig, ta: seq<Clock>, tb: seq<Clock>, ops: seq<Op>, k: nat)
    requires k < |ops| && (forall op | op in ops :: op.Valid()) && ops[k].Shift? && a.target == b.target
    requires LooksSame(a, b, a.target.start, ta, ops) && Mask(a.target.start, ta) == Mask(a.target.start, tb)
    ensures JobAt(a, ta, ops, k) == JobAt(b, tb, ops, k)
  {
    hide Mask, Rig.Made, Alike, Run, TmsPin, TraceAfter, Samples;
    var t := a.target;
    var x, y := TraceAfter(a, ta, ops[..k]), TraceAfter(b, tb, ops[..k]);
    StillAlike(a, b, t.start, ta, tb, ops, k);
    SamePin(t.start, x, y);
    assert ops[k] in ops;
    StepAlike(a, b, t.start, x, y, ops[k]);
    SamplesLike(t, x, y, a.Made(TmsPin(x), ops[k]), b.Made(TmsPin(y), ops[k]));
  }

  /** Samples depend on what the device sees, and on nothing else. */
  lemma {:induction false} SamplesLike(t: Target, ta: seq<Clock>, tb: seq<Clock>, x: seq<Clock>, y: seq<Clock>)
    requires Mask(t.start, ta + x) == Mask(t.start, tb + y) && Mask(t.start, ta) == Mask(t.start, tb)
    ensures Samples(t, ta, x) == Samples(t, tb, y)
  {
    MaskSameTms(t.start, ta, tb);
    MaskSameTms(t.start, ta + x, tb + y);
    forall i | 0 <= i < |x| ensures Sample(t, ta + x[..i]) == Sample(t, tb + y[..i]) {
      assert ta + x[..i] == (ta + x)[..|ta| + i] && tb + y[..i] == (tb + y)[..|ta| + i];
      MaskPrefix(t.start, ta + x, |ta| + i);
      MaskPrefix(t.start, tb + y, |ta| + i);
    }
  }

  lemma {:induction false} MaskPrefix(s: State, cs: seq<Clock>, k: nat)
    requires k <= |cs|
    ensures Mask(s, cs[..k]) == Mask(s, cs)[..k]
  {
    assert cs == cs[..k] + cs[k..];
    MaskAppend(s, cs[..k], cs[k..]);
  }

  lemma {:induction false} SameHeld(a: Rig, b: Rig, ta: seq<Clock>, tb: seq<Clock>, ops: seq<Op>,
                                    x: seq<seq<byte>>, y: seq<seq<byte>>)
    requires (forall op | op in ops :: op.Valid()) && a.target == b.target && |x| == |ops| == |y|
    requires LooksSame(a, b, a.target.start, ta, ops) && Mask(a.target.start, ta) == Mask(a.target.start, tb)
    requires HoldsAll(a, ta, ops, x, |ops|) && HoldsAll(b, tb, ops, y, |ops|)
    ensures x == y
  {
    hide Mask, Received, JobAt, LooksSame;
    forall k | 0 <= k < |ops| ensures x[k] == y[k] {
      if ops[k].Reads() {
        SameJob(a, b, ta, tb, ops, k);
        ReceivedUnique(x[k], y[k], Blank(ops[k].n), JobAt(a, ta, ops, k));
      }
    }
  }

  /** Whatever the adapters of the two ports are, and whether the scans of a batch are read back at the end or one by
      one, the receive buffers are the same, byte for byte, and the devices stay driven alike. */
  method Compare(a: Port, lateA: bool, b: Port, lateB: bool, ops: seq<Op>)
      returns (x: seq<seq<byte>>, y: seq<seq<byte>>)
    requires CanRun(a, ops) && CanRun(b, ops) && a.Repr() !! b.Repr()
    requires (lateA ==> a.adapter.UseMpsse?) && (lateB ==> b.adapter.UseMpsse?)
    requires !a.Broken() && !b.Broken() ==>
               Twins(a, b) && LooksSame(RigOf(a), RigOf(b), a.Target().start, a.Trace(), ops)
    modifies a.Repr(), b.Repr()
    ensures a.Linked() && b.Linked()
    ensures !a.Broken() && !b.Broken() ==>
              x == y && Twins(a, b) && HoldsAll(RigOf(a), old(a.Trace()), ops, x, |ops|)
    ensures a.Reliable() && b.Reliable() ==> !a.Broken() && !b.Broken()
  {
    hide Port.Linked, Port.Trace, Port.Pending, Port.Broken, HoldsAll, Mask, LooksSame, TraceAfter, StateAfter;
    ghost var ta, tb := a.Trace(), b.Trace();
    x := RunBatch(a, ops, lateA);
    y := RunBatch(b, ops, lateB);
    if !a.Broken() && !b.Broken() {
      SameHeld(RigOf(a), RigOf(b), ta, tb, ops, x, y);
      StillAlike(RigOf(a), RigOf(b), a.Target().start, ta, tb, ops, |ops|);
      assert ops[..|ops|] == ops;
    }
  }
}
