/** The MPSSE driver: TMS sequences, scans and free clocks as buffered commands; responses read back later. */
module Mpsse {
  import opened Bits
  import opened Tap
  import opened Reference
  import opened Scan
  import opened Ftdi
  import opened MpsseBuffer
  import opened MpsseChip
  import opened Globals
  import opened Tck

  /** The clocks of a TMS sequence. TDI is whatever bit 7 of the byte happens to be. */
  function TmsClocks(data: seq<byte>, n: nat): (cs: seq<Clock>)
    requires n <= 8 * |data|
    ensures |cs| == n
  {
    seq(n, i requires 0 <= i < n => Clock(BitAt(data, i), Bit(data[i / 8], 7)))
  }

  lemma TmsStep(t: Target, c: Chip, trace: seq<Clock>, data: seq<byte>, n: nat, i: nat)
    requires 8 * i < n <= 8 * |data|
    requires c.trace == trace + TmsClocks(data, 8 * i)
    ensures var len := if n - 8 * i < 8 then n - 8 * i else 8;
            Step(t, c, TmsBits(false, len, data[i])) == Chip(trace + TmsClocks(data, 8 * i + len), c.resp)
  {
    var len := if n - 8 * i < 8 then n - 8 * i else 8;
    var cs := Clocks(TmsBits(false, len, data[i]), Pins(c.trace));
    assert TmsClocks(data, 8 * i + len) == TmsClocks(data, 8 * i) + cs;
    assert c.resp + [] == c.resp;
  }

  lemma {:induction false} SentScan(t: Target, c: Chip, data: seq<byte>, n: nat, flipTms: bool, read: bool,
                                    taken: nat, pending: seq<Job>)
    requires n <= 8 * |data| && (flipTms ==> n > 0)
    requires taken <= |c.resp| && CarriesAll(c.resp[taken..], pending)
    ensures var c' := AfterScan(t, c, data, n, flipTms, read);
            var cs := ScanClocks(TmsPin(c.trace), data, n, flipTms);
            && c'.trace == c.trace + cs
            && taken <= |c'.resp|
            && CarriesAll(c'.resp[taken..],
                          pending + if read then [Job(flipTms, Samples(t, c.trace, cs))] else [])
  {
    hide AfterScan, Carries, CarriesAll, ScanClocks, Samples, TmsPin;
    ScanMeans(t, c, data, n, flipTms, read);
    var c' := AfterScan(t, c, data, n, flipTms, read);
    assert pending + [] == pending;
    if read {
      var cs := ScanClocks(TmsPin(c.trace), data, n, flipTms);
      assert c'.resp[taken..] == c.resp[taken..] + c'.resp[|c.resp|..];
      CarriesAppend(c.resp[taken..], pending, c'.resp[|c.resp|..], Job(flipTms, Samples(t, c.trace, cs)));
    }
  }

  lemma {:induction false} FirstPending(resp: seq<byte>, pending: seq<Job>)
    requires CarriesAll(resp, pending) && pending != []
    ensures var j := pending[0];
            && ValidJob(j)
            && var n := ResponseLength(|j.samples|, j.flipTms);
            && n <= |resp|
            && Carries(resp[..n], j)
            && CarriesAll(resp[n..], pending[1..])
  {
  }

  /** The samples of a partial byte arrive in its top bits. */
  function ShiftedDown(recv: seq<byte>, bulk: nat): (r: seq<byte>)
    requires bulk <= 8 * |recv|
    ensures |r| == |recv|
  {
    if bulk % 8 != 0 then recv[bulk / 8 := ShrByte(recv[bulk / 8], 8 - bulk % 8)] else recv
  }

  /** `recv` once the bulk bits have been read into it, the last byte shifted down to bit 0. */
  function UnpackedBulk(recv: seq<byte>, resp: seq<byte>, n: nat, flipTms: bool): (r: seq<byte>)
    requires n <= 8 * |recv| && (flipTms ==> n > 0) && |resp| == ResponseLength(n, flipTms)
    ensures |r| == |recv|
  {
    var bulk := Bulk(n, flipTms);
    ShiftedDown(resp[..(bulk + 7) / 8] + recv[(bulk + 7) / 8..], bulk)
  }

  /** What `jtag_scan_chain_recv` leaves in `recv` when the device answers `resp`. */
  function Unpacked(recv: seq<byte>, resp: seq<byte>, n: nat, flipTms: bool): seq<byte>
    requires n <= 8 * |recv| && (flipTms ==> n > 0) && |resp| == ResponseLength(n, flipTms)
  {
    var r := UnpackedBulk(recv, resp, n, flipTms);
    if flipTms then r[(n - 1) / 8 := SetBit(r[(n - 1) / 8], (n - 1) % 8, Bit(resp[|resp| - 1], 7))] else r
  }

  lemma BulkBit(recv: seq<byte>, resp: seq<byte>, n: nat, flipTms: bool, i: nat)
    requires n <= 8 * |recv| && (flipTms ==> n > 0) && |resp| == ResponseLength(n, flipTms)
    requires i < 8 * |recv|
    ensures BitAt(UnpackedBulk(recv, resp, n, flipTms), i) ==
            if i < Bulk(n, flipTms) then Located(resp, n, flipTms, i)
            else i >= 8 * ((Bulk(n, flipTms) + 7) / 8) && BitAt(recv, i)
  {
    var bulk := Bulk(n, flipTms);
    var filled := resp[..(bulk + 7) / 8] + recv[(bulk + 7) / 8..];
    if bulk % 8 != 0 && i / 8 == bulk / 8 {
      var b := filled[bulk / 8];
      ShrBits(b, 8 - bulk % 8, i % 8);
      if i >= bulk {
        Pow2Of8();
        HighBitsZero(b, 8, 8 - bulk % 8 + i % 8);
      }
    }
  }

  lemma LastLocated(resp: seq<byte>, n: nat)
    requires n > 0 && |resp| == ResponseLength(n, true)
    ensures Located(resp, n, true, n - 1) == Bit(resp[|resp| - 1], 7)
  {
  }

  lemma UnpackedBit(recv: seq<byte>, resp: seq<byte>, n: nat, flipTms: bool, i: nat)
    requires n <= 8 * |recv| && (flipTms ==> n > 0) && |resp| == ResponseLength(n, flipTms)
    requires i < 8 * ((n + 7) / 8)
    ensures BitAt(Unpacked(recv, resp, n, flipTms), i) ==
            ((i < n && Located(resp, n, flipTms, i)) || (i >= 8 * ((Bulk(n, flipTms) + 7) / 8) && BitAt(recv, i)))
  {
    hide Located, SetBit, BitAt, UnpackedBulk;
    BulkBit(recv, resp, n, flipTms, i);
    if flipTms {
      SetBitAt(UnpackedBulk(recv, resp, n, flipTms), n - 1, Bit(resp[|resp| - 1], 7));
      LastLocated(resp, n);
    }
  }

  lemma UnpackedTail(recv: seq<byte>, resp: seq<byte>, n: nat, flipTms: bool, b: nat)
    requires n <= 8 * |recv| && (flipTms ==> n > 0) && |resp| == ResponseLength(n, flipTms)
    ensures |Unpacked(recv, resp, n, flipTms)| == |recv|
    ensures (n + 7) / 8 <= b < |recv| ==> Unpacked(recv, resp, n, flipTms)[b] == recv[b]
  {
  }

  /** Unpacking puts every carried sample in its place, whatever the unused bits of the response. */
  lemma UnpackedReceived(recv: seq<byte>, resp: seq<byte>, j: Job)
    requires Carries(resp, j) && |j.samples| <= 8 * |recv|
    ensures Received(Unpacked(recv, resp, |j.samples|, j.flipTms), recv, j)
  {
    hide Located, BitAt, Unpacked;
    var n := |j.samples|;
    var now := Unpacked(recv, resp, n, j.flipTms);
    UnpackedTail(recv, resp, n, j.flipTms, 0);
    forall i | 0 <= i < 8 * ((n + 7) / 8)
      ensures BitAt(now, i) == ((i < n && j.samples[i]) || (i >= 8 * ((Bulk(n, j.flipTms) + 7) / 8) && BitAt(recv, i)))
    {
      UnpackedBit(recv, resp, n, j.flipTms, i);
    }
    forall b | (n + 7) / 8 <= b < |now| ensures now[b] == recv[b] {
      UnpackedTail(recv, resp, n, j.flipTms, b);
    }
  }

  lemma SplitPrefix(all: seq<byte>, from: nat, resp: seq<byte>, len: nat)
    requires from <= |all| && resp <= all[from..] && len <= |resp|
    ensures from + |resp| <= |all| && all[from..from + len] == resp[..len]
    ensures len < |resp| ==> all[from + len] == resp[len]
  {
    assert all[from..][..|resp|] == resp;
  }

  lemma IdleStep(t: Target, c: Chip, n: nat)
    ensures Step(t, c, ClockOnly(n)) == Chip(c.trace + Repeat(Pins(c.trace), n), c.resp)
    ensures Pins(c.trace + Repeat(Pins(c.trace), n)) == Pins(c.trace)
  {
    assert Clocks(ClockOnly(n), Pins(c.trace)) == Repeat(Pins(c.trace), n);
    assert c.resp + [] == c.resp;
    if n == 0 {
      assert c.trace + Repeat(Pins(c.trace), n) == c.trace;
    }
  }

  lemma HoldAppend(pins: Clock, a: nat, b: nat)
    ensures Repeat(pins, a) + Repeat(pins, b) == Repeat(pins, a + b)
  {
  }

  /** The clocks that a request for `times` really makes: the count of whole bytes has 16 bits. */
  function FreeClocks(times: nat): nat {
    (if times / 8 > 0 then 8 * ((times / 8 - 1) % 0x1_0000 + 1) else 0) + times % 8
  }

  /** Free clocks are exact just up to the range of the 16-bit count. */
  lemma FreeClocksExact(times: nat)
    ensures FreeClocks(times) == times <==> times < 8 * 0x1_0001
  {
  }

  class Driver {
    const ftdi: Context
    const buffer: Buffer
    const globals: Globals
    /** The reading scans sent and not yet received. */
    ghost var pending: seq<Job>

    ghost function Chip(): Chip
      reads buffer, buffer.data, buffer.ftdi
      requires buffer.Bounded()
    {
      Exec(ftdi.device.target, POWER_UP, buffer.Log())
    }

    ghost predicate Linked()
      reads buffer, buffer.data, buffer.ftdi
    {
      && buffer.Valid()
      && buffer.ftdi == ftdi
      && ftdi.device.MpsseDevice?
      && ftdi.Sound()
      && (!ftdi.broken ==> Whole(buffer.Log()))
    }

    /** Unless a transfer has been given up, the responses not read yet are those of the pending scans, in order. */
    ghost predicate Valid()
      reads this, buffer, buffer.data, buffer.ftdi
    {
      && Linked()
      && (!ftdi.broken ==>
            ftdi.taken <= |Chip().resp| && CarriesAll(Chip().resp[ftdi.taken..], pending))
    }

    /** When no scan is pending, every response has been read. */
    lemma NothingUnread()
      requires Valid() && !ftdi.broken && pending == []
      ensures ftdi.taken == |Chip().resp|
    {
      assert Chip().resp[ftdi.taken..] == [];
    }

    constructor (ftdi: Context, globals: Globals)
      requires ftdi.device.MpsseDevice? && ftdi.written == [] && ftdi.taken == 0 && !ftdi.broken && ftdi.Sound()
      ensures this.ftdi == ftdi && this.globals == globals && buffer.ftdi == ftdi && fresh(buffer) && fresh(buffer.data)
      ensures Valid() && pending == [] && Chip().trace == []
    {
      this.ftdi := ftdi;
      this.globals := globals;
      buffer := new Buffer(ftdi);
      pending := [];
      new;
      assert buffer.Log() == [];
    }

    method EmitTmsBits(read: bool, len: nat, data: byte) returns (ok: bool)
      requires Linked() && 0 < len <= 8
      modifies buffer, buffer.data, ftdi`written, ftdi`transfers, ftdi`broken
      ensures Linked() && ftdi.broken == (old(ftdi.broken) || !ok)
      ensures !ftdi.broken ==> Chip() == Step(ftdi.device.target, old(Chip()), TmsBits(read, len, data))
      ensures ok ==> |buffer.Log()| == |old(buffer.Log())| + 3
    {
      hide Parse, Step, Exec, Whole;
      ghost var log := buffer.Log();
      ok := buffer.AppendCommand(if read then 0x6B else 0x4B, len - 1, data, []);
      LogTmsBits(ftdi.device.target, log, read, len, data);
    }

    method EmitDataBits(read: bool, len: nat, data: byte) returns (ok: bool)
      requires Linked() && 0 < len <= 8
      modifies buffer, buffer.data, ftdi`written, ftdi`transfers, ftdi`broken
      ensures Linked() && ftdi.broken == (old(ftdi.broken) || !ok)
      ensures !ftdi.broken ==> Chip() == Step(ftdi.device.target, old(Chip()), DataBits(read, len, data))
    {
      hide Parse, Step, Exec, Whole;
      ghost var log := buffer.Log();
      ok := buffer.AppendCommand(if read then 0x3B else 0x1B, len - 1, data, []);
      LogDataBits(ftdi.device.target, log, read, len, data);
    }

    method EmitBytes(read: bool, payload: seq<byte>) returns (ok: bool)
      requires Linked() && |payload| > 0
      modifies buffer, buffer.data, ftdi`written, ftdi`transfers, ftdi`broken
      ensures Linked()
      ensures 3 + |payload| >= BUFFER_LENGTH ==> !ok && Chip() == old(Chip()) && ftdi.broken == old(ftdi.broken)
      ensures 3 + |payload| < BUFFER_LENGTH ==> ftdi.broken == (old(ftdi.broken) || !ok)
      ensures ok && !ftdi.broken ==> Chip() == Step(ftdi.device.target, old(Chip()), Bytes(read, payload))
    {
      hide Parse, Step, Exec, Whole;
      ghost var log := buffer.Log();
      var n := |payload| - 1;
      ok := buffer.AppendCommand(if read then 0x39 else 0x19, n % 256, n / 256 % 256, payload);
      if ok {
        LogBytes(ftdi.device.target, log, read, payload);
      }
    }

    /** One command for every eight bits. */
    method TmsSeq(data: seq<byte>, n: nat) returns (ok: bool)
      requires Valid() && n <= 8 * |data|
      modifies buffer, buffer.data, ftdi`written, ftdi`transfers, ftdi`broken
      ensures Valid() && ftdi.broken == (old(ftdi.broken) || !ok)
      ensures !ftdi.broken ==> Chip().trace == old(Chip().trace) + TmsClocks(data, n)
      ensures ok ==> |buffer.Log()| == |old(buffer.Log())| + 3 * ((n + 7) / 8)
    {
      hide Parse, Step, Exec, Whole;
      ghost var trace := Chip().trace;
      assert trace == trace + TmsClocks(data, 0);
      var i := 0;
      while i < (n + 7) / 8
        invariant i <= (n + 7) / 8
        invariant Linked() && ftdi.broken == old(ftdi.broken)
        invariant |buffer.Log()| == |old(buffer.Log())| + 3 * i
        invariant !ftdi.broken ==> Chip().resp == old(Chip().resp)
        invariant !ftdi.broken ==> Chip().trace == trace + TmsClocks(data, if 8 * i < n then 8 * i else n)
      {
        var curBits := if n - i * 8 < 8 then n - i * 8 else 8;
        ghost var c := Chip();
        ok := EmitTmsBits(false, curBits, data[i]);
        if !ok {
          return;
        }
        if !ftdi.broken {
          TmsStep(ftdi.device.target, c, trace, data, n, i);
        }
        i := i + 1;
      }
      return true;
    }

    /** Whole bytes, then the remaining bits, then the last bit along with TMS=1. */
    method ScanChainSend(data: seq<byte>, n: nat, flipTms: bool, doRead: bool) returns (ok: bool)
      requires Valid() && n <= 8 * |data| && (flipTms ==> n > 0)
      modifies this`pending, globals`state, buffer, buffer.data, ftdi`written, ftdi`transfers, ftdi`broken
      ensures Valid() && (old(ftdi.broken) ==> ftdi.broken) && (ok ==> ftdi.broken == old(ftdi.broken))
      ensures !ok ==> ftdi.broken || (3 + Bulk(n, flipTms) / 8 >= BUFFER_LENGTH &&
                      Chip() == old(Chip()) && pending == old(pending) && globals.state == old(globals.state))
      ensures ok ==> globals.state == if flipTms then NextState(old(globals.state), true) else old(globals.state)
      ensures ok && !ftdi.broken ==>
                var cs := ScanClocks(TmsPin(old(Chip().trace)), data, n, flipTms);
                && Chip().trace == old(Chip().trace) + cs
                && pending == old(pending) +
                   if doRead then [Job(flipTms, Samples(ftdi.device.target, old(Chip().trace), cs))] else []
    {
      hide Parse, Step, Exec, Whole, CarriesAll, ScanClocks, Samples, TmsPin;
      ghost var c := Chip();
      var bulkBits := Bulk(n, flipTms);
      var lengthInBytes := bulkBits / 8;
      if lengthInBytes > 0 {
        ok := EmitBytes(doRead, data[..lengthInBytes]);
        if !ok {
          return;
        }
      }
      if bulkBits % 8 != 0 {
        ok := EmitDataBits(doRead, bulkBits % 8, data[lengthInBytes]);
        if !ok {
          return;
        }
      }
      if flipTms {
        globals.state := NextState(globals.state, true);
        var bit := Bit(data[(n - 1) / 8], (n - 1) % 8);
        ok := EmitTmsBits(doRead, 1, if bit then 0x81 else 0x01);
        if !ok {
          return;
        }
      }
      ok := true;
      if !ftdi.broken {
        assert Chip() == AfterScan(ftdi.device.target, c, data, n, flipTms, doRead);
        SentScan(ftdi.device.target, c, data, n, flipTms, doRead, ftdi.taken, pending);
      }
      ghost var cs := ScanClocks(TmsPin(c.trace), data, n, flipTms);
      pending := pending + if doRead then [Job(flipTms, Samples(ftdi.device.target, c.trace, cs))] else [];
    }

    /** Delivers everything written so far, followed by a request for its responses. */
    method FlushForRead() returns (ok: bool)
      requires Linked()
      modifies buffer, buffer.data, ftdi`written, ftdi`transfers, ftdi`broken
      ensures Linked() && ftdi.broken == (old(ftdi.broken) || !ok)
      ensures !ftdi.broken ==> Chip() == old(Chip()) && buffer.Log() == ftdi.written
      ensures ok ==> ftdi.written == old(buffer.Log()) + if old(buffer.pos) == 0 then [] else [0x87]
    {
      hide Parse, Step, Exec, Whole;
      ghost var log := buffer.Log();
      var empty := buffer.IsEmpty();
      if !empty {
        ok := buffer.AppendSendImmediate();
        LogSendImmediate(ftdi.device.target, log);
        NoClockMeans(ftdi.device.target, old(Chip()));
        if !ok {
          return;
        }
        ok := buffer.Flush();
        return;
      }
      assert log == ftdi.written;
      ok := true;
    }

    /** Reads `len` response bytes, however few of them arrive at a time. They have been produced, or this would wait
        for ever. */
    method ReadBytes(recv: array<byte>, len: nat) returns (ok: bool)
      requires len <= recv.Length && ftdi.Sound()
      requires !ftdi.broken ==> ftdi.taken + len <= |ftdi.Responses()|
      modifies ftdi`taken, ftdi`patience, ftdi`transfers, ftdi`starved, ftdi`broken, recv
      ensures ftdi.Sound() && ftdi.broken == (old(ftdi.broken) || !ok)
      ensures forall i | len <= i < recv.Length :: recv[i] == old(recv[i])
      ensures !ftdi.broken ==>
                && ftdi.taken == old(ftdi.taken) + len
                && forall i | 0 <= i < len :: recv[i] == ftdi.Responses()[old(ftdi.taken) + i]
    {
      hide Context.Responses, Blamed;
      var offset := 0;
      while len > offset
        invariant offset <= len
        invariant ftdi.Sound() && ftdi.broken == old(ftdi.broken)
        invariant !ftdi.broken ==>
                    && ftdi.taken == old(ftdi.taken) + offset
                    && forall i | 0 <= i < offset :: recv[i] == ftdi.Responses()[old(ftdi.taken) + i]
        invariant forall i | len <= i < recv.Length :: recv[i] == old(recv[i])
        decreases len - offset, ftdi.patience
      {
        ghost var before := ftdi.transfers;
        var read := ftdi.ReadData(recv, offset, len - offset);
        BlameGrows(before, ftdi.transfers);
        if read < 0 {
          ftdi.broken := true;
          GivingUpBlames(before, ftdi.transfers);
          return false;
        }
        offset := offset + read;
      }
      return true;
    }

    method ReadBulk(recv: array<byte>, len: nat) returns (ok: bool)
      requires len <= recv.Length && ftdi.Sound()
      requires !ftdi.broken ==> ftdi.taken + len <= |ftdi.Responses()|
      modifies ftdi`taken, ftdi`patience, ftdi`transfers, ftdi`starved, ftdi`broken, recv
      ensures ftdi.Sound() && ftdi.broken == (old(ftdi.broken) || !ok)
      ensures !ftdi.broken ==>
                && ftdi.taken == old(ftdi.taken) + len
                && recv[..] == ftdi.Responses()[old(ftdi.taken)..ftdi.taken] + old(recv[len..])
    {
      hide Context.Responses, Blamed;
      forall i | 0 <= i < len {
        recv[i] := 0;
      }
      ok := ReadBytes(recv, len);
    }

    /** Reads one byte, whatever errors the transfers report meanwhile. */
    method ReadLast() returns (lastBit: byte)
      requires ftdi.Sound() && (!ftdi.broken ==> ftdi.taken < |ftdi.Responses()|)
      modifies ftdi`taken, ftdi`patience, ftdi`transfers, ftdi`starved
      ensures ftdi.Sound()
      ensures !ftdi.broken ==>
                && ftdi.taken == old(ftdi.taken) + 1
                && lastBit == ftdi.Responses()[old(ftdi.taken)]
    {
      var last := new byte[1];
      var read := 0;
      while read != 1
        invariant ftdi.Sound()
        invariant !ftdi.broken ==>
                    if read == 1 then
                      ftdi.taken == old(ftdi.taken) + 1 && last[0] == ftdi.Responses()[old(ftdi.taken)]
                    else
                      ftdi.taken == old(ftdi.taken)
        decreases read != 1, ftdi.patience
      {
        ghost var before := ftdi.transfers;
        read := ftdi.ReadData(last, 0, 1);
        BlameGrows(before, ftdi.transfers);
      }
      lastBit := last[0];
    }

    method ShiftDown(recv: array<byte>, bulkBits: nat)
      requires bulkBits <= 8 * recv.Length
      modifies recv
      ensures recv[..] == ShiftedDown(old(recv[..]), bulkBits)
    {
      if bulkBits % 8 != 0 {
        recv[bulkBits / 8] := ShrByte(recv[bulkBits / 8], 8 - bulkBits % 8);
      }
    }

    /** Reads the bulk of `resp`, the response to a scan of `n` bits, into `recv`. */
    method ReadShifted(recv: array<byte>, n: nat, flipTms: bool, ghost resp: seq<byte>) returns (ok: bool)
      requires n <= 8 * recv.Length && (flipTms ==> n > 0) && ftdi.Sound()
      requires |resp| == ResponseLength(n, flipTms)
      requires !ftdi.broken ==> ftdi.taken <= |ftdi.Responses()| && resp <= ftdi.Responses()[ftdi.taken..]
      modifies recv, ftdi`taken, ftdi`patience, ftdi`transfers, ftdi`starved, ftdi`broken
      ensures ftdi.Sound() && ftdi.broken == (old(ftdi.broken) || !ok)
      ensures !ftdi.broken ==>
                && ftdi.taken == old(ftdi.taken) + (Bulk(n, flipTms) + 7) / 8
                && recv[..] == UnpackedBulk(old(recv[..]), resp, n, flipTms)
    {
      hide ShiftedDown;
      var bulkBits := Bulk(n, flipTms);
      var len := (bulkBits + 7) / 8;
      if !ftdi.broken {
        SplitPrefix(ftdi.Responses(), ftdi.taken, resp, len);
      }
      ok := ReadBulk(recv, len);
      if !ok {
        return;
      }
      if !ftdi.broken {
        assert recv[..] == resp[..len] + old(recv[..])[len..];
      }
      ShiftDown(recv, bulkBits);
    }

    /** Reads `resp` and unpacks it into `recv`. */
    method ReadScan(recv: array<byte>, n: nat, flipTms: bool, ghost resp: seq<byte>) returns (ok: bool)
      requires n <= 8 * recv.Length && (flipTms ==> n > 0) && ftdi.Sound()
      requires |resp| == ResponseLength(n, flipTms)
      requires !ftdi.broken ==> ftdi.taken <= |ftdi.Responses()| && resp <= ftdi.Responses()[ftdi.taken..]
      modifies recv, ftdi`taken, ftdi`patience, ftdi`transfers, ftdi`starved, ftdi`broken
      ensures ftdi.Sound() && ftdi.broken == (old(ftdi.broken) || !ok)
      ensures !ftdi.broken ==>
                && ftdi.taken == old(ftdi.taken) + |resp|
                && recv[..] == Unpacked(old(recv[..]), resp, n, flipTms)
    {
      hide Bit, SetBit, UnpackedBulk;
      ok := ReadShifted(recv, n, flipTms, resp);
      if !ok || !flipTms {
        return;
      }
      if !ftdi.broken {
        SplitPrefix(ftdi.Responses(), old(ftdi.taken), resp, (n - 1 + 7) / 8);
      }
      var lastBit := ReadLast();
      ghost var bulk := recv[..];
      recv[(n - 1) / 8] := SetBit(recv[(n - 1) / 8], (n - 1) % 8, Bit(lastBit, 7));
      assert recv[..] == bulk[(n - 1) / 8 := SetBit(bulk[(n - 1) / 8], (n - 1) % 8, Bit(lastBit, 7))];
    }

    /** Reads back the oldest pending scan. */
    method ScanChainRecv(recv: array<byte>, n: nat, flipTms: bool) returns (ok: bool)
      requires Valid() && n <= 8 * recv.Length && (flipTms ==> n > 0) && recv != buffer.data
      requires !ftdi.broken ==> pending != [] && pending[0].flipTms == flipTms && |pending[0].samples| == n
      modifies this`pending, buffer, buffer.data, recv
      modifies ftdi`written, ftdi`taken, ftdi`patience, ftdi`transfers, ftdi`starved, ftdi`broken
      ensures Valid() && ftdi.broken == (old(ftdi.broken) || !ok)
      ensures !ftdi.broken ==>
                && Received(recv[..], old(recv[..]), old(pending)[0])
                && pending == old(pending)[1..]
                && Chip() == old(Chip())
                && ftdi.taken == old(ftdi.taken) + ResponseLength(n, flipTms)
    {
      hide Parse, Step, Exec, Whole, CarriesAll, Carries, Received, Unpacked;
      ok := FlushForRead();
      if !ok {
        return;
      }
      ghost var before := recv[..];
      ghost var resp := seq(ResponseLength(n, flipTms), i => 0);
      ghost var from := ftdi.taken;
      if !ftdi.broken {
        FirstPending(Chip().resp[from..], pending);
        resp := Chip().resp[from..][..ResponseLength(n, flipTms)];
      }
      ok := ReadScan(recv, n, flipTms, resp);
      if ok && !ftdi.broken {
        UnpackedReceived(before, resp, pending[0]);
        assert Chip().resp[from..][|resp|..] == Chip().resp[ftdi.taken..];
        pending := pending[1..];
      }
    }

    /** A clock-only command, written past the empty buffer. */
    method WriteClocks(command: seq<byte>, ghost n: nat) returns (ok: bool)
      requires Valid() && buffer.pos == 0
      requires Extends(ftdi.device.target, ftdi.written, ftdi.written + command, ClockOnly(n))
      modifies ftdi`written, ftdi`transfers, ftdi`broken
      ensures Valid() && ftdi.broken == (old(ftdi.broken) || !ok)
      ensures !ftdi.broken ==>
                && Chip().trace == old(Chip().trace) + Repeat(Pins(old(Chip().trace)), n)
                && Pins(Chip().trace) == Pins(old(Chip().trace))
      ensures ok ==> ftdi.written == buffer.Log() == old(buffer.Log()) + command
    {
      hide Parse, Step, Exec, Whole, CarriesAll, Repeat, Pins;
      assert buffer.Log() == ftdi.written;
      IdleStep(ftdi.device.target, Chip(), n);
      ok := ftdi.WriteRetry(command);
      assert buffer.Log() == ftdi.written;
    }

    /** Free-running clocks: the engine holds TMS and TDI. */
    method ClockTck(times: nat) returns (ok: bool)
      requires Valid()
      modifies buffer, ftdi`written, ftdi`transfers, ftdi`broken
      ensures Valid() && ftdi.broken == (old(ftdi.broken) || !ok)
      ensures !ftdi.broken ==>
                Chip().trace == old(Chip().trace) + Repeat(Pins(old(Chip().trace)), FreeClocks(times))
      ensures ok ==>
                && ftdi.written == buffer.Log()
                && |buffer.Log()| ==
                   |old(buffer.Log())| + (if times >= 8 then 3 else 0) + (if times % 8 != 0 then 2 else 0)
    {
      hide Parse, Step, Exec, Whole, CarriesAll, Extends, Repeat, Pins;
      ghost var t, trace, pins := ftdi.device.target, Chip().trace, Pins(Chip().trace);
      ok := buffer.Flush();
      if !ok {
        return;
      }
      var times8 := times / 8;
      if times8 > 0 {
        var n := (times8 - 1) % 0x1_0000;
        LogClockBytes(t, ftdi.written, n + 1);
        ok := WriteClocks([0x8F, n % 256, n / 256], 8 * (n + 1));
        if !ok {
          return;
        }
      }
      ghost var whole := if times8 > 0 then 8 * ((times8 - 1) % 0x1_0000 + 1) else 0;
      assert trace + Repeat(pins, 0) == trace;
      assert !ftdi.broken ==> Chip().trace == trace + Repeat(pins, whole) && Pins(Chip().trace) == pins;
      if times % 8 != 0 {
        LogClockBits(t, ftdi.written, times % 8);
        ok := WriteClocks([0x8E, times % 8 - 1], times % 8);
        HoldAppend(pins, whole, times % 8);
        assert trace + Repeat(pins, whole) + Repeat(pins, times % 8) == trace + Repeat(pins, FreeClocks(times));
      }
    }

    /** Sets the TCK divisor. The program dies of a frequency of zero once everything pending has been delivered. */
    method SetTckFreq(freqMhz: nat) returns (outcome: Outcome)
      requires Valid()
      modifies buffer, ftdi`written, ftdi`transfers, ftdi`broken
      ensures Valid() && ftdi.broken == (old(ftdi.broken) || outcome.Failed?)
      ensures outcome.Died? ==> freqMhz == 0 && ftdi.written == old(buffer.Log())
      ensures outcome.Done? ==>
                && freqMhz > 0
                && ftdi.written == buffer.Log() == old(buffer.Log()) + [0x86, Divisor(freqMhz), 0x00, 0x8A]
      ensures !ftdi.broken ==> Chip() == old(Chip())
    {
      hide Parse, Step, Exec, Whole, CarriesAll, Divisor;
      var ok := buffer.Flush();
      if !ok {
        return Failed;
      }
      if freqMhz == 0 {
        return Died;
      }
      var divisor := Divisor(freqMhz);
      LogDivisor(ftdi.device.target, ftdi.written, divisor);
      NoClockMeans(ftdi.device.target, old(Chip()));
      ok := ftdi.WriteRetry([0x86, divisor, 0x00, 0x8A]);
      assert buffer.Log() == ftdi.written;
      outcome := if ok then Done else Failed;
    }
  }
}
