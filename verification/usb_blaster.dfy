/** The USB Blaster driver: scans in packets, read back at once into a buffer of its own. */
module UsbBlaster {
  import opened Bits
  import opened Tap
  import opened Reference
  import opened Sampling
  import opened Scan
  import opened Ftdi
  import opened BlasterChip
  import opened Globals

  const RECV_BUFFER_SIZE := 4096
  const MAX_PACKET_SIZE := 32

  /** The clocks of a TMS sequence, TDI low. */
  function TmsClocks(data: seq<byte>, n: nat): (cs: seq<Clock>)
    requires n <= 8 * |data|
    ensures |cs| == n
  {
    seq(n, i requires 0 <= i < n => Clock(BitAt(data, i), false))
  }

  /** The bits left over after the whole bytes, TMS low. */
  function RestClocks(data: seq<byte>, from: nat, rest: nat): (cs: seq<Clock>)
    requires from + rest <= 8 * |data|
    ensures |cs| == rest
  {
    seq(rest, i requires 0 <= i < rest => Clock(false, BitAt(data, from + i)))
  }

  /** The clocks of a scan that begins with TMS at `pin`. Whole bytes hold it, left-over bits lower it. */
  function PartClocks(pin: bool, data: seq<byte>, n: nat, flipTms: bool): (cs: seq<Clock>)
    requires n <= 8 * |data| && (flipTms ==> n > 0)
    ensures |cs| == n
  {
    var bulk := Bulk(n, flipTms);
    ShiftClocks(pin, data[..bulk / 8]) + RestClocks(data, bulk / 8 * 8, bulk % 8)
    + if flipTms then [Clock(true, BitAt(data, n - 1))] else []
  }

  /** TDI carries the data, and TMS is held but for the left-over bits and the last. */
  lemma PartClockAt(pin: bool, data: seq<byte>, n: nat, flipTms: bool, i: nat)
    requires n <= 8 * |data| && (flipTms ==> n > 0) && i < n
    ensures PartClocks(pin, data, n, flipTms)[i] ==
            Clock(if flipTms && i == n - 1 then true else pin && i < Bulk(n, flipTms) / 8 * 8, BitAt(data, i))
  {
    var bulk := Bulk(n, flipTms);
    if i < bulk / 8 * 8 {
      assert data[..bulk / 8][i / 8] == data[i / 8];
    }
  }

  /** The left-over bits are where the drivers differ: this one clocks the scan that the MPSSE driver would just if the
      pin is low or there are none. */
  lemma SameScan(pin: bool, data: seq<byte>, n: nat, flipTms: bool)
    requires n <= 8 * |data| && (flipTms ==> n > 0)
    ensures PartClocks(pin, data, n, flipTms) == ScanClocks(pin, data, n, flipTms)
            <==> !pin || Bulk(n, flipTms) % 8 == 0
  {
    hide PartClocks, BitAt;
    var bulk := Bulk(n, flipTms);
    forall i | 0 <= i < n
      ensures PartClocks(pin, data, n, flipTms)[i] ==
              Clock(if flipTms && i == n - 1 then true else pin && i < bulk / 8 * 8, BitAt(data, i))
    {
      PartClockAt(pin, data, n, flipTms, i);
    }
    if pin && bulk % 8 != 0 {
      var i := bulk / 8 * 8;
      assert PartClocks(pin, data, n, flipTms)[i] != ScanClocks(pin, data, n, flipTms)[i];
    }
  }

  /** One bit, with the pin left high by a TMS sequence: one driver lowers TMS for it, the other holds it. */
  lemma DifferentScan()
    ensures PartClocks(true, [0], 1, false) != ScanClocks(true, [0], 1, false)
  {
    SameScan(true, [0], 1, false);
  }

  lemma ClockedNothing(t: Target, c: Chip, read: bool)
    ensures Clocked(t, c, c, [], read)
  {
    assert c.trace + [] == c.trace;
  }

  /** The parts of a scan, one after the other, clock the whole scan; the bytes they answer carry its samples. */
  lemma PartsMean(t: Target, c: Chip, c1: Chip, c2: Chip, c3: Chip, data: seq<byte>, n: nat, flipTms: bool, read: bool)
    requires n <= 8 * |data| && (flipTms ==> n > 0)
    requires var bulk := Bulk(n, flipTms);
             && Shifted(t, c, c1, data[..bulk / 8], read)
             && Clocked(t, c1, c2, RestClocks(data, bulk / 8 * 8, bulk % 8), read)
             && Clocked(t, c2, c3, if flipTms then [Clock(true, BitAt(data, n - 1))] else [], read)
    ensures var cs := PartClocks(c.tms, data, n, flipTms);
            && c3.trace == c.trace + cs
            && c.resp <= c3.resp
            && (read ==> RawCarries(c3.resp[|c.resp|..], Job(flipTms, Samples(t, c.trace, cs))))
            && (!read ==> c3.resp == c.resp)
  {
    hide HoldsSamples, Raw, RawCarries, Samples, ShiftClocks, RestClocks;
    var bulk := Bulk(n, flipTms);
    var a, b := ShiftClocks(c.tms, data[..bulk / 8]), RestClocks(data, bulk / 8 * 8, bulk % 8);
    var f := if flipTms then [Clock(true, BitAt(data, n - 1))] else [];
    assert c.trace + a + b + f == c.trace + (a + b + f);
    if read {
      var x, y, z := c1.resp[|c.resp|..], c2.resp[|c1.resp|..], c3.resp[|c2.resp|..];
      assert c3.resp[|c.resp|..] == x + y + z;
      SamplesAppend3(t, c.trace, a, b, f);
      RawAnswersCarry(x, y, z, Samples(t, c.trace, a), Samples(t, c.trace + a, b), Samples(t, c.trace + a + b, f), flipTms);
    }
  }

  /** `r` after the first `k` left-over bits, a byte each in `buf`, have been OR-ed into byte `at`. */
  function WithRest(r: seq<byte>, buf: seq<byte>, at: nat, k: nat): (w: seq<byte>)
    requires k <= 7 && at + k <= |buf| && (k > 0 ==> at < |r|)
    ensures |w| == |r|
  {
    if k == 0 then r
    else
      var w := WithRest(r, buf, at, k - 1);
      w[at := SetBit(w[at], k - 1, Bit(buf[at + k - 1], 0))]
  }

  lemma {:induction false} RestBit(r: seq<byte>, buf: seq<byte>, at: nat, k: nat, i: nat)
    requires k <= 7 && at + k <= |buf| && (k > 0 ==> at < |r|) && i < 8 * |r|
    ensures BitAt(WithRest(r, buf, at, k), i) ==
            (BitAt(r, i) || (8 * at <= i < 8 * at + k && Bit(buf[at + i - 8 * at], 0)))
  {
    if k > 0 {
      RestBit(r, buf, at, k - 1, i);
      SetBitAt(WithRest(r, buf, at, k - 1), 8 * at + k - 1, Bit(buf[at + k - 1], 0));
    }
  }

  /** The whole bytes of `buf`, zeroes up to the end of the bulk bits, and the rest of `recv`. */
  function Copied(recv: seq<byte>, buf: seq<byte>, bulk: nat): (r: seq<byte>)
    requires bulk <= 8 * |recv| && bulk / 8 <= |buf|
    ensures |r| == |recv|
  {
    buf[..bulk / 8] + (if bulk % 8 != 0 then [0] else []) + recv[(bulk + 7) / 8..]
  }

  /** What `usb_blaster_jtag_scan_chain_recv` leaves in `recv` when `buf` has been collected. */
  function Unpacked(recv: seq<byte>, buf: seq<byte>, n: nat, flipTms: bool): seq<byte>
    requires n <= 8 * |recv| && (flipTms ==> n > 0) && |buf| == RawLength(n, flipTms)
  {
    var bulk := Bulk(n, flipTms);
    var r := WithRest(Copied(recv, buf, bulk), buf, bulk / 8, bulk % 8);
    if flipTms then r[(n - 1) / 8 := SetBit(r[(n - 1) / 8], (n - 1) % 8, Bit(buf[|buf| - 1], 0))] else r
  }

  lemma CopiedPrefix(recv: seq<byte>, buf: seq<byte>, n: nat, bulk: nat)
    requires bulk <= 8 * |recv| && bulk / 8 <= n <= |buf|
    ensures Copied(recv, buf[..n], bulk) == Copied(recv, buf, bulk)
  {
    assert buf[..n][..bulk / 8] == buf[..bulk / 8];
  }

  lemma {:induction false} CopiedBit(recv: seq<byte>, buf: seq<byte>, bulk: nat, i: nat)
    requires bulk <= 8 * |recv| && bulk / 8 <= |buf| && i < 8 * |recv|
    ensures BitAt(Copied(recv, buf, bulk), i) ==
            if i / 8 < bulk / 8 then Bit(buf[i / 8], i % 8) else i >= 8 * ((bulk + 7) / 8) && BitAt(recv, i)
  {
    ZeroHasNoBits(i % 8);
  }

  lemma {:induction false} BulkBit(recv: seq<byte>, buf: seq<byte>, n: nat, flipTms: bool, i: nat)
    requires n <= 8 * |recv| && (flipTms ==> n > 0) && |buf| == RawLength(n, flipTms) && i < 8 * |recv|
    ensures var bulk := Bulk(n, flipTms);
            BitAt(WithRest(Copied(recv, buf, bulk), buf, bulk / 8, bulk % 8), i) ==
            if i < bulk then RawLocated(buf, n, flipTms, i) else i >= 8 * ((bulk + 7) / 8) && BitAt(recv, i)
  {
    hide WithRest, Copied, BitAt;
    var bulk := Bulk(n, flipTms);
    RestBit(Copied(recv, buf, bulk), buf, bulk / 8, bulk % 8, i);
    CopiedBit(recv, buf, bulk, i);
  }

  lemma LastLocated(buf: seq<byte>, n: nat)
    requires n > 0 && |buf| == RawLength(n, true)
    ensures RawLocated(buf, n, true, n - 1) == Bit(buf[|buf| - 1], 0)
  {
  }

  lemma UnpackedBit(recv: seq<byte>, buf: seq<byte>, n: nat, flipTms: bool, i: nat)
    requires n <= 8 * |recv| && (flipTms ==> n > 0) && |buf| == RawLength(n, flipTms)
    requires i < 8 * ((n + 7) / 8)
    ensures BitAt(Unpacked(recv, buf, n, flipTms), i) ==
            ((i < n && RawLocated(buf, n, flipTms, i)) || (i >= 8 * ((Bulk(n, flipTms) + 7) / 8) && BitAt(recv, i)))
  {
    hide RawLocated, SetBit, BitAt, WithRest, Copied;
    var bulk := Bulk(n, flipTms);
    BulkBit(recv, buf, n, flipTms, i);
    if flipTms {
      SetBitAt(WithRest(Copied(recv, buf, bulk), buf, bulk / 8, bulk % 8), n - 1, Bit(buf[|buf| - 1], 0));
      LastLocated(buf, n);
    }
  }

  lemma UnpackedTail(recv: seq<byte>, buf: seq<byte>, n: nat, flipTms: bool, b: nat)
    requires n <= 8 * |recv| && (flipTms ==> n > 0) && |buf| == RawLength(n, flipTms)
    ensures |Unpacked(recv, buf, n, flipTms)| == |recv|
    ensures (n + 7) / 8 <= b < |recv| ==> Unpacked(recv, buf, n, flipTms)[b] == recv[b]
  {
    var bulk := Bulk(n, flipTms);
    if (n + 7) / 8 <= b < |recv| {
      WithRestTail(Copied(recv, buf, bulk), buf, bulk / 8, bulk % 8, b);
    }
  }

  lemma {:induction false} WithRestTail(r: seq<byte>, buf: seq<byte>, at: nat, k: nat, b: nat)
    requires k <= 7 && at + k <= |buf| && (k > 0 ==> at < b) && b < |r|
    ensures WithRest(r, buf, at, k)[b] == r[b]
  {
    if k > 0 {
      WithRestTail(r, buf, at, k - 1, b);
    }
  }

  /** Unpacking puts every collected sample in its place. */
  lemma UnpackedReceived(recv: seq<byte>, buf: seq<byte>, j: Job)
    requires RawCarries(buf, j) && |j.samples| <= 8 * |recv|
    ensures Received(Unpacked(recv, buf, |j.samples|, j.flipTms), recv, j)
  {
    hide RawLocated, BitAt, Unpacked;
    var n := |j.samples|;
    var now := Unpacked(recv, buf, n, j.flipTms);
    UnpackedTail(recv, buf, n, j.flipTms, 0);
    forall i | 0 <= i < 8 * ((n + 7) / 8)
      ensures BitAt(now, i) == ((i < n && j.samples[i]) || (i >= 8 * ((Bulk(n, j.flipTms) + 7) / 8) && BitAt(recv, i)))
    {
      UnpackedBit(recv, buf, n, j.flipTms, i);
    }
    forall b | (n + 7) / 8 <= b < |now| ensures now[b] == recv[b] {
      UnpackedTail(recv, buf, n, j.flipTms, b);
    }
  }

  lemma ResponsesJoin(a: seq<byte>, b: seq<byte>, c: seq<byte>)
    ensures a <= b <= c ==> b[|a|..] + c[|b|..] == c[|a|..]
  {
  }

  class Driver {
    const ftdi: Context
    const globals: Globals
    const recvBuffer: array<byte>
    var recvBufferLen: nat
    /** The reading scan whose responses are in `recvBuffer`, if any. */
    ghost var pending: seq<Job>

    ghost function Chip(): Chip
      reads ftdi
    {
      Exec(ftdi.device.target, POWER_UP, ftdi.written)
    }

    /** Unless a transfer has been given up, the level of TMS is that of the last clock. */
    ghost predicate Linked()
      reads this, ftdi
    {
      && ftdi.device.BlasterDevice?
      && recvBuffer.Length == RECV_BUFFER_SIZE
      && recvBufferLen <= RECV_BUFFER_SIZE
      && ftdi.Sound()
      && (!ftdi.broken ==> Whole(ftdi.written) && Chip().tms == TmsPin(Chip().trace))
    }

    /** ... no response is left unread, and the buffer holds those of the pending scan. */
    ghost predicate Valid()
      reads this, ftdi, recvBuffer
    {
      && Linked()
      && (!ftdi.broken ==>
            && ftdi.taken == |Chip().resp|
            && if pending == [] then recvBufferLen == 0
               else |pending| == 1 && RawCarries(recvBuffer[..recvBufferLen], pending[0]))
    }

    constructor (ftdi: Context, globals: Globals)
      requires ftdi.device.BlasterDevice? && ftdi.written == [] && ftdi.taken == 0 && !ftdi.broken && ftdi.Sound()
      ensures this.ftdi == ftdi && this.globals == globals && fresh(recvBuffer)
      ensures Valid() && pending == [] && Chip().trace == []
    {
      this.ftdi := ftdi;
      this.globals := globals;
      recvBuffer := new byte[RECV_BUFFER_SIZE];
      recvBufferLen := 0;
      pending := [];
    }

    /** Two pin writes for every bit, and a last one that lowers TCK. */
    method TmsSeq(data: seq<byte>, n: nat) returns (ok: bool)
      requires Valid() && 0 < n <= 8 * |data|
      modifies ftdi`written, ftdi`transfers, ftdi`broken
      ensures Valid() && ftdi.broken == (old(ftdi.broken) || !ok)
      ensures !ftdi.broken ==> Chip().trace == old(Chip().trace) + TmsClocks(data, n)
      ensures !ftdi.broken ==> !Chip().tck
    {
      hide Parse, Step, Exec, Whole, RawCarries, BuildCommand, Pulses;
      ghost var cs := TmsClocks(data, n);
      var buffer := TmsBytes(data, n);
      if !ftdi.broken {
        LogPulsesLow(ftdi.device.target, ftdi.written, cs, false);
        TmsPinAppend(Chip().trace, cs);
      }
      ok := ftdi.WriteRetry(buffer);
    }

    method TmsBytes(data: seq<byte>, n: nat) returns (buffer: seq<byte>)
      requires 0 < n <= 8 * |data|
      ensures var cs := TmsClocks(data, n);
              buffer == Pulses(cs, false) + [BuildCommand(cs[n - 1].tms, false, false, false)]
    {
      hide BuildCommand;
      buffer := [];
      ghost var cs := TmsClocks(data, n);
      var bit := false;
      for i := 0 to n
        invariant buffer == Pulses(cs[..i], false)
        invariant i > 0 ==> bit == cs[i - 1].tms
      {
        bit := Bit(data[i / 8], i % 8);
        PulsesSnoc(cs, i, false);
        buffer := buffer + [BuildCommand(bit, false, false, false)];
        buffer := buffer + [BuildCommand(bit, false, true, false)];
      }
      assert cs[..n] == cs;
      buffer := buffer + [BuildCommand(bit, false, false, false)];
    }

    /** Reads back at once the `len` responses that are to come. */
    method Collect(len: nat) returns (ok: bool)
      requires Linked()
      requires recvBufferLen + len <= RECV_BUFFER_SIZE
      requires !ftdi.broken ==> ftdi.taken + len == |Chip().resp|
      modifies this`recvBufferLen, recvBuffer
      modifies ftdi`taken, ftdi`patience, ftdi`transfers, ftdi`starved, ftdi`broken
      ensures Linked() && ftdi.broken == (old(ftdi.broken) || !ok)
      ensures ok ==> recvBufferLen == old(recvBufferLen) + len
      ensures !ftdi.broken ==>
                && ftdi.taken == |Chip().resp|
                && recvBuffer[..recvBufferLen] == old(recvBuffer[..recvBufferLen]) + Chip().resp[old(ftdi.taken)..]
    {
      hide Parse, Step, Exec, Whole;
      ok := ftdi.ReadRetry(recvBuffer, recvBufferLen, len);
      if !ok {
        return;
      }
      recvBufferLen := recvBufferLen + len;
    }

    /** Whole bytes, in packets. */
    method SendBytes(data: seq<byte>, doRead: bool) returns (ok: bool)
      requires Linked() && recvBufferLen == 0 && (doRead ==> |data| <= RECV_BUFFER_SIZE)
      requires !ftdi.broken ==> ftdi.taken == |Chip().resp|
      modifies this`recvBufferLen, recvBuffer, ftdi
      ensures Linked() && ftdi.broken == (old(ftdi.broken) || !ok)
      ensures ok ==> recvBufferLen == if doRead then |data| else 0
      ensures !ftdi.broken ==>
                && ftdi.taken == |Chip().resp|
                && Shifted(ftdi.device.target, old(Chip()), Chip(), data, doRead)
                && old(Chip()).resp <= Chip().resp
                && recvBuffer[..recvBufferLen] == Chip().resp[|old(Chip().resp)|..]
      ensures ok ==> |ftdi.written| == |old(ftdi.written)| + |data| + (|data| + 31) / 32
    {
      hide Parse, Step, Exec, Whole, Shifted;
      ghost var t, c := ftdi.device.target, Chip();
      ShiftedNothing(t, c, doRead);
      var i := 0;
      while i < |data|
        invariant i <= |data|
        invariant Linked() && ftdi.broken == old(ftdi.broken)
        invariant recvBufferLen == if doRead then i else 0
        invariant |ftdi.written| == |old(ftdi.written)| + i + (i + 31) / 32 && (i % 32 == 0 || i == |data|)
        invariant !ftdi.broken ==> ftdi.taken == |Chip().resp| && Shifted(t, c, Chip(), data[..i], doRead)
        invariant !ftdi.broken ==> c.resp <= Chip().resp && recvBuffer[..recvBufferLen] == Chip().resp[|c.resp|..]
      {
        var trans := if |data| - i < MAX_PACKET_SIZE then |data| - i else MAX_PACKET_SIZE;
        ok := SendPacket(data[i..i + trans], doRead, c, data[..i]);
        if !ok {
          return;
        }
        assert data[..i] + data[i..i + trans] == data[..i + trans];
        i := i + trans;
      }
      assert data[..|data|] == data;
      ok := true;
    }

    method SendPacket(packet: seq<byte>, doRead: bool, ghost c: Chip, ghost done: seq<byte>) returns (ok: bool)
      requires Linked() && 0 < |packet| <= MAX_PACKET_SIZE
      requires doRead ==> recvBufferLen + |packet| <= RECV_BUFFER_SIZE
      requires !ftdi.broken ==> ftdi.taken == |Chip().resp| && Shifted(ftdi.device.target, c, Chip(), done, doRead)
      requires !ftdi.broken ==> c.resp <= Chip().resp && recvBuffer[..recvBufferLen] == Chip().resp[|c.resp|..]
      modifies this`recvBufferLen, recvBuffer, ftdi
      ensures Linked() && ftdi.broken == (old(ftdi.broken) || !ok)
      ensures ok ==> recvBufferLen == old(recvBufferLen) + if doRead then |packet| else 0
      ensures !ftdi.broken ==>
                && ftdi.taken == |Chip().resp|
                && Shifted(ftdi.device.target, c, Chip(), done + packet, doRead)
                && c.resp <= Chip().resp
                && recvBuffer[..recvBufferLen] == Chip().resp[|c.resp|..]
      ensures ok ==> |ftdi.written| == |old(ftdi.written)| + 1 + |packet|
    {
      hide Parse, Step, Exec, Whole, HoldsSamples;
      ghost var t, c0 := ftdi.device.target, Chip();
      var head: byte := 128 + (if doRead then 64 else 0) + |packet| as byte;
      if !ftdi.broken {
        LogShift(t, ftdi.written, doRead, packet);
        ShiftedMore(t, c, c0, done, packet, doRead);
      }
      ok := ftdi.WriteRetry([head] + packet);
      if !ok {
        return;
      }
      if doRead {
        if !ftdi.broken {
          ShiftAnswers(t, c0, packet);
        }
        ghost var from := ftdi.taken;
        ok := Collect(|packet|);
        assert ok && !ftdi.broken ==> Chip().resp[|c.resp|..] == c0.resp[|c.resp|..] + Chip().resp[from..];
      }
    }

    /** Up to seven bits by pin writes; TCK is left high. */
    method SendRest(data: seq<byte>, lengthInBytes: nat, rest: nat, doRead: bool) returns (ok: bool)
      requires Linked() && 0 < rest < 8 && 8 * lengthInBytes + rest <= 8 * |data|
      requires doRead ==> recvBufferLen + rest <= RECV_BUFFER_SIZE
      requires !ftdi.broken ==> ftdi.taken == |Chip().resp|
      modifies this`recvBufferLen, recvBuffer, ftdi
      ensures Linked() && ftdi.broken == (old(ftdi.broken) || !ok)
      ensures ok ==> recvBufferLen == old(recvBufferLen) + if doRead then rest else 0
      ensures !ftdi.broken ==>
                && ftdi.taken == |Chip().resp|
                && Clocked(ftdi.device.target, old(Chip()), Chip(), RestClocks(data, 8 * lengthInBytes, rest), doRead)
                && old(Chip()).resp <= Chip().resp
                && recvBuffer[..recvBufferLen] ==
                   old(recvBuffer[..recvBufferLen]) + Chip().resp[|old(Chip().resp)|..]
    {
      hide Parse, Step, Exec, Whole, BuildCommand, Raw;
      ghost var cs := RestClocks(data, 8 * lengthInBytes, rest);
      var buffer: seq<byte> := [];
      for i := 0 to rest
        invariant buffer == Pulses(cs[..i], doRead)
        modifies {}
      {
        var offset := lengthInBytes * 8 + i;
        var bit := Bit(data[offset / 8], offset % 8);
        assert cs[i] == Clock(false, BitAt(data, offset));
        PulsesSnoc(cs, i, doRead);
        buffer := buffer + [BuildCommand(false, bit, false, false)];
        buffer := buffer + [BuildCommand(false, bit, true, doRead)];
      }
      assert cs[..rest] == cs;
      if !ftdi.broken {
        LogPulses(ftdi.device.target, ftdi.written, cs, doRead);
        TmsPinAppend(Chip().trace, cs);
      }
      ok := WriteAndCollect(buffer, rest, doRead, cs);
    }

    /** The last bit, along with TMS=1; TCK is left low. */
    method SendLast(bit: bool, doRead: bool) returns (ok: bool)
      requires Linked() && (doRead ==> recvBufferLen + 1 <= RECV_BUFFER_SIZE)
      requires !ftdi.broken ==> ftdi.taken == |Chip().resp|
      modifies this`recvBufferLen, recvBuffer, ftdi
      ensures Linked() && ftdi.broken == (old(ftdi.broken) || !ok)
      ensures ok ==> recvBufferLen == old(recvBufferLen) + if doRead then 1 else 0
      ensures !ftdi.broken ==>
                && ftdi.taken == |Chip().resp|
                && Clocked(ftdi.device.target, old(Chip()), Chip(), [Clock(true, bit)], doRead)
                && old(Chip()).resp <= Chip().resp
                && recvBuffer[..recvBufferLen] ==
                   old(recvBuffer[..recvBufferLen]) + Chip().resp[|old(Chip().resp)|..]
      ensures !ftdi.broken ==> !Chip().tck
    {
      hide Parse, Step, Exec, Whole, BuildCommand, Raw;
      var buffer := [BuildCommand(true, bit, false, false), BuildCommand(true, bit, true, doRead),
                     BuildCommand(true, bit, false, false)];
      ghost var cs := [Clock(true, bit)];
      PulsesSnoc(cs, 0, doRead);
      assert cs[..1] == cs;
      assert buffer == Pulses(cs, doRead) + [BuildCommand(true, bit, false, false)];
      if !ftdi.broken {
        LogPulsesLow(ftdi.device.target, ftdi.written, cs, doRead);
        TmsPinAppend(Chip().trace, cs);
      }
      ok := WriteAndCollect(buffer, 1, doRead, cs);
    }

    /** Writes a packet that clocks `cs`, and reads back its answers if there are to be any. */
    method WriteAndCollect(packet: seq<byte>, len: nat, doRead: bool, ghost cs: seq<Clock>) returns (ok: bool)
      requires Linked() && |cs| == len && (doRead ==> recvBufferLen + len <= RECV_BUFFER_SIZE)
      requires !ftdi.broken ==>
                 var c' := Exec(ftdi.device.target, POWER_UP, ftdi.written + packet);
                 && ftdi.taken == |Chip().resp|
                 && Whole(ftdi.written + packet)
                 && Clocked(ftdi.device.target, Chip(), c', cs, doRead)
                 && c'.tms == TmsPin(c'.trace)
      modifies this`recvBufferLen, recvBuffer, ftdi
      ensures Linked() && ftdi.broken == (old(ftdi.broken) || !ok)
      ensures ok ==> recvBufferLen == old(recvBufferLen) + if doRead then len else 0
      ensures !ftdi.broken ==>
                && ftdi.taken == |Chip().resp|
                && Clocked(ftdi.device.target, old(Chip()), Chip(), cs, doRead)
                && old(Chip()).resp <= Chip().resp
                && recvBuffer[..recvBufferLen] ==
                   old(recvBuffer[..recvBufferLen]) + Chip().resp[|old(Chip().resp)|..]
      ensures ok ==> ftdi.written == old(ftdi.written) + packet
    {
      hide Parse, Step, Exec, Whole, TmsPin, Samples;
      ok := ftdi.WriteRetry(packet);
      if !ok {
        return;
      }
      if doRead {
        ok := Collect(len);
      }
    }

    /** Whole bytes, then the remaining bits, then the last bit along with TMS=1. The program ends here if a scan has not
        been read back; that takes a transfer that was given up before. */
    method ScanChainSend(data: seq<byte>, n: nat, flipTms: bool, doRead: bool) returns (outcome: Outcome)
      requires Valid() && n <= 8 * |data| && (flipTms ==> n > 0)
      requires doRead ==> RawLength(n, flipTms) <= RECV_BUFFER_SIZE
      requires !ftdi.broken ==> pending == []
      modifies this`recvBufferLen, this`pending, globals`state, recvBuffer, ftdi
      ensures Valid() && ftdi.broken == (old(ftdi.broken) || outcome.Failed?)
      ensures outcome.Died? <==> old(recvBufferLen) != 0
      ensures outcome.Died? ==> old(ftdi.broken)
      ensures outcome.Done? ==>
                globals.state == if flipTms then NextState(old(globals.state), true) else old(globals.state)
      ensures !ftdi.broken ==>
                var cs := PartClocks(TmsPin(old(Chip().trace)), data, n, flipTms);
                && Chip().trace == old(Chip().trace) + cs
                && pending == if doRead then [Job(flipTms, Samples(ftdi.device.target, old(Chip().trace), cs))] else []
      ensures !ftdi.broken && flipTms ==> !Chip().tck
    {
      hide Parse, Step, Exec, Whole, RawCarries, Clocked, Shifted, PartClocks, TmsPin, Samples;
      if recvBufferLen != 0 {
        assert ftdi.broken;
        return Died;
      }
      ghost var job := Job(flipTms, Samples(ftdi.device.target, Chip().trace, PartClocks(Chip().tms, data, n, flipTms)));
      var ok := SendParts(data, n, flipTms, doRead);
      if !ok {
        return Failed;
      }
      outcome := Done;
      pending := if doRead then [job] else [];
    }

    method SendParts(data: seq<byte>, n: nat, flipTms: bool, doRead: bool) returns (ok: bool)
      requires Linked() && recvBufferLen == 0 && n <= 8 * |data| && (flipTms ==> n > 0)
      requires doRead ==> RawLength(n, flipTms) <= RECV_BUFFER_SIZE
      requires !ftdi.broken ==> ftdi.taken == |Chip().resp|
      modifies this`recvBufferLen, globals`state, recvBuffer, ftdi
      ensures Linked() && ftdi.broken == (old(ftdi.broken) || !ok)
      ensures ok ==> globals.state == if flipTms then NextState(old(globals.state), true) else old(globals.state)
      ensures !ftdi.broken ==>
                var cs := PartClocks(old(Chip().tms), data, n, flipTms);
                && ftdi.taken == |Chip().resp|
                && Chip().trace == old(Chip().trace) + cs
                && if doRead then
                     RawCarries(recvBuffer[..recvBufferLen],
                                Job(flipTms, Samples(ftdi.device.target, old(Chip().trace), cs)))
                   else
                     recvBufferLen == 0
      ensures !ftdi.broken && flipTms ==> !Chip().tck
    {
      hide Parse, Step, Exec, Whole, RawCarries, Clocked, Shifted, PartClocks, TmsPin, Samples;
      ghost var t, c := ftdi.device.target, Chip();
      var bulkBits := Bulk(n, flipTms);
      var lengthInBytes := bulkBits / 8;
      ok := SendBytes(data[..lengthInBytes], doRead);
      if !ok {
        return;
      }
      ghost var c1 := Chip();
      ClockedNothing(t, c1, doRead);
      if bulkBits % 8 != 0 {
        ok := SendRest(data, lengthInBytes, bulkBits % 8, doRead);
        if !ok {
          return;
        }
      }
      ghost var c2 := Chip();
      ClockedNothing(t, c2, doRead);
      if !ftdi.broken {
        ResponsesJoin(c.resp, c1.resp, c2.resp);
      }
      assert !ftdi.broken ==> recvBuffer[..recvBufferLen] == c2.resp[|c.resp|..];
      if flipTms {
        globals.state := NextState(globals.state, true);
        var bit := Bit(data[(n - 1) / 8], (n - 1) % 8);
        ok := SendLast(bit, doRead);
        if !ok {
          return;
        }
      }
      if !ftdi.broken {
        PartsMean(t, c, c1, c2, Chip(), data, n, flipTms, doRead);
        ResponsesJoin(c.resp, c2.resp, Chip().resp);
        assert recvBuffer[..recvBufferLen] == Chip().resp[|c.resp|..];
      }
      ok := true;
    }

    /** Hands over the collected bytes of the last reading scan. The program ends here if they are not as many as the scan
        takes; that, too, takes a transfer that was given up before. */
    method ScanChainRecv(recv: array<byte>, n: nat, flipTms: bool) returns (outcome: Outcome)
      requires Valid() && n <= 8 * recv.Length && (flipTms ==> n > 0) && recv != recvBuffer
      requires RawLength(n, flipTms) <= RECV_BUFFER_SIZE
      requires !ftdi.broken ==> pending != [] && pending[0].flipTms == flipTms && |pending[0].samples| == n
      modifies this`pending, this`recvBufferLen, recv
      ensures Valid() && !outcome.Failed? && (outcome.Died? ==> ftdi.broken)
      ensures !ftdi.broken ==> Received(recv[..], old(recv[..]), old(pending)[0]) && pending == []
    {
      hide Parse, Step, Exec, Whole, Bit, SetBit, Received, Copied, WithRest;
      var bulkBits := Bulk(n, flipTms);
      ghost var before, buf := recv[..], recvBuffer[..RawLength(n, flipTms)];
      assert !ftdi.broken ==> RawCarries(buf, pending[0]);
      var offset := CopyBytes(recv, bulkBits);
      CopiedPrefix(before, recvBuffer[..], RawLength(n, flipTms), bulkBits);
      offset := MergeRest(recv, offset, bulkBits % 8, buf);
      if flipTms {
        var lastBit := recvBuffer[offset];
        offset := offset + 1;
        recv[(n - 1) / 8] := SetBit(recv[(n - 1) / 8], (n - 1) % 8, Bit(lastBit, 0));
      }
      assert recv[..] == Unpacked(before, buf, n, flipTms);
      if offset != recvBufferLen {
        assert ftdi.broken;
        return Died;
      }
      if !ftdi.broken {
        UnpackedReceived(before, buf, pending[0]);
      }
      recvBufferLen := 0;
      pending := [];
      outcome := Done;
    }

    /** The left-over bits, a byte each. */
    method MergeRest(recv: array<byte>, from: nat, rest: nat, ghost buf: seq<byte>) returns (offset: nat)
      requires rest < 8 && from + rest <= |buf| <= recvBuffer.Length && buf == recvBuffer[..|buf|]
      requires rest > 0 ==> from < recv.Length
      requires recv != recvBuffer
      modifies recv
      ensures offset == from + rest
      ensures recv[..] == WithRest(old(recv[..]), buf, from, rest)
    {
      hide Bit, SetBit;
      offset := from;
      for i := 0 to rest
        invariant offset == from + i
        invariant recv[..] == WithRest(old(recv[..]), buf, from, i)
      {
        var lastBit := recvBuffer[offset];
        assert lastBit == buf[from + i];
        offset := offset + 1;
        ghost var w := recv[..];
        recv[from] := SetBit(recv[from], i, Bit(lastBit, 0));
        assert recv[..] == w[from := SetBit(w[from], i, Bit(lastBit, 0))];
      }
    }

    method CopyBytes(recv: array<byte>, bulkBits: nat) returns (offset: nat)
      requires bulkBits <= 8 * recv.Length && bulkBits / 8 <= recvBuffer.Length && recv != recvBuffer
      modifies recv
      ensures offset == bulkBits / 8
      ensures recv[..] == Copied(old(recv[..]), recvBuffer[..], bulkBits)
    {
      forall i | 0 <= i < (bulkBits + 7) / 8 {
        recv[i] := 0;
      }
      offset := bulkBits / 8;
      forall i | 0 <= i < offset {
        recv[i] := recvBuffer[i];
      }
    }
  }
}
