/** The USB Blaster: from the bytes it receives to TCK cycles and response bytes.
    Byte-shift mode is taken to clock eight times per byte whatever the level of TCK, and to leave TCK low. */
module BlasterChip {
  import opened Bits
  import opened Tap
  import opened Reference
  import opened Sampling
  import opened Scan

  datatype Cmd =
    | Shift(read: bool, payload: seq<byte>)
    | SetPins(tms: bool, tdi: bool, tck: bool, read: bool)

  datatype Parsed = Incomplete | Parsed(cmd: Cmd, len: nat)

  /** The first command of `s`: bit 7 selects byte-shift mode, with the length in the low six bits. */
  function Parse(s: seq<byte>): (p: Parsed)
    ensures p.Parsed? ==> 0 < p.len <= |s|
  {
    if |s| == 0 then Incomplete
    else if s[0] >= 128 then
      var n := s[0] as int % 64;
      if |s| < 1 + n then Incomplete else Parsed(Shift(Bit(s[0], 6), s[1..1 + n]), 1 + n)
    else Parsed(SetPins(Bit(s[0], 1), Bit(s[0], 4), Bit(s[0], 0), Bit(s[0], 6)), 1)
  }

  datatype Chip = Chip(trace: seq<Clock>, tms: bool, tck: bool, resp: seq<byte>)

  /** As `usb_blaster_init` leaves it: five clocks with TMS high, then TCK low. */
  const POWER_UP := Chip([], true, false, [])

  function ShiftClocks(tms: bool, payload: seq<byte>): (cs: seq<Clock>)
    ensures |cs| == 8 * |payload|
  {
    seq(8 * |payload|, i requires 0 <= i < 8 * |payload| => Clock(tms, BitAt(payload, i)))
  }

  /** The pins read back in bit mode: TDO is bit 0. TDO changes on the falling edge of TCK,
      so while TCK is high it is still the bit of the last clock. */
  function ReadPins(t: Target, trace: seq<Clock>, tck: bool): byte {
    var junk := t.junk(trace);
    var tdo := if tck && |trace| > 0 then Sample(t, trace[..|trace| - 1]) else Sample(t, trace);
    junk / 2 * 2 + if tdo then 1 else 0
  }

  function Step(t: Target, c: Chip, cmd: Cmd): Chip {
    match cmd
    case Shift(read, payload) =>
      var cs := ShiftClocks(c.tms, payload);
      Chip(c.trace + cs, c.tms, false, c.resp + if read then Answer(t, c.trace, cs) else [])
    case SetPins(tms, tdi, tck, read) =>
      var trace := if tck && !c.tck then c.trace + [Clock(tms, tdi)] else c.trace;
      Chip(trace, tms, tck, c.resp + if read then [ReadPins(t, trace, tck)] else [])
  }

  function Exec(t: Target, c: Chip, s: seq<byte>): Chip
    decreases |s|
  {
    var p := Parse(s);
    if p.Incomplete? then c else Exec(t, Step(t, c, p.cmd), s[p.len..])
  }

  /** `s` is a whole number of commands. */
  predicate Whole(s: seq<byte>)
    decreases |s|
  {
    s == [] || (Parse(s).Parsed? && Whole(s[Parse(s).len..]))
  }

  lemma ParsePrefix(a: seq<byte>, b: seq<byte>)
    requires Parse(a).Parsed?
    ensures Parse(a + b) == Parse(a)
    ensures (a + b)[Parse(a).len..] == a[Parse(a).len..] + b
  {
    var p := Parse(a);
    if p.cmd.Shift? {
      assert (a + b)[1..p.len] == a[1..p.len];
    }
  }

  /** The byte stream is unambiguous: what follows a whole number of commands does not change their meaning. */
  lemma {:induction false} ExecAppend(t: Target, c: Chip, a: seq<byte>, b: seq<byte>)
    requires Whole(a)
    ensures Exec(t, c, a + b) == Exec(t, Exec(t, c, a), b)
    ensures Whole(b) ==> Whole(a + b)
    decreases |a|
  {
    if a == [] {
      assert a + b == b;
    } else {
      ParsePrefix(a, b);
      ExecAppend(t, Step(t, c, Parse(a).cmd), a[Parse(a).len..], b);
    }
  }

  /** The command byte of `build_command`; its flags are distinct bits, so OR is addition.
      nCE, nCS and the LED are always set. */
  function BuildCommand(tms: bool, tdi: bool, tck: bool, read: bool): byte {
    44 + (if tck then 1 else 0) + (if tms then 2 else 0) + (if tdi then 16 else 0) + (if read then 64 else 0)
  }

  /** The bits of a command byte: TCK, TMS, nCE, nCS, TDI, LED, read and, for pin writes, a zero. */
  lemma CommandBits(tms: bool, tdi: bool, tck: bool, read: bool)
    ensures var b := BuildCommand(tms, tdi, tck, read);
            && (b % 2 == 1 <==> tck) && (b / 2 % 2 == 1 <==> tms) && b / 4 % 2 == 1 && b / 8 % 2 == 1
            && (b / 16 % 2 == 1 <==> tdi) && b / 32 % 2 == 1 && (b / 64 % 2 == 1 <==> read) && b / 128 == 0
  {
  }

  lemma CommandMeans(tms: bool, tdi: bool, tck: bool, read: bool, rest: seq<byte>)
    ensures Parse([BuildCommand(tms, tdi, tck, read)] + rest) == Parsed(SetPins(tms, tdi, tck, read), 1)
  {
    var b := BuildCommand(tms, tdi, tck, read);
    var r6 := if read then 1 else 0;
    var r4 := (if tdi then 1 else 0) + 2 * (1 + 2 * r6);
    var r1 := (if tms then 1 else 0) + 2 * (1 + 2 * (1 + 2 * r4));
    assert b == (if tck then 1 else 0) + 2 * r1;
    assert Bit(b, 0) == tck && Bit(b, 1) == Bit(r1, 0) == tms;
    ShrBits(b, 4, 0);
    ShrBits(b, 4, 2);
    assert b / 2 == r1 && r1 / 2 / 2 / 2 == r4;
    assert Shr(b, 4) == Shr(r1, 3) == Shr(r1 / 2, 2) == Shr(r1 / 2 / 2, 1) == Shr(r4, 0) == r4;
    assert Bit(r4, 2) == Bit(1 + 2 * r6, 1) == Bit(r6, 0);
  }

  /** TCK low then high is one clock. */
  function PulseBytes(c: Clock, read: bool): seq<byte> {
    [BuildCommand(c.tms, c.tdi, false, false), BuildCommand(c.tms, c.tdi, true, read)]
  }

  lemma {:induction false} ExecPins(t: Target, c: Chip, tms: bool, tdi: bool, tck: bool, read: bool)
    ensures var s := [BuildCommand(tms, tdi, tck, read)];
            Whole(s) && Exec(t, c, s) == Step(t, c, SetPins(tms, tdi, tck, read))
  {
    CommandMeans(tms, tdi, tck, read, []);
    var s := [BuildCommand(tms, tdi, tck, read)];
    assert s + [] == s && s[1..] == [];
  }

  lemma {:induction false} PulseMeans(t: Target, c: Chip, k: Clock, read: bool)
    ensures Whole(PulseBytes(k, read))
    ensures Exec(t, c, PulseBytes(k, read)) ==
            Chip(c.trace + [k], k.tms, true, c.resp + if read then [ReadPins(t, c.trace + [k], true)] else [])
    ensures Bit(ReadPins(t, c.trace + [k], true), 0) == Sample(t, c.trace)
  {
    var lo, hi := [BuildCommand(k.tms, k.tdi, false, false)], [BuildCommand(k.tms, k.tdi, true, read)];
    assert PulseBytes(k, read) == lo + hi;
    ExecPins(t, c, k.tms, k.tdi, false, false);
    ExecPins(t, Exec(t, c, lo), k.tms, k.tdi, true, read);
    ExecAppend(t, c, lo, hi);
    assert c.resp + [] == c.resp;
    assert (c.trace + [k])[..|c.trace + [k]| - 1] == c.trace;
  }

  /** Bit mode: one pulse for each clock. */
  function Pulses(cs: seq<Clock>, read: bool): seq<byte> {
    if cs == [] then [] else Pulses(cs[..|cs| - 1], read) + PulseBytes(cs[|cs| - 1], read)
  }

  lemma {:induction false} PulsesSnoc(cs: seq<Clock>, i: nat, read: bool)
    requires i < |cs|
    ensures Pulses(cs[..i + 1], read) == Pulses(cs[..i], read) +
            [BuildCommand(cs[i].tms, cs[i].tdi, false, false)] + [BuildCommand(cs[i].tms, cs[i].tdi, true, read)]
  {
    assert cs[..i + 1][..i] == cs[..i];
  }

  /** One response byte for each sample, in bit 0. */
  ghost predicate Raw(resp: seq<byte>, samples: seq<bool>) {
    |resp| == |samples| && forall i | 0 <= i < |samples| :: Bit(resp[i], 0) == samples[i]
  }

  /** From `c`, the engine clocked exactly `cs` to reach `c'` and, when reading, answered with exactly their samples. */
  ghost predicate Clocked(t: Target, c: Chip, c': Chip, cs: seq<Clock>, read: bool) {
    && c'.trace == c.trace + cs
    && c'.tms == (if cs == [] then c.tms else cs[|cs| - 1].tms)
    && c.resp <= c'.resp
    && if read then Raw(c'.resp[|c.resp|..], Samples(t, c.trace, cs)) else c'.resp == c.resp
  }

  lemma {:induction false} ClockedOnce(t: Target, c: Chip, c1: Chip, cs: seq<Clock>, k: Clock, read: bool, last: byte)
    requires Clocked(t, c, c1, cs, read) && Bit(last, 0) == Sample(t, c1.trace)
    ensures Clocked(t, c, Chip(c1.trace + [k], k.tms, true, c1.resp + if read then [last] else []), cs + [k], read)
  {
    assert c1.trace + [k] == c.trace + (cs + [k]);
    if read {
      SamplesSnoc(t, c.trace, cs, k);
      assert (c1.resp + [last])[|c.resp|..] == c1.resp[|c.resp|..] + [last];
    }
  }

  lemma {:induction false} PulsesMean(t: Target, c: Chip, cs: seq<Clock>, read: bool)
    ensures Whole(Pulses(cs, read))
    ensures Clocked(t, c, Exec(t, c, Pulses(cs, read)), cs, read)
  {
    if cs == [] {
      assert c.trace + cs == c.trace;
    } else {
      var init, k := cs[..|cs| - 1], cs[|cs| - 1];
      assert cs == init + [k];
      PulsesMean(t, c, init, read);
      var c1 := Exec(t, c, Pulses(init, read));
      PulseMeans(t, c1, k, read);
      ExecAppend(t, c, Pulses(init, read), PulseBytes(k, read));
      ClockedOnce(t, c, c1, init, k, read, ReadPins(t, c1.trace + [k], true));
    }
  }

  /** Byte-shift mode clocks exactly its payload. */
  lemma {:induction false} ShiftMeans(t: Target, c: Chip, read: bool, payload: seq<byte>)
    requires |payload| <= 32
    ensures var s := [128 + (if read then 64 else 0) + |payload| as byte] + payload;
            Whole(s) && Exec(t, c, s) == Step(t, c, Shift(read, payload))
  {
    var h: byte := 128 + (if read then 64 else 0) + |payload| as byte;
    var s := [h] + payload;
    Pow2Of8();
    assert Bit(h, 6) == read by {
      var low: byte := 64 * (if read then 1 else 0) + |payload| as byte;
      assert Pow2(6) == 64 by { assert Pow2(3) == 8; }
      TopBit(|payload|, 6, read, 6);
      TopBit(low, 7, true, 6);
    }
    assert s[1..] == payload && s[1..1 + |payload|] == payload;
    assert h as int % 64 == |payload|;
    assert Parse(s) == Parsed(Shift(read, payload), |s|);
    assert s[|s|..] == [];
  }

  /** From `c`, the engine shifted exactly `payload` to reach `c'` and, when reading, answered with its samples. */
  ghost predicate Shifted(t: Target, c: Chip, c': Chip, payload: seq<byte>, read: bool) {
    var cs := ShiftClocks(c.tms, payload);
    && c'.trace == c.trace + cs
    && c'.tms == c.tms
    && c.resp <= c'.resp
    && if read then HoldsSamples(c'.resp[|c.resp|..], Samples(t, c.trace, cs)) else c'.resp == c.resp
  }

  lemma ShiftAnswers(t: Target, c: Chip, packet: seq<byte>)
    ensures var c' := Step(t, c, Shift(true, packet));
            c.resp <= c'.resp && |c'.resp| == |c.resp| + |packet|
  {
  }

  lemma ShiftedNothing(t: Target, c: Chip, read: bool)
    ensures Shifted(t, c, c, [], read)
  {
    assert c.trace + [] == c.trace;
  }

  /** Packets add up: where a payload is cut makes no difference. */
  lemma ShiftedMore(t: Target, c: Chip, c1: Chip, done: seq<byte>, packet: seq<byte>, read: bool)
    requires Shifted(t, c, c1, done, read)
    ensures Shifted(t, c, Step(t, c1, Shift(read, packet)), done + packet, read)
  {
    hide Answer, Samples, HoldsSamples;
    var a, b := ShiftClocks(c.tms, done), ShiftClocks(c.tms, packet);
    assert ShiftClocks(c.tms, done + packet) == a + b;
    assert c.trace + a + b == c.trace + (a + b);
    if read {
      SamplesAppend(t, c.trace, a, b);
      AnswerHolds(t, c1.trace, b);
      var x, y := c1.resp[|c.resp|..], Answer(t, c1.trace, b);
      HoldsAppend(x, Samples(t, c.trace, a), y, Samples(t, c1.trace, b));
      assert (c1.resp + y)[|c.resp|..] == x + y;
    } else {
      assert c1.resp + [] == c1.resp;
    }
  }

  /** The number of bytes `usb_blaster_jtag_scan_chain_send` collects for a read of `n` bits. */
  function RawLength(n: nat, flipTms: bool): nat
    requires flipTms ==> n > 0
  {
    Bulk(n, flipTms) / 8 + Bulk(n, flipTms) % 8 + if flipTms then 1 else 0
  }

  /** The bit of the collected bytes that carries sample `i`. */
  predicate RawLocated(resp: seq<byte>, n: nat, flipTms: bool, i: nat)
    requires i < n && |resp| == RawLength(n, flipTms)
  {
    var bulk := Bulk(n, flipTms);
    if i == bulk then Bit(resp[|resp| - 1], 0)
    else if i / 8 < bulk / 8 then Bit(resp[i / 8], i % 8)
    else Bit(resp[bulk / 8 + i % 8], 0)
  }

  ghost predicate RawCarries(resp: seq<byte>, j: Job) {
    && ValidJob(j)
    && |resp| == RawLength(|j.samples|, j.flipTms)
    && forall i | 0 <= i < |j.samples| :: RawLocated(resp, |j.samples|, j.flipTms, i) == j.samples[i]
  }

  lemma RawLocatedInPieces(x: seq<byte>, y: seq<byte>, z: seq<byte>, a: seq<bool>, b: seq<bool>, f: seq<bool>,
                           flipTms: bool, i: nat)
    requires |a| % 8 == 0 && |b| < 8 && |f| == (if flipTms then 1 else 0) && i < |a| + |b| + |f|
    requires HoldsSamples(x, a) && Raw(y, b) && Raw(z, f)
    ensures |x + y + z| == RawLength(|a + b + f|, flipTms)
    ensures RawLocated(x + y + z, |a + b + f|, flipTms, i) == (a + b + f)[i]
  {
    var r := x + y + z;
    var bulk := |a| + |b|;
    assert Bulk(|a + b + f|, flipTms) == bulk && bulk / 8 == |a| / 8 && bulk % 8 == |b|;
    if i < |a| {
      assert i / 8 < |a| / 8 && r[i / 8] == x[i / 8];
    } else if i < bulk {
      var k := i - |a|;
      assert i / 8 == |a| / 8 && i % 8 == k && r[bulk / 8 + k] == y[k];
      assert b[k] == Bit(y[k], 0);
    } else {
      assert r[|r| - 1] == z[0];
      assert f[0] == Bit(z[0], 0);
    }
  }

  /** The answers to the three parts of a reading scan, put together, carry its samples. */
  lemma RawAnswersCarry(x: seq<byte>, y: seq<byte>, z: seq<byte>, a: seq<bool>, b: seq<bool>, f: seq<bool>,
                        flipTms: bool)
    requires |a| % 8 == 0 && |b| < 8 && |f| == (if flipTms then 1 else 0)
    requires HoldsSamples(x, a) && Raw(y, b) && Raw(z, f)
    ensures RawCarries(x + y + z, Job(flipTms, a + b + f))
  {
    assert |x + y + z| == RawLength(|a + b + f|, flipTms);
    forall i | 0 <= i < |a + b + f|
      ensures RawLocated(x + y + z, |a + b + f|, flipTms, i) == (a + b + f)[i]
    {
      RawLocatedInPieces(x, y, z, a, b, f, flipTms, i);
    }
  }

  /** The log of an engine that powered up with it, extended by a packet in byte-shift mode ... */
  lemma {:induction false} LogShift(t: Target, log: seq<byte>, read: bool, payload: seq<byte>)
    requires Whole(log) && |payload| <= 32
    ensures var s := [128 + (if read then 64 else 0) + |payload| as byte] + payload;
            && Whole(log + s)
            && Exec(t, POWER_UP, log + s) == Step(t, Exec(t, POWER_UP, log), Shift(read, payload))
  {
    var s := [128 + (if read then 64 else 0) + |payload| as byte] + payload;
    ShiftMeans(t, Exec(t, POWER_UP, log), read, payload);
    ExecAppend(t, POWER_UP, log, s);
  }

  /** ... or by pulses in bit mode ... */
  lemma {:induction false} LogPulses(t: Target, log: seq<byte>, cs: seq<Clock>, read: bool)
    requires Whole(log)
    ensures Whole(log + Pulses(cs, read))
    ensures Clocked(t, Exec(t, POWER_UP, log), Exec(t, POWER_UP, log + Pulses(cs, read)), cs, read)
  {
    PulsesMean(t, Exec(t, POWER_UP, log), cs, read);
    ExecAppend(t, POWER_UP, log, Pulses(cs, read));
  }

  /** ... after which TCK may be lowered. */
  lemma {:induction false} LogPulsesLow(t: Target, log: seq<byte>, cs: seq<Clock>, read: bool)
    requires Whole(log) && cs != []
    ensures var s := Pulses(cs, read) + [BuildCommand(cs[|cs| - 1].tms, cs[|cs| - 1].tdi, false, false)];
            && Whole(log + s)
            && Clocked(t, Exec(t, POWER_UP, log), Exec(t, POWER_UP, log + s), cs, read)
            && !Exec(t, POWER_UP, log + s).tck
  {
    var k := cs[|cs| - 1];
    var low := [BuildCommand(k.tms, k.tdi, false, false)];
    var log' := log + Pulses(cs, read);
    LogPulses(t, log, cs, read);
    ExecPins(t, Exec(t, POWER_UP, log'), k.tms, k.tdi, false, false);
    ExecAppend(t, POWER_UP, log', low);
    assert log + (Pulses(cs, read) + low) == log' + low;
    var c := Exec(t, POWER_UP, log');
    assert c.resp + [] == c.resp;
  }
}
