/** The FTDI MPSSE engine: from the bytes it receives to TCK cycles and response bytes. */
module MpsseChip {
  import opened Bits
  import opened Tap
  import opened Reference
  import opened Sampling
  import opened Scan

  datatype Cmd =
    | TmsBits(read: bool, len: nat, data: byte)
    | Bytes(read: bool, payload: seq<byte>)
    | DataBits(read: bool, len: nat, data: byte)
    | ClockOnly(clocks: nat)
    | NoClock

  datatype Parsed = Incomplete | Parsed(cmd: Cmd, len: nat)

  /** The 16-bit length operand, which is sent as length minus one. */
  function Operand(s: seq<byte>): nat
    requires |s| >= 3
  {
    s[1] as int + 256 * s[2] as int + 1
  }

  /** The first command of `s`. */
  function Parse(s: seq<byte>): (p: Parsed)
    ensures p.Parsed? ==> 0 < p.len <= |s|
  {
    if |s| == 0 then Incomplete
    else if s[0] == 0x87 || s[0] == 0x8A then Parsed(NoClock, 1)
    else if |s| < 2 then Incomplete
    else if s[0] == 0x8E then Parsed(ClockOnly(s[1] as int + 1), 2)
    else if |s| < 3 then Incomplete
    else if s[0] == 0x86 then Parsed(NoClock, 3)
    else if s[0] == 0x8F then Parsed(ClockOnly(8 * Operand(s)), 3)
    else if (s[0] == 0x4B || s[0] == 0x6B) && s[1] < 8 then Parsed(TmsBits(s[0] == 0x6B, s[1] as int + 1, s[2]), 3)
    else if (s[0] == 0x1B || s[0] == 0x3B) && s[1] < 8 then Parsed(DataBits(s[0] == 0x3B, s[1] as int + 1, s[2]), 3)
    else if s[0] == 0x19 || s[0] == 0x39 then
      var n := Operand(s);
      if |s| < 3 + n then Incomplete else Parsed(Bytes(s[0] == 0x39, s[3..3 + n]), 3 + n)
    else Incomplete
  }

  /** The pin levels the engine is left at. They start as `mpsse_init` sets them: TMS high, TDI low. */
  function Pins(trace: seq<Clock>): Clock {
    if |trace| == 0 then Clock(true, false) else trace[|trace| - 1]
  }

  /** The TCK cycles of a command. TMS commands send `len` bits of the byte on TMS and bit 7 on TDI;
      data commands send TDI and hold TMS; clock-only commands hold both. */
  function Clocks(cmd: Cmd, pins: Clock): seq<Clock> {
    match cmd
    case TmsBits(_, len, data) => seq(len, i requires 0 <= i < len => Clock(Bit(data, i), Bit(data, 7)))
    case Bytes(_, payload) =>
      seq(8 * |payload|, i requires 0 <= i < 8 * |payload| => Clock(pins.tms, BitAt(payload, i)))
    case DataBits(_, len, data) => seq(len, i requires 0 <= i < len => Clock(pins.tms, Bit(data, i)))
    case ClockOnly(n) => seq(n, i => pins)
    case NoClock => []
  }

  predicate Reads(cmd: Cmd) {
    (cmd.TmsBits? || cmd.Bytes? || cmd.DataBits?) && cmd.read
  }

  /** Everything clocked so far, and every response byte ever produced. */
  datatype Chip = Chip(trace: seq<Clock>, resp: seq<byte>)

  const POWER_UP := Chip([], [])

  function Step(t: Target, c: Chip, cmd: Cmd): Chip {
    var cs := Clocks(cmd, Pins(c.trace));
    Chip(c.trace + cs, c.resp + if Reads(cmd) then Answer(t, c.trace, cs) else [])
  }

  function Exec(t: Target, c: Chip, s: seq<byte>): Chip
    decreases |s|
  {
    var p := Parse(s);
    if p.Incomplete? then c else Exec(t, Step(t, c, p.cmd), s[p.len..])
  }

  /** `s` is a whole number of commands. */
  predicate Whole(s: seq<byte>)
    decreases |s|
  {
    s == [] || (Parse(s).Parsed? && Whole(s[Parse(s).len..]))
  }

  predicate IsCommand(s: seq<byte>, cmd: Cmd) {
    Parse(s) == Parsed(cmd, |s|)
  }

  lemma ParsePrefix(a: seq<byte>, b: seq<byte>)
    requires Parse(a).Parsed?
    ensures Parse(a + b) == Parse(a)
    ensures (a + b)[Parse(a).len..] == a[Parse(a).len..] + b
  {
    var p := Parse(a);
    if p.cmd.Bytes? {
      assert (a + b)[3..p.len] == a[3..p.len];
    }
  }

  lemma {:induction false} WholeAppend(a: seq<byte>, b: seq<byte>)
    requires Whole(a) && Whole(b)
    ensures Whole(a + b)
    decreases |a|
  {
    if a == [] {
      assert a + b == b;
    } else {
      ParsePrefix(a, b);
      WholeAppend(a[Parse(a).len..], b);
    }
  }

  /** The byte stream is unambiguous: what follows a whole number of commands does not change their meaning. */
  lemma {:induction false} ExecAppend(t: Target, c: Chip, a: seq<byte>, b: seq<byte>)
    requires Whole(a)
    ensures Exec(t, c, a + b) == Exec(t, Exec(t, c, a), b)
    decreases |a|
  {
    if a == [] {
      assert a + b == b;
    } else {
      ParsePrefix(a, b);
      ExecAppend(t, Step(t, c, Parse(a).cmd), a[Parse(a).len..], b);
    }
  }

  lemma {:induction false} CommandIsWhole(s: seq<byte>, cmd: Cmd)
    requires IsCommand(s, cmd)
    ensures Whole(s)
  {
    assert s[|s|..] == [];
  }

  /** A log that stays a whole number of commands, executed by an engine that powered up with it. */
  ghost predicate Extends(t: Target, log: seq<byte>, log': seq<byte>, cmd: Cmd) {
    Whole(log) ==> Whole(log') && Exec(t, POWER_UP, log') == Step(t, Exec(t, POWER_UP, log), cmd)
  }

  lemma ExecCommand(t: Target, log: seq<byte>, s: seq<byte>, cmd: Cmd)
    requires IsCommand(s, cmd)
    ensures Extends(t, log, log + s, cmd)
  {
    if Whole(log) {
      CommandIsWhole(s, cmd);
      WholeAppend(log, s);
      ExecAppend(t, POWER_UP, log, s);
      assert s[|s|..] == [];
    }
  }

  lemma LogTmsBits(t: Target, log: seq<byte>, read: bool, len: nat, data: byte)
    requires 0 < len <= 8
    ensures Extends(t, log, log + ([if read then 0x6B else 0x4B, len - 1, data] + []), TmsBits(read, len, data))
  {
    var s: seq<byte> := [if read then 0x6B else 0x4B, len - 1, data];
    assert s + [] == s;
    ExecCommand(t, log, s, TmsBits(read, len, data));
  }

  lemma LogDataBits(t: Target, log: seq<byte>, read: bool, len: nat, data: byte)
    requires 0 < len <= 8
    ensures Extends(t, log, log + ([if read then 0x3B else 0x1B, len - 1, data] + []), DataBits(read, len, data))
  {
    var s: seq<byte> := [if read then 0x3B else 0x1B, len - 1, data];
    assert s + [] == s;
    ExecCommand(t, log, s, DataBits(read, len, data));
  }

  lemma LogBytes(t: Target, log: seq<byte>, read: bool, payload: seq<byte>)
    requires 0 < |payload| <= 0x1_0000
    ensures Extends(t, log,
                    log + ([if read then 0x39 else 0x19, (|payload| - 1) % 256, (|payload| - 1) / 256] + payload),
                    Bytes(read, payload))
  {
    var s: seq<byte> := [if read then 0x39 else 0x19, (|payload| - 1) % 256, (|payload| - 1) / 256] + payload;
    assert Operand(s) == |payload|;
    assert s[3..3 + |payload|] == payload;
    ExecCommand(t, log, s, Bytes(read, payload));
  }

  lemma LogClockBytes(t: Target, log: seq<byte>, n: nat)
    requires 0 < n <= 0x1_0000
    ensures Extends(t, log, log + [0x8F, (n - 1) % 256, (n - 1) / 256], ClockOnly(8 * n))
  {
    var s: seq<byte> := [0x8F, (n - 1) % 256, (n - 1) / 256];
    assert Operand(s) == n;
    ExecCommand(t, log, s, ClockOnly(8 * n));
  }

  lemma LogClockBits(t: Target, log: seq<byte>, n: nat)
    requires 0 < n <= 8
    ensures Extends(t, log, log + [0x8E, n - 1], ClockOnly(n))
  {
    ExecCommand(t, log, [0x8E, n - 1], ClockOnly(n));
  }

  lemma LogSendImmediate(t: Target, log: seq<byte>)
    ensures Extends(t, log, log + [0x87], NoClock)
  {
    ExecCommand(t, log, [0x87], NoClock);
  }

  lemma LogDivisor(t: Target, log: seq<byte>, divisor: byte)
    ensures Extends(t, log, log + [0x86, divisor, 0x00], NoClock)
    ensures Extends(t, log + [0x86, divisor, 0x00], log + [0x86, divisor, 0x00, 0x8A], NoClock)
  {
    var s := [0x86, divisor, 0x00];
    ExecCommand(t, log, s, NoClock);
    ExecCommand(t, log + s, [0x8A], NoClock);
    assert log + s + [0x8A] == log + [0x86, divisor, 0x00, 0x8A];
  }

  lemma NoClockMeans(t: Target, c: Chip)
    ensures Step(t, c, NoClock) == c
  {
    assert c.trace + [] == c.trace && c.resp + [] == c.resp;
  }

  /** The number of response bytes a read of `n` bits produces. */
  function ResponseLength(n: nat, flipTms: bool): nat
    requires flipTms ==> n > 0
  {
    (Bulk(n, flipTms) + 7) / 8 + if flipTms then 1 else 0
  }

  /** The bit of a response that carries sample `i`: partial bytes are filled from the top,
      and the bit sent with TMS=1 has a byte of its own. */
  predicate Located(resp: seq<byte>, n: nat, flipTms: bool, i: nat)
    requires i < n && |resp| == ResponseLength(n, flipTms)
  {
    var bulk := Bulk(n, flipTms);
    if i == bulk then Bit(resp[|resp| - 1], 7)
    else if i / 8 < bulk / 8 then Bit(resp[i / 8], i % 8)
    else Bit(resp[i / 8], 8 - bulk % 8 + i % 8)
  }

  ghost predicate Carries(resp: seq<byte>, j: Job) {
    && ValidJob(j)
    && |resp| == ResponseLength(|j.samples|, j.flipTms)
    && forall i | 0 <= i < |j.samples| :: Located(resp, |j.samples|, j.flipTms, i) == j.samples[i]
  }

  /** `resp` is the responses of `jobs`, one after the other. */
  ghost predicate CarriesAll(resp: seq<byte>, jobs: seq<Job>)
    decreases jobs
  {
    if jobs == [] then resp == []
    else
      && ValidJob(jobs[0])
      && var n := ResponseLength(|jobs[0].samples|, jobs[0].flipTms);
      && n <= |resp|
      && Carries(resp[..n], jobs[0])
      && CarriesAll(resp[n..], jobs[1..])
  }

  lemma {:induction false} CarriesAppend(resp: seq<byte>, jobs: seq<Job>, ext: seq<byte>, j: Job)
    requires CarriesAll(resp, jobs) && Carries(ext, j)
    ensures CarriesAll(resp + ext, jobs + [j])
    decreases jobs
  {
    if jobs == [] {
      assert resp + ext == ext && ext[..|ext|] == ext && ext[|ext|..] == [];
      assert (jobs + [j])[1..] == [];
    } else {
      var n := ResponseLength(|jobs[0].samples|, jobs[0].flipTms);
      assert (resp + ext)[..n] == resp[..n] && (resp + ext)[n..] == resp[n..] + ext;
      assert (jobs + [j])[1..] == jobs[1..] + [j];
      CarriesAppend(resp[n..], jobs[1..], ext, j);
    }
  }

  /** The engine after the whole bytes of a scan. */
  function AfterBytes(t: Target, c: Chip, data: seq<byte>, bulk: nat, read: bool): Chip
    requires bulk <= 8 * |data|
  {
    if bulk / 8 == 0 then c else Step(t, c, Bytes(read, data[..bulk / 8]))
  }

  /** ... after its remaining bits ... */
  function AfterBits(t: Target, c: Chip, data: seq<byte>, bulk: nat, read: bool): Chip
    requires bulk <= 8 * |data|
  {
    if bulk % 8 == 0 then c else Step(t, c, DataBits(read, bulk % 8, data[bulk / 8]))
  }

  /** ... and after the bit that goes with TMS=1. */
  function AfterFlip(t: Target, c: Chip, bit: bool, flipTms: bool, read: bool): Chip {
    if flipTms then Step(t, c, TmsBits(read, 1, if bit then 129 else 1)) else c
  }

  function AfterScan(t: Target, c: Chip, data: seq<byte>, n: nat, flipTms: bool, read: bool): Chip
    requires n <= 8 * |data| && (flipTms ==> n > 0)
  {
    var bulk := Bulk(n, flipTms);
    var c1 := AfterBytes(t, c, data, bulk, read);
    var c2 := AfterBits(t, c1, data, bulk, read);
    AfterFlip(t, c2, n > 0 && BitAt(data, n - 1), flipTms, read)
  }

  lemma BytesMean(t: Target, c: Chip, data: seq<byte>, n: nat, flipTms: bool, read: bool)
    requires n <= 8 * |data| && (flipTms ==> n > 0)
    ensures var bulk := Bulk(n, flipTms);
            var a := ScanClocks(TmsPin(c.trace), data, n, flipTms)[..bulk / 8 * 8];
            AfterBytes(t, c, data, bulk, read) ==
            Chip(c.trace + a, c.resp + if read then Answer(t, c.trace, a) else [])
  {
    var bulk := Bulk(n, flipTms);
    var a := ScanClocks(TmsPin(c.trace), data, n, flipTms)[..bulk / 8 * 8];
    if bulk / 8 == 0 {
      assert a == [];
      assert c.trace + a == c.trace;
      assert c.resp + (if read then Answer(t, c.trace, a) else []) == c.resp;
    } else {
      assert Clocks(Bytes(read, data[..bulk / 8]), Pins(c.trace)) == a;
    }
  }

  lemma BitsMean(t: Target, c: Chip, pin: bool, data: seq<byte>, n: nat, flipTms: bool, read: bool)
    requires n <= 8 * |data| && (flipTms ==> n > 0)
    requires pin == TmsPin(c.trace)
    ensures var bulk := Bulk(n, flipTms);
            var b := ScanClocks(pin, data, n, flipTms)[bulk / 8 * 8..bulk];
            AfterBits(t, c, data, bulk, read) ==
            Chip(c.trace + b, c.resp + if read then Answer(t, c.trace, b) else [])
  {
    hide Answer;
    var bulk := Bulk(n, flipTms);
    var b := ScanClocks(pin, data, n, flipTms)[bulk / 8 * 8..bulk];
    if bulk % 8 == 0 {
      assert b == [];
      assert c.trace + b == c.trace;
      assert c.resp + (if read then Answer(t, c.trace, b) else []) == c.resp;
    } else {
      assert Clocks(DataBits(read, bulk % 8, data[bulk / 8]), Pins(c.trace)) == b;
    }
  }

  lemma FlipMeans(t: Target, c: Chip, pin: bool, data: seq<byte>, n: nat, flipTms: bool, read: bool)
    requires n <= 8 * |data| && (flipTms ==> n > 0)
    ensures var f := ScanClocks(pin, data, n, flipTms)[Bulk(n, flipTms)..];
            AfterFlip(t, c, n > 0 && BitAt(data, n - 1), flipTms, read) ==
            Chip(c.trace + f, c.resp + if read then Answer(t, c.trace, f) else [])
  {
    var f := ScanClocks(pin, data, n, flipTms)[Bulk(n, flipTms)..];
    if flipTms {
      var bit := BitAt(data, n - 1);
      Pow2Of8();
      TopBit(1, 7, bit, 7);
      assert Clocks(TmsBits(read, 1, if bit then 129 else 1), Pins(c.trace)) == [Clock(true, bit)] == f;
    } else {
      assert f == [];
      assert c.trace + f == c.trace;
      assert c.resp + (if read then Answer(t, c.trace, f) else []) == c.resp;
    }
  }

  lemma LocatedInPieces(x: seq<byte>, y: seq<byte>, z: seq<byte>, a: seq<bool>, b: seq<bool>, f: seq<bool>,
                        flipTms: bool, i: nat)
    requires |a| % 8 == 0 && |b| < 8 && |f| == (if flipTms then 1 else 0) && i < |a| + |b| + |f|
    requires HoldsSamples(x, a) && HoldsSamples(y, b) && HoldsSamples(z, f)
    ensures |x + y + z| == ResponseLength(|a + b + f|, flipTms)
    ensures Located(x + y + z, |a + b + f|, flipTms, i) == (a + b + f)[i]
  {
    var r := x + y + z;
    var bulk := |a| + |b|;
    assert Bulk(|a + b + f|, flipTms) == bulk && bulk / 8 == |a| / 8 && bulk % 8 == |b|;
    if i < |a| {
      assert i / 8 < |a| / 8 && r[i / 8] == x[i / 8];
    } else if i < bulk {
      var k := i - |a|;
      assert i / 8 == |a| / 8 && i % 8 == k && k / 8 == 0 && r[i / 8] == y[0];
      assert b[k] == Bit(y[0], 8 - |b| + k);
    } else {
      assert r[|r| - 1] == z[0];
      assert f[0] == Bit(z[0], 7);
    }
  }

  /** The answers to the three parts of a reading scan, put together, carry its samples. */
  lemma AnswersCarry(x: seq<byte>, y: seq<byte>, z: seq<byte>, a: seq<bool>, b: seq<bool>, f: seq<bool>, flipTms: bool)
    requires |a| % 8 == 0 && |b| < 8 && |f| == (if flipTms then 1 else 0)
    requires HoldsSamples(x, a) && HoldsSamples(y, b) && HoldsSamples(z, f)
    ensures Carries(x + y + z, Job(flipTms, a + b + f))
  {
    assert |x + y + z| == ResponseLength(|a + b + f|, flipTms);
    forall i | 0 <= i < |a + b + f|
      ensures Located(x + y + z, |a + b + f|, flipTms, i) == (a + b + f)[i]
    {
      LocatedInPieces(x, y, z, a, b, f, flipTms, i);
    }
  }

  lemma Concat4<T>(a: seq<T>, b: seq<T>, c: seq<T>, d: seq<T>)
    ensures a + b + c + d == a + (b + c + d)
  {
  }

  lemma PinAfter(trace: seq<Clock>, a: seq<Clock>)
    requires forall i | 0 <= i < |a| :: a[i].tms == TmsPin(trace)
    ensures TmsPin(trace + a) == TmsPin(trace)
  {
    if |a| == 0 {
      assert trace + a == trace;
    }
  }

  /** A scan clocks exactly its bits, and a reading scan answers with exactly their samples. */
  lemma ScanMeans(t: Target, c: Chip, data: seq<byte>, n: nat, flipTms: bool, read: bool)
    requires n <= 8 * |data| && (flipTms ==> n > 0)
    ensures var cs := ScanClocks(TmsPin(c.trace), data, n, flipTms);
            var c' := AfterScan(t, c, data, n, flipTms, read);
            && c'.trace == c.trace + cs
            && c.resp <= c'.resp
            && (read ==> Carries(c'.resp[|c.resp|..], Job(flipTms, Samples(t, c.trace, cs))))
            && (!read ==> c'.resp == c.resp)
  {
    hide Samples, Answer, HoldsSamples, Carries, TmsPin, AfterBytes, AfterBits, AfterFlip;
    var bulk := Bulk(n, flipTms);
    var pin := TmsPin(c.trace);
    var cs := ScanClocks(pin, data, n, flipTms);
    var a, b, f := cs[..bulk / 8 * 8], cs[bulk / 8 * 8..bulk], cs[bulk..];
    assert |a| % 8 == 0 && |b| < 8;
    assert cs == a + b + f;
    var c1 := AfterBytes(t, c, data, bulk, read);
    assert c1 == Chip(c.trace + a, c.resp + if read then Answer(t, c.trace, a) else []) by {
      BytesMean(t, c, data, n, flipTms, read);
    }
    PinAfter(c.trace, a);
    var c2 := AfterBits(t, c1, data, bulk, read);
    assert c2 == Chip(c1.trace + b, c1.resp + if read then Answer(t, c1.trace, b) else []) by {
      BitsMean(t, c1, pin, data, n, flipTms, read);
    }
    var c' := AfterScan(t, c, data, n, flipTms, read);
    assert c' == Chip(c2.trace + f, c2.resp + if read then Answer(t, c2.trace, f) else []) by {
      FlipMeans(t, c2, pin, data, n, flipTms, read);
    }
    Concat4(c.trace, a, b, f);
    if read {
      var x, y, z := Answer(t, c.trace, a), Answer(t, c.trace + a, b), Answer(t, c.trace + a + b, f);
      Concat4(c.resp, x, y, z);
      assert c'.resp[|c.resp|..] == x + y + z;
      AnswerHolds(t, c.trace, a);
      AnswerHolds(t, c.trace + a, b);
      AnswerHolds(t, c.trace + a + b, f);
      SamplesAppend3(t, c.trace, a, b, f);
      AnswersCarry(x, y, z, Samples(t, c.trace, a), Samples(t, c.trace + a, b), Samples(t, c.trace + a + b, f), flipTms);
    }
  }
}
