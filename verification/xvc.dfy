/** The Xilinx virtual cable server: shift commands in, TDO vectors out, reads deferred to the end of a tick. */
module Xvc {
  import opened Bits
  import opened Tap
  import opened Reference
  import opened Scan
  import opened Regions
  import opened Execution
  import opened Packing
  import opened XvcProtocol
  import opened XvcClient
  import opened Jtag
  import opened Tck
  import Mpsse

  datatype ShiftCommand = ShiftCommand(bits: nat, bytes: nat, regions: seq<Region>)

  /** A shift command being run: with the scans `before` still pending, `jobs` will read back what the device has
      answered so far. */
  datatype CommandRun = CommandRun(steps: RegionRun, before: seq<Job>, jobs: seq<Job>)
  {
    ghost predicate At(t: Target, k: nat, now: seq<Clock>, pending: seq<Job>) {
      && steps.At(t, k, now)
      && Sent(steps.want, steps.regions[..k], jobs)
      && pending == before + jobs
    }
  }

  /** Nothing has been run yet. */
  ghost function Begin(s: State, trace: seq<Clock>, before: seq<Job>, cs: seq<Clock>, regions: seq<Region>): CommandRun {
    CommandRun(RegionRun(s, trace, cs, regions, [], []), before, [])
  }

  lemma QuietAt(want: seq<bool>, rs: seq<Region>, k: nat)
    requires QuietInTms(want, rs) && k < |rs| && rs[k].TmsRegion?
    ensures rs[k].begin <= rs[k].end <= |want| && forall i | rs[k].begin <= i < rs[k].end :: !want[i]
  {
  }

  lemma NothingSentYet(rs: seq<Region>)
    ensures Sent([], rs[..0], [])
  {
  }

  lemma SentNone(want: seq<bool>, jobs: seq<Job>)
    requires Sent(want, [], jobs)
    ensures jobs == []
  {
  }

  lemma {:induction false} ShiftExtends(t: Target, run: CommandRun, k: nat, now: seq<Clock>, pending: seq<Job>,
                                        a: seq<Clock>)
    requires k < |run.steps.regions| && run.At(t, k, now, pending)
    requires Homogeneous(run.steps.s, run.steps.cs, run.steps.regions[k])
    requires Executes(run.steps.cs, run.steps.regions[k], a)
    ensures var r := run.steps.regions[k];
            var job := if r.DataRegion? then [Job(r.flipTms, Samples(t, now, a))] else [];
            run.(steps := run.steps.Extend(t, k, a), jobs := run.jobs + job).At(t, k + 1, now + a, pending + job)
  {
    var steps, steps', r := run.steps, run.steps.Extend(t, k, a), run.steps.regions[k];
    hide Serve, Samples, Executes, Homogeneous, QuietInTms, Sent, Progress;
    RunExtends(t, steps, k, now, a);
    var more := steps'.want[|steps.want|..];
    assert steps'.want == steps.want + more;
    SentMore(steps.s, steps.cs, steps.regions, k, steps.want, run.jobs, more);
    assert r.DataRegion? ==> more == steps'.want[r.begin..r.end];
    var job := if r.DataRegion? then [Job(r.flipTms, more)] else [];
    assert run.before + run.jobs + job == run.before + (run.jobs + job);
  }

  /** The clock-only fast path: one TMS bit and n - 1 free clocks make the n clocks of an all-zero region. */
  lemma IdleRegion(cs: seq<Clock>, region: Region, trace: seq<Clock>, trace': seq<Clock>)
    requires region.TmsRegion? && region.begin < region.end <= |cs|
    requires forall i | region.begin <= i < region.end :: !cs[i].tms
    requires trace <= trace' && |trace'| == |trace| + region.Length()
    requires forall i | |trace| <= i < |trace'| :: !trace'[i].tms
    ensures Executes(cs, region, trace'[|trace|..])
  {
  }

  /** A shift command that has been run, and what reading it back will give. */
  datatype Outstanding = Outstanding(s: State, cs: seq<Clock>, want: seq<bool>, jobs: seq<Job>)

  ghost predicate Ready(command: ShiftCommand, out: Outstanding) {
    && command.bits == |out.cs| == |out.want| <= 8 * BUFFER_SIZE
    && command.bytes == (command.bits + 7) / 8
    && Cuts(out.s, out.cs, command.regions)
    && Sent(out.want, command.regions, out.jobs)
    && QuietInTms(out.want, command.regions)
  }

  /** A stand-in for a command that a failed transfer has spoilt. */
  ghost function Nothing(s: State, cs: seq<Clock>, rs: seq<Region>): Outstanding
    requires Cuts(s, cs, rs)
  {
    EndsIncrease(s, cs, rs, |rs|);
    var want := seq(|cs|, i => false);
    Outstanding(s, cs, want, RegionJobs(want, rs))
  }

  lemma NothingSent(s: State, cs: seq<Clock>, rs: seq<Region>)
    requires Cuts(s, cs, rs)
    ensures var out := Nothing(s, cs, rs);
            Sent(out.want, rs, out.jobs) && QuietInTms(out.want, rs)
  {
    EndsIncrease(s, cs, rs, |rs|);
  }

  lemma HoldsVectors(tms: seq<byte>, tdi: seq<byte>, r: Request)
    requires r.Shift? && WellFormed(r) && r.tms <= tms && r.tdi <= tdi
    ensures HoldsTms(tms, ClocksOf(r)) && HoldsTdi(tdi, ClocksOf(r))
  {
    forall i | 0 <= i < r.bits ensures BitAt(tms, i) == BitAt(r.tms, i) && BitAt(tdi, i) == BitAt(r.tdi, i) {
      assert tms[i / 8] == r.tms[i / 8] && tdi[i / 8] == r.tdi[i / 8];
    }
  }

  ghost function AllJobs(outs: seq<Outstanding>): seq<Job> {
    if outs == [] then [] else outs[0].jobs + AllJobs(outs[1..])
  }

  lemma {:induction false} AllJobsSnoc(outs: seq<Outstanding>, out: Outstanding)
    ensures AllJobs(outs + [out]) == AllJobs(outs) + out.jobs
  {
    if outs == [] {
      assert outs + [out] == [out] && [out][1..] == [];
      assert AllJobs([out]) == out.jobs + [];
    } else {
      assert (outs + [out])[1..] == outs[1..] + [out];
      AllJobsSnoc(outs[1..], out);
    }
  }

  ghost function Wants(outs: seq<Outstanding>): seq<seq<bool>> {
    seq(|outs|, k requires 0 <= k < |outs| => outs[k].want)
  }

  lemma {:induction false} WantedReplies(replies: seq<seq<byte>>, n: nat, outs: seq<Outstanding>)
    requires |replies| == n + |outs| && forall k | 0 <= k < |outs| :: Packed(replies[n + k], outs[k].want)
    ensures |Wants(outs)| == |outs| && forall k | 0 <= k < |outs| :: Packed(replies[n + k], Wants(outs)[k])
  {
  }

  /** The requests `done` have taken the client's stream from `client0` to `client`; `outs` are the shift commands
      among them, and if `good`, what they will read back is what the bit-at-a-time server answers. */
  ghost predicate Batch(t: Target, client0: seq<Clock>, done: seq<Request>, client: seq<Clock>, outs: seq<Outstanding>,
                        good: bool)
  {
    && (forall r | r in done :: WellFormed(r))
    && client == client0 + AllClocks(done)
    && |outs| == |Answers(t, client0, done)|
    && (good ==> Wants(outs) == Answers(t, client0, done))
  }

  lemma BatchStarts(t: Target, client: seq<Clock>, good: bool)
    ensures Batch(t, client, [], client, [], good)
  {
    assert client + [] == client;
  }

  lemma BatchGivenUp(t: Target, client0: seq<Clock>, done: seq<Request>, client: seq<Clock>, outs: seq<Outstanding>,
                     good: bool)
    requires Batch(t, client0, done, client, outs, good)
    ensures Batch(t, client0, done, client, outs, false)
  {
  }

  lemma BatchWellFormed(done: seq<Request>, r: Request)
    requires (forall q | q in done :: WellFormed(q)) && WellFormed(r)
    ensures forall q | q in done + [r] :: WellFormed(q)
  {
  }

  lemma BatchSkip(t: Target, client0: seq<Clock>, done: seq<Request>, client: seq<Clock>, outs: seq<Outstanding>,
                  good: bool, good': bool, r: Request)
    requires Batch(t, client0, done, client, outs, good) && !r.Shift? && (good' ==> good)
    ensures Batch(t, client0, done + [r], client, outs, good')
  {
    hide AllClocks, Answers;
    BatchWellFormed(done, r);
    AllClocksSnoc(done, r);
    AnswersSnoc(t, client0, done, r);
    assert AllClocks(done) + [] == AllClocks(done);
    assert Answers(t, client0, done) + [] == Answers(t, client0, done);
  }

  lemma {:induction false} BatchMore(t: Target, client0: seq<Clock>, done: seq<Request>, client: seq<Clock>,
                                     outs: seq<Outstanding>, good: bool, good': bool, r: Request, out: Outstanding)
    requires Batch(t, client0, done, client, outs, good) && r.Shift? && WellFormed(r) && (good' ==> good)
    requires good' ==> out.want == Serve(t, Run(TestLogicReset, client), client, ClocksOf(r))
    ensures Batch(t, client0, done + [r], client + ClocksOf(r), outs + [out], good')
  {
    hide Serve, Run, AllClocks, Answers, ClocksOf, WellFormed;
    BatchWellFormed(done, r);
    AllClocksSnoc(done, r);
    AnswersSnoc(t, client0, done, r);
    assert client0 + AllClocks(done) + ClocksOf(r) == client0 + (AllClocks(done) + ClocksOf(r));
    assert Wants(outs + [out]) == Wants(outs) + [out.want];
  }

  /** The requests `rs` have taken the client's stream from `client0` to `client`, and `replies[n..]` answers them. */
  ghost predicate Answered(t: Target, client0: seq<Clock>, rs: seq<Request>, client: seq<Clock>, replies: seq<seq<byte>>,
                           n: nat, good: bool)
  {
    && (forall r | r in rs :: WellFormed(r))
    && client == client0 + AllClocks(rs)
    && |replies| == n + |Answers(t, client0, rs)|
    && (good ==> forall k | 0 <= k < |Answers(t, client0, rs)| :: Packed(replies[n + k], Answers(t, client0, rs)[k]))
  }

  lemma SessionStarts(t: Target, client: seq<Clock>, replies: seq<seq<byte>>)
    ensures Answered(t, client, [], client, replies, |replies|, true)
    ensures Answered(t, client, [], client, replies, |replies|, false)
  {
    assert client + [] == client;
  }

  lemma {:induction false} AnsweredMeans(t: Target, client0: seq<Clock>, rs: seq<Request>, client: seq<Clock>,
                                         replies: seq<seq<byte>>, n: nat, good: bool)
    requires Answered(t, client0, rs, client, replies, n, good)
    ensures (forall r | r in rs :: WellFormed(r)) && client == client0 + AllClocks(rs)
    ensures |replies| == n + |Answers(t, client0, rs)|
    ensures good ==> forall k | 0 <= k < |Answers(t, client0, rs)| :: Packed(replies[n + k], Answers(t, client0, rs)[k])
  {
  }

  lemma {:induction false} AnsweredMore(t: Target, client0: seq<Clock>, rs: seq<Request>, client: seq<Clock>,
                                        replies: seq<seq<byte>>, n: nat, good: bool, more: seq<Request>,
                                        client': seq<Clock>, replies': seq<seq<byte>>, good': bool)
    requires Answered(t, client0, rs, client, replies, n, good) && (good' ==> good)
    requires forall r | r in more :: WellFormed(r)
    requires client' == client + AllClocks(more)
    requires replies <= replies' && |replies'| == |replies| + |Answers(t, client, more)|
    requires good' ==> forall k | 0 <= k < |Answers(t, client, more)| ::
                         Packed(replies'[|replies| + k], Answers(t, client, more)[k])
    ensures Answered(t, client0, rs + more, client', replies', n, good')
  {
    hide WellFormed, AllClocks, Answers, Packed;
    AllClocksAppend(rs, more);
    AnswersAppend(t, client0, rs, more);
    ConcatAssoc(client0, AllClocks(rs), AllClocks(more));
    var a, b := Answers(t, client0, rs), Answers(t, client, more);
    assert Answers(t, client0, rs + more) == a + b;
    if good' {
      forall k | 0 <= k < |a + b| ensures Packed(replies'[n + k], (a + b)[k]) {
        if k < |a| {
          assert replies'[n + k] == replies[n + k];
        } else {
          assert n + k == |replies| + (k - |a|) && (a + b)[k] == b[k - |a|];
        }
      }
    }
  }

  /** `done` is what is run of the requests `rs`: all of them, or those before the one at which the program ends. If no
      transfer has been given up (`good`), it ends exactly at a request that it does not survive. */
  ghost predicate RunOf(rs: seq<Request>, done: seq<Request>, aborted: bool, good: bool) {
    && done <= rs
    && (aborted <==> |done| < |rs|)
    && (good && aborted ==> Stops(rs[|done|]))
    && (good ==> forall r | r in done :: !Stops(r))
  }

  lemma {:induction false} RunWellFormed(rs: seq<Request>, done: seq<Request>, aborted: bool, good: bool)
    requires RunOf(rs, done, aborted, good) && forall r | r in rs :: WellFormed(r)
    ensures forall r | r in done :: WellFormed(r)
    ensures !aborted ==> done == rs
    ensures RunOf(rs, done, aborted, false)
  {
    assert done == rs[..|done|];
  }

  /** Requests that a client can send at once: they fit the server's window. */
  ghost predicate Batched(batch: seq<Request>) {
    (forall r | r in batch :: Sendable(r)) && |EncodeAll(batch)| <= 4096
  }

  lemma BatchIsWellFormed(batch: seq<Request>)
    requires Batched(batch)
    ensures forall r | r in batch :: WellFormed(r)
  {
  }

  /** The requests of successive batches. */
  ghost function AllRequests(batches: seq<seq<Request>>): (rs: seq<Request>)
    requires forall b | b in batches :: Batched(b)
    ensures forall r | r in rs :: WellFormed(r)
  {
    if batches == [] then []
    else
      var init, last := batches[..|batches| - 1], batches[|batches| - 1];
      assert last in batches;
      BatchIsWellFormed(last);
      AllRequests(init) + last
  }

  lemma {:induction false} AllRequestsHas(batches: seq<seq<Request>>, k: nat)
    requires k < |batches| && forall b | b in batches :: Batched(b)
    ensures forall r | r in batches[k] :: r in AllRequests(batches)
  {
    if k < |batches| - 1 {
      AllRequestsHas(batches[..|batches| - 1], k);
    }
  }

  lemma NoRequests()
    ensures AllRequests([]) == []
  {
  }

  lemma {:induction false} AllRequestsSnoc(batches: seq<seq<Request>>, batch: seq<Request>)
    requires (forall b | b in batches :: Batched(b)) && Batched(batch)
    ensures AllRequests(batches + [batch]) == AllRequests(batches) + batch
  {
    assert (batches + [batch])[..|batches|] == batches;
  }

  class Server {
    const jtag: Port
    const buffer: array<byte>
    var bufferBegin: nat
    var bufferEnd: nat
    const tms: array<byte>
    const tdi: array<byte>
    const tdo: array<byte>
    /** The TDO vectors written to the client. */
    var replies: seq<seq<byte>>
    /** Every clock the client has asked for. */
    ghost var client: seq<Clock>

    ghost predicate Owns()
      reads this
    {
      && jtag.adapter.UseMpsse?
      && buffer.Length == BUFFER_SIZE && tms.Length == BUFFER_SIZE && tdi.Length == BUFFER_SIZE && tdo.Length == BUFFER_SIZE
      && tms != tdi && tms != tdo && tdi != tdo && buffer != tms && buffer != tdi && buffer != tdo
      && {this, buffer, tms, tdi, tdo} !! jtag.Repr()
      && bufferBegin <= bufferEnd <= BUFFER_SIZE
    }

    constructor (jtag: Port)
      requires jtag.Valid() && jtag.adapter.UseMpsse? && jtag.Trace() == [] && jtag.Pending() == []
      ensures fresh(buffer) && fresh(tms) && fresh(tdi) && fresh(tdo)
      ensures this.jtag == jtag && Valid() && bufferBegin == bufferEnd && client == [] && replies == []
    {
      this.jtag := jtag;
      buffer := new byte[BUFFER_SIZE];
      tms := new byte[BUFFER_SIZE];
      tdi := new byte[BUFFER_SIZE];
      tdo := new byte[BUFFER_SIZE];
      bufferBegin, bufferEnd := 0, 0;
      replies, client := [], [];
    }

    /** A TMS region. A run of zeroes in Run-Test/Idle is sent as one TMS bit and free clocks, at once and in no more than
        eight bytes. */
    method ExecuteTms(region: Region, ghost cs: seq<Clock>)
      requires Owns() && jtag.Valid() && HoldsTms(tms[..], cs)
      requires region.TmsRegion? && region.begin < region.end <= |cs|
      modifies jtag.Repr()
      ensures jtag.Valid() && (old(jtag.Broken()) ==> jtag.Broken())
      ensures jtag.Pending() == old(jtag.Pending())
      ensures jtag.globals.bitsSend == old(jtag.globals.bitsSend) + region.Length()
      ensures !jtag.Broken() ==>
                && old(jtag.Trace()) <= jtag.Trace()
                && Executes(cs, region, jtag.Trace()[|old(jtag.Trace())|..])
      ensures !jtag.Broken() && old(jtag.globals.state) == RunTestIdle
              && (forall i | region.begin <= i < region.end :: !cs[i].tms) ==>
                jtag.Delivered() == jtag.Log() && |jtag.Log()| <= |old(jtag.Log())| + 8
    {
      hide Port.Linked, Port.Trace, Port.Pending, Port.Broken, Port.TmsClocks, Executes, Run, Bit, Samples;
      hide Port.Delivered, Port.Log;
      var clockOnly := jtag.globals.state == RunTestIdle;
      var tmsBuffer, anySet := CopyBits(tms, region.begin, region.end);
      if anySet {
        clockOnly := false;
      }
      ghost var trace := jtag.Trace();
      if clockOnly {
        SendIdle(tmsBuffer[..], region.Length());
        if !jtag.Broken() {
          IdleRegion(cs, region, trace, jtag.Trace());
        }
      } else {
        var ok := jtag.TmsSeq(tmsBuffer[..], region.Length());
        if !jtag.Broken() {
          TmsRegionSent(cs, region, trace, jtag.TmsClocks(tmsBuffer[..], region.Length()));
        }
      }
    }

    method SendIdle(tmsBuffer: seq<byte>, n: nat)
      requires Owns() && jtag.Valid() && jtag.globals.state == RunTestIdle
      requires |tmsBuffer| > 0 && !BitAt(tmsBuffer, 0) && 0 < n <= 8 * BUFFER_SIZE
      modifies jtag.Repr()
      ensures jtag.Valid() && (old(jtag.Broken()) ==> jtag.Broken())
      ensures jtag.Pending() == old(jtag.Pending())
      ensures jtag.globals.bitsSend == old(jtag.globals.bitsSend) + n
      ensures !jtag.Broken() ==>
                && old(jtag.Trace()) <= jtag.Trace() && |jtag.Trace()| == |old(jtag.Trace())| + n
                && forall i | |old(jtag.Trace())| <= i < |jtag.Trace()| :: !jtag.Trace()[i].tms
      ensures !jtag.Broken() ==> jtag.Delivered() == jtag.Log() && |jtag.Log()| <= |old(jtag.Log())| + 8
    {
      hide Port.Linked, Port.Trace, Port.Pending, Port.Broken, Port.TmsClocks, Executes, Run, Bit, Samples;
      hide Port.Delivered, Port.Log;
      ghost var a := jtag.TmsClocks(tmsBuffer, 1);
      IdleRun(a);
      var ok := jtag.TmsSeq(tmsBuffer, 1);
      Mpsse.FreeClocksExact(n - 1);
      ok := jtag.ClockTck(n - 1);
    }

    /** A DATA region: sent now, read back later. */
    method ExecuteData(region: Region, ghost s: State, ghost cs: seq<Clock>)
      requires Owns() && jtag.Valid() && HoldsTdi(tdi[..], cs)
      requires region.DataRegion? && Homogeneous(s, cs, region)
      requires !jtag.Broken() ==> jtag.globals.state == StateAt(s, cs, region.begin)
      modifies jtag.Repr()
      ensures jtag.Valid() && (old(jtag.Broken()) ==> jtag.Broken())
      ensures jtag.globals.bitsSend == old(jtag.globals.bitsSend) + region.Length()
      ensures !jtag.Broken() ==>
                var sub := cs[region.begin..region.end];
                && jtag.Trace() == old(jtag.Trace()) + sub
                && jtag.Pending() == old(jtag.Pending()) +
                   [Job(region.flipTms, Samples(jtag.Target(), old(jtag.Trace()), sub))]
    {
      hide Port.Linked, Port.Trace, Port.Pending, Port.Broken, Port.ScanMade, ScanClocks, Run, Bit, BitAt, Samples, TmsPin;
      var tdiBuffer, anySet := CopyBits(tdi, region.begin, region.end);
      ScanIsRegion(s, cs, region, tdiBuffer[..]);
      var outcome := jtag.ScanChainSend(tdiBuffer[..], region.Length(), region.flipTms, true);
    }

    /** Runs region `k` of a stream whose first `k` regions have been run: what the device does in it is
        what it would have done with the client's clocks. */
    method ExecuteRegion(region: Region, ghost run: CommandRun, ghost k: nat) returns (ghost run': CommandRun)
      requires Owns() && jtag.Valid() && HoldsTms(tms[..], run.steps.cs) && HoldsTdi(tdi[..], run.steps.cs)
      requires Cuts(run.steps.s, run.steps.cs, run.steps.regions)
      requires k < |run.steps.regions| && region == run.steps.regions[k]
      requires !jtag.Broken() ==> run.At(jtag.Target(), k, jtag.Trace(), jtag.Pending())
      modifies jtag.Repr()
      ensures jtag.Valid() && (old(jtag.Broken()) ==> jtag.Broken())
      ensures region.begin < region.end <= |run.steps.cs| && region.begin == Reached(run.steps.regions, k)
      ensures jtag.globals.bitsSend == old(jtag.globals.bitsSend) + region.Length()
      ensures run'.steps.SameStart(run.steps) && run'.before == run.before
      ensures !jtag.Broken() ==> run'.At(jtag.Target(), k + 1, jtag.Trace(), jtag.Pending())
    {
      hide Port.Linked, Port.Trace, Port.Pending, Port.Broken, Port.TmsClocks, Samples, Serve, Cuts, RegionRun.At, Homogeneous;
      hide Sent, Run, HoldsTms, HoldsTdi;
      run' := run;
      ghost var steps := run.steps;
      RegionAt(steps.s, steps.cs, steps.regions, k);
      ghost var trace := jtag.Trace();
      if !jtag.Broken() {
        RunReaches(jtag.Target(), steps, k, trace);
        jtag.StateIsFold();
      }
      match region {
        case TmsRegion(_, _) =>
          ExecuteTms(region, steps.cs);
        case DataRegion(_, _, _) =>
          ExecuteData(region, steps.s, steps.cs);
      }
      if !jtag.Broken() {
        ghost var a := jtag.Trace()[|trace|..];
        assert jtag.Trace() == trace + a;
        ShiftExtends(jtag.Target(), run, k, trace, old(jtag.Pending()), a);
        ghost var job := if region.DataRegion? then [Job(region.flipTms, Samples(jtag.Target(), trace, a))] else [];
        run' := run.(steps := steps.Extend(jtag.Target(), k, a), jobs := run.jobs + job);
      }
    }

    /** Cuts a shift command into regions and runs them; nothing is read back yet. The program ends (`aborted`) if the
        tracked state is not the one analysed; that takes a transfer that was given up. */
    method ExecuteShift(bits: nat, ghost cs: seq<Clock>)
        returns (aborted: bool, regions: seq<Region>, ghost run: CommandRun)
      requires Owns() && jtag.Valid() && |cs| == bits && HoldsTms(tms[..], cs) && HoldsTdi(tdi[..], cs)
      modifies jtag.Repr()
      ensures jtag.Valid() && (old(jtag.Broken()) ==> jtag.Broken())
      ensures jtag.globals.bitsSend == old(jtag.globals.bitsSend) + bits
      ensures Cuts(old(jtag.globals.state), cs, regions)
      ensures var start := Begin(old(jtag.globals.state), old(jtag.Trace()), old(jtag.Pending()), cs, regions);
              run.steps.SameStart(start.steps) && run.before == start.before
      ensures !jtag.Broken() ==> run.At(jtag.Target(), |regions|, jtag.Trace(), jtag.Pending())
      ensures aborted <==> jtag.globals.state != Run(old(jtag.globals.state), cs)
      ensures aborted ==> jtag.Broken()
    {
      hide Port.Linked, Port.Trace, Port.Pending, Port.Broken, Cuts, Progress, Sent, Run, RegionRun.At;
      var curState;
      regions, curState := AnalyzeBitbang(tms[..], bits, jtag.globals.state, cs);
      run := Begin(jtag.globals.state, jtag.Trace(), jtag.Pending(), cs, regions);
      if !jtag.Broken() {
        jtag.StateIsFold();
        RunStarts(jtag.Target(), run.steps);
        NothingSentYet(regions);
      }
      ghost var start := run;
      for k := 0 to |regions|
        invariant jtag.Valid() && (old(jtag.Broken()) ==> jtag.Broken())
        invariant jtag.globals.bitsSend == old(jtag.globals.bitsSend) + Reached(regions, k)
        invariant run.steps.SameStart(start.steps) && run.before == start.before
        invariant !jtag.Broken() ==> run.At(jtag.Target(), k, jtag.Trace(), jtag.Pending())
      {
        run := ExecuteRegion(regions[k], run, k);
      }
      CutEnds(start.steps.s, cs, regions);
      if !jtag.Broken() {
        jtag.StateIsFold();
        RunEnds(jtag.Target(), run.steps, jtag.Trace());
      }
      aborted := curState != jtag.globals.state;
    }

    /** Reads back the first region that is left of `rs`. */
    method ReadRegion(region: Region, ghost want: seq<bool>, ghost rs: seq<Region>, ghost jobs: seq<Job>, ghost rest: seq<Job>)
      requires Owns() && jtag.Valid()
      requires rs != [] && region == rs[0] && Sent(want, rs, jobs)
      requires region.begin < region.end <= 8 * BUFFER_SIZE
      requires !jtag.Broken() ==> jtag.Pending() == jobs + rest
      modifies jtag.Repr(), tdo
      ensures jtag.Valid() && (old(jtag.Broken()) ==> jtag.Broken())
      ensures jtag.globals.state == old(jtag.globals.state) && jtag.globals.bitsSend == old(jtag.globals.bitsSend)
      ensures !jtag.Broken() ==>
                && jtag.Trace() == old(jtag.Trace())
                && jtag.Pending() == (if region.DataRegion? then jobs[1..] else jobs) + rest
                && forall i | 0 <= i < 8 * BUFFER_SIZE ::
                     BitAt(tdo[..], i) == (BitAt(old(tdo[..]), i)
                                           || (region.DataRegion? && region.begin <= i < region.end && want[i]))
    {
      hide Port.Linked, Port.Trace, Port.Pending, Port.Broken, BitAt, Received, Sent;
      SentFirst(want, rs, jobs);
      if region.DataRegion? {
        var tdoBuffer := new byte[BUFFER_SIZE](i => 0);
        ghost var zeroes := tdoBuffer[..];
        var outcome := jtag.ScanChainRecv(tdoBuffer, region.Length(), region.flipTms);
        if !jtag.Broken() {
          ReceivedBits(tdoBuffer[..], zeroes, jobs[0]);
        }
        MergeBits(tdoBuffer, tdo, region.begin, region.end);
      }
    }

    /** Reads back a shift command and writes its TDO vector. */
    method ReadBack(command: ShiftCommand, ghost s: State, ghost cs: seq<Clock>, ghost want: seq<bool>,
                    ghost jobs: seq<Job>, ghost rest: seq<Job>)
      requires Owns() && jtag.Valid()
      requires command.bits == |cs| == |want| <= 8 * BUFFER_SIZE && command.bytes == (command.bits + 7) / 8
      requires Cuts(s, cs, command.regions) && Sent(want, command.regions, jobs) && QuietInTms(want, command.regions)
      requires !jtag.Broken() ==> jtag.Pending() == jobs + rest
      modifies jtag.Repr(), tdo, this`replies
      ensures Owns() && jtag.Valid() && (old(jtag.Broken()) ==> jtag.Broken())
      ensures jtag.globals.state == old(jtag.globals.state) && jtag.globals.bitsSend == old(jtag.globals.bitsSend)
      ensures |replies| == |old(replies)| + 1 && old(replies) <= replies
      ensures !jtag.Broken() ==>
                && jtag.Trace() == old(jtag.Trace())
                && jtag.Pending() == rest
                && Packed(replies[|old(replies)|], want)
    {
      hide Port.Linked, Port.Trace, Port.Pending, Port.Broken, BitAt, Cuts, Sent, QuietInTms;
      forall b | 0 <= b < command.bytes {
        tdo[b] := 0;
      }
      var regions := command.regions;
      ghost var left := jobs;
      assert regions[0..] == regions;
      assert forall i | 0 <= i < 8 * command.bytes :: !BitAt(tdo[..], i) by { ZeroBytes(tdo[..], command.bytes); }
      for k := 0 to |regions|
        invariant Owns() && jtag.Valid() && (old(jtag.Broken()) ==> jtag.Broken())
        invariant jtag.globals.state == old(jtag.globals.state) && jtag.globals.bitsSend == old(jtag.globals.bitsSend)
        invariant replies == old(replies)
        invariant Sent(want, regions[k..], left)
        invariant !jtag.Broken() ==>
                    && jtag.Trace() == old(jtag.Trace())
                    && jtag.Pending() == left + rest
                    && Reached(regions, k) <= |want|
                    && forall i | 0 <= i < 8 * command.bytes :: BitAt(tdo[..], i) == (i < Reached(regions, k) && want[i])
      {
        var region := regions[k];
        CutBounds(s, cs, regions, k);
        SentFirst(want, regions[k..], left);
        ReadRegion(region, want, regions[k..], left, rest);
        left := if region.DataRegion? then left[1..] else left;
        assert regions[k..][1..] == regions[k + 1..];
        if region.TmsRegion? {
          QuietAt(want, regions, k);
        }
      }
      CutEnds(s, cs, regions);
      assert regions[|regions|..] == [];
      SentNone(want, left);
      assert left + rest == rest;
      if !jtag.Broken() {
        PackedPrefix(tdo[..], command.bytes, want);
      }
      replies := replies + [tdo[..command.bytes]];
    }

    /** Runs a shift command. */
    method RunShift(request: Request) returns (aborted: bool, command: ShiftCommand, ghost out: Outstanding)
      requires Owns() && jtag.Valid() && WellFormed(request) && request.Shift? && request.bits <= 8 * BUFFER_SIZE
      modifies jtag.Repr(), tms, tdi
      ensures Owns() && jtag.Valid() && (old(jtag.Broken()) ==> jtag.Broken())
      ensures jtag.globals.bitsSend == old(jtag.globals.bitsSend) + request.bits
      ensures aborted ==> jtag.Broken()
      ensures Ready(command, out) && out.cs == ClocksOf(request)
      ensures !jtag.Broken() ==> jtag.Pending() == old(jtag.Pending()) + out.jobs
      ensures !jtag.Broken() && Alike(old(jtag.Trace()), client) ==>
                && Alike(jtag.Trace(), client + ClocksOf(request))
                && (jtag.Target().start == TestLogicReset ==>
                      out.want == Serve(jtag.Target(), Run(TestLogicReset, client), client, ClocksOf(request)))
    {
      hide Port.Linked, Port.Trace, Port.Pending, Port.Broken, Cuts, Sent, QuietInTms, Serve, Bit;
      var bits := request.bits;
      var bytes := (bits + 7) / 8;
      forall i | 0 <= i < bytes {
        tms[i] := request.tms[i];
      }
      forall i | 0 <= i < bytes {
        tdi[i] := request.tdi[i];
      }
      ghost var cs, s, trace := ClocksOf(request), jtag.globals.state, jtag.Trace();
      HoldsVectors(tms[..], tdi[..], request);
      var regions;
      ghost var run;
      aborted, regions, run := ExecuteShift(bits, cs);
      command := ShiftCommand(bits, bytes, regions);
      out := Nothing(s, cs, regions);
      NothingSent(s, cs, regions);
      if !jtag.Broken() {
        RunEnds(jtag.Target(), run.steps, jtag.Trace());
        assert regions[..|regions|] == regions;
        out := Outstanding(s, cs, run.steps.want, run.jobs);
        if Alike(trace, client) {
          RunLikeClient(jtag.Target(), run.steps, jtag.Trace(), client);
        }
      }
    }

    /** Between ticks: nothing is left to read back, and the adapter has made, for all the device can tell,
        exactly the clocks the client asked for. */
    ghost predicate Valid()
      reads this, jtag.Repr()
    {
      && Owns()
      && jtag.Valid()
      && (!jtag.Broken() ==> jtag.Pending() == [] && Alike(jtag.Trace(), client))
    }

    ghost function Window(): seq<byte>
      reads this, buffer
      requires Owns()
    {
      buffer[bufferBegin..bufferEnd]
    }

    /** In the middle of a batch: the requests `done` have been run and `outs` is still to be read back. */
    ghost predicate InBatch(client0: seq<Clock>, done: seq<Request>, commands: seq<ShiftCommand>, outs: seq<Outstanding>)
      reads this`client, jtag.Repr()
    {
      && jtag.Valid()
      && |commands| == |outs|
      && (forall k | 0 <= k < |outs| :: Ready(commands[k], outs[k]))
      && Batch(jtag.Target(), client0, done, client, outs, Good())
      && (!jtag.Broken() ==> jtag.Pending() == AllJobs(outs) && Alike(jtag.Trace(), client))
    }

    lemma StartBatch()
      requires Valid()
      ensures InBatch(client, [], [], [])
    {
      BatchStarts(jtag.Target(), client, Good());
    }

    /** No transfer has been given up, and the device started in the tracked state. */
    ghost predicate Good()
      reads jtag.Repr()
    {
      !jtag.Broken() && jtag.Target().start == TestLogicReset
    }

    /** The divisor for a new period of TCK, sent behind everything written before. The program dies of a period that comes
        to no MHz. */
    method SetTck(period: nat) returns (aborted: bool)
      requires Owns() && jtag.Valid()
      modifies jtag.Repr()
      ensures Owns() && jtag.Valid() && (old(jtag.Broken()) ==> jtag.Broken())
      ensures jtag.globals.bitsSend == old(jtag.globals.bitsSend)
      ensures aborted ==> !Settable(period) && jtag.Broken() == old(jtag.Broken())
      ensures !jtag.Broken() ==> aborted == !Settable(period)
      ensures !jtag.Broken() && !aborted ==>
                exists d: byte | IsDivisorFor(period, d) ::
                  jtag.Delivered() == jtag.Log() == old(jtag.Log()) + [0x86, d, 0x00, 0x8A]
      ensures !jtag.Broken() ==> jtag.Trace() == old(jtag.Trace()) && jtag.Pending() == old(jtag.Pending())
    {
      hide Port.Linked, Port.Trace, Port.Pending, Port.Broken, Port.Delivered, Port.Log, Requested, Settable, IsDivisorFor;
      hide Divisor;
      SettableExactly(period);
      match Requested(period) {
        case Undefined =>
          aborted := true; // anything may happen from here on
        case Mhz(freqMhz) =>
          if freqMhz > 0 {
            RightDivisor(period);
          }
          var outcome := jtag.SetTckFreq(freqMhz);
          aborted := outcome.Died?;
      }
    }

    /** Runs one request: the step of the parsing loop. */
    method RunRequest(request: Request, ghost client0: seq<Clock>, ghost done: seq<Request>,
                      commands: seq<ShiftCommand>, ghost outs: seq<Outstanding>)
        returns (aborted: bool, commands': seq<ShiftCommand>, ghost outs': seq<Outstanding>)
      requires Owns() && InBatch(client0, done, commands, outs) && WellFormed(request)
      requires request.Shift? ==> request.bits <= 8 * BUFFER_SIZE
      modifies this`client, jtag.Repr(), tms, tdi
      ensures Owns() && InBatch(client0, if aborted then done else done + [request], commands', outs')
      ensures client == old(client) + if aborted then [] else ClocksOf(request)
      ensures old(jtag.Broken()) ==> jtag.Broken()
      ensures aborted ==> Stops(request) || jtag.Broken()
      ensures !jtag.Broken() ==> aborted == Stops(request)
      ensures !aborted || !jtag.Broken() ==>
                jtag.globals.bitsSend == old(jtag.globals.bitsSend) + |client| - |old(client)|
    {
      hide Port.Linked, Port.Trace, Port.Pending, Port.Broken, Ready, Alike, Batch, AllJobs, Wants, Serve, WellFormed;
      ghost var t, good := jtag.Target(), Good();
      commands', outs', aborted := commands, outs, false;
      match request {
        case GetInfo =>
          BatchSkip(t, client0, done, client, outs, good, Good(), request);
        case SetTck(period) =>
          aborted := SetTck(period);
          if aborted {
            assert old(client) + [] == client;
          } else {
            BatchSkip(t, client0, done, client, outs, good, Good(), request);
          }
        case Shift(_, _, _) =>
          var command;
          ghost var out;
          aborted, command, out := RunShift(request);
          if aborted {
            assert old(client) + [] == client;
            BatchGivenUp(t, client0, done, client, outs, good);
          } else {
            BatchMore(t, client0, done, client, outs, good, Good(), request, out);
            AllJobsSnoc(outs, out);
            commands', outs' := commands + [command], outs + [out];
            client := client + ClocksOf(request);
          }
      }
    }

    /** Parses and runs the complete requests of the window; all scans are sent before any is read back. It ends early
        (`aborted`) just if it comes to a request that the program does not survive, or finds the tracked state wrong once
        a transfer has been given up. `done` has been run. */
    method RunRequests()
        returns (aborted: bool, commands: seq<ShiftCommand>, ghost outs: seq<Outstanding>, ghost done: seq<Request>)
      requires Valid()
      modifies this`bufferBegin, this`client, jtag.Repr(), tms, tdi
      ensures Owns() && InBatch(old(client), done, commands, outs)
      ensures old(jtag.Broken()) ==> jtag.Broken()
      ensures RunOf(Requests(old(Window())), done, aborted, !jtag.Broken())
      ensures !aborted ==> bufferBegin == old(bufferBegin) + Consumed(old(Window()))
      ensures !aborted || !jtag.Broken() ==>
                jtag.globals.bitsSend == old(jtag.globals.bitsSend) + |client| - |old(client)|
    {
      hide Port.Linked, Port.Trace, Port.Pending, Port.Broken, InBatch, ParseRequest, Requests, Consumed, WellFormed, Stops;
      ghost var w, client0 := Window(), client;
      commands, outs, done, aborted := [], [], [], false;
      StartBatch();
      assert done + Requests(w) == Requests(w);
      var p := ParseRequest(buffer[bufferBegin..bufferEnd]);
      while p.Parsed?
        invariant Owns() && bufferEnd == old(bufferEnd) && old(bufferBegin) <= bufferBegin
        invariant p == ParseRequest(Window())
        invariant InBatch(client0, done, commands, outs)
        invariant old(jtag.Broken()) ==> jtag.Broken()
        invariant Requests(w) == done + Requests(Window())
        invariant !jtag.Broken() ==> forall r | r in done :: !Stops(r)
        invariant Consumed(w) == bufferBegin - old(bufferBegin) + Consumed(Window())
        invariant jtag.globals.bitsSend == old(jtag.globals.bitsSend) + |client| - |client0|
        decreases bufferEnd - bufferBegin
      {
        ghost var now := Window();
        RequestsStep(now);
        RequestBound(now);
        aborted, commands, outs := RunRequest(p.request, client0, done, commands, outs);
        ConcatAssoc(done, [p.request], Requests(now[p.len..]));
        if aborted {
          return;
        }
        done := done + [p.request];
        bufferBegin := bufferBegin + p.len;
        assert Window() == now[p.len..];
        p := ParseRequest(buffer[bufferBegin..bufferEnd]);
      }
      RequestsEnd(Window());
      assert done + [] == done;
    }

    /** Reads back everything that was sent. */
    method ReadAll(commands: seq<ShiftCommand>, ghost outs: seq<Outstanding>)
      requires Owns() && jtag.Valid()
      requires |commands| == |outs| && forall k | 0 <= k < |outs| :: Ready(commands[k], outs[k])
      requires !jtag.Broken() ==> jtag.Pending() == AllJobs(outs)
      modifies this`replies, jtag.Repr(), tdo
      ensures Owns() && jtag.Valid() && (old(jtag.Broken()) ==> jtag.Broken())
      ensures jtag.globals.bitsSend == old(jtag.globals.bitsSend)
      ensures old(replies) <= replies && |replies| == |old(replies)| + |outs|
      ensures !jtag.Broken() ==>
                && jtag.Trace() == old(jtag.Trace())
                && jtag.Pending() == []
                && forall k | 0 <= k < |outs| :: Packed(replies[|old(replies)| + k], outs[k].want)
    {
      hide Port.Linked, Port.Trace, Port.Pending, Port.Broken, Cuts, Sent, QuietInTms, Packed;
      ghost var n := |replies|;
      assert outs[0..] == outs;
      for k := 0 to |commands|
        invariant Owns() && jtag.Valid() && (old(jtag.Broken()) ==> jtag.Broken())
        invariant jtag.globals.bitsSend == old(jtag.globals.bitsSend)
        invariant old(replies) <= replies && |replies| == n + k
        invariant !jtag.Broken() ==> jtag.Trace() == old(jtag.Trace()) && jtag.Pending() == AllJobs(outs[k..])
        invariant !jtag.Broken() ==> forall j | n <= j < n + k :: Packed(replies[j], outs[j - n].want)
      {
        ghost var out, before := outs[k], replies;
        assert Ready(commands[k], out);
        assert outs[k..][1..] == outs[k + 1..];
        ReadBack(commands[k], out.s, out.cs, out.want, out.jobs, AllJobs(outs[k + 1..]));
        assert forall j | n <= j < n + k :: replies[j] == before[j];
      }
    }

    /** A tick: the complete requests that have arrived are run, then the shift commands are read back in order. Each is
        answered with the bits that the device would have given to the client's clocks one at a time. If the program does
        not survive a request, it has run those before it and answers no shift command of the tick. Nothing else ends it
        unless a transfer has been given up. */
    method Tick() returns (aborted: bool, ghost done: seq<Request>)
      requires Valid()
      modifies this`bufferBegin, this`client, this`replies, jtag.Repr(), tms, tdi, tdo
      ensures old(jtag.Broken()) ==> jtag.Broken()
      ensures jtag.Reliable() ==> !jtag.Broken()
      ensures RunOf(Requests(old(Window())), done, aborted, !jtag.Broken())
      ensures client == old(client) + AllClocks(done)
      ensures !aborted || !jtag.Broken() ==>
                jtag.globals.bitsSend == old(jtag.globals.bitsSend) + |client| - |old(client)|
      ensures !jtag.Broken() ==> Alike(jtag.Trace(), client)
      ensures aborted ==> replies == old(replies)
      ensures !aborted ==> Valid() && bufferBegin == old(bufferBegin) + Consumed(old(Window()))
      ensures !aborted ==>
                var answers := Answers(jtag.Target(), old(client), done);
                && old(replies) <= replies && |replies| == |old(replies)| + |answers|
                && (Good() ==> forall k | 0 <= k < |answers| :: Packed(replies[|old(replies)| + k], answers[k]))
    {
      hide Port.Linked, Port.Trace, Port.Pending, Port.Broken, Requests, Consumed, Answers, Alike, Ready, AllJobs, Packed;
      hide RunOf, AllClocks, Wants;
      var commands;
      ghost var outs;
      aborted, commands, outs, done := RunRequests();
      RunWellFormed(Requests(old(Window())), done, aborted, !jtag.Broken());
      jtag.NeverStarved();
      if !aborted {
        ReadAll(commands, outs);
        jtag.NeverStarved();
        if Good() {
          WantedReplies(replies, |old(replies)|, outs);
        }
      }
    }

    /** The adapter has made as many clocks as the client asked for, and its tracked state is that of the client's
        stream. The device may have powered up in any other state: five ones in a row bring it into step for good. */
    lemma InStep(k: nat)
      requires Valid() && !jtag.Broken()
      ensures |jtag.Trace()| == |client| && jtag.globals.state == Run(TestLogicReset, client)
      ensures FiveOnesAt(client, k) ==>
                forall p, m | k + 5 <= m <= |client| ::
                  Run(p, jtag.Trace()[..m]) == Run(TestLogicReset, client[..m])
    {
      hide Run;
      jtag.StateIsFold();
      AlikeInStep(jtag.Trace(), client, k);
    }

    /** To the device, the adapter's clocks are those of the client. */
    lemma DrivenAlike()
      requires Valid() && !jtag.Broken()
      ensures Mask(TestLogicReset, jtag.Trace()) == Mask(TestLogicReset, client)
    {
    }

    /** No response is left unread, or will ever be produced by what is still in the write buffer. */
    lemma Drained()
      requires Valid() && !jtag.Broken()
      ensures var m := jtag.adapter.mpsse; m.buffer.Bounded() && m.ftdi.taken == |m.Chip().resp|
    {
      jtag.adapter.mpsse.NothingUnread();
    }

    /** What has been read from the socket, when nothing was left to parse. */
    method Receive(bytes: seq<byte>)
      requires Valid() && bufferBegin == bufferEnd && |bytes| <= BUFFER_SIZE
      modifies this`bufferBegin, this`bufferEnd, buffer
      ensures Valid() && Window() == bytes
    {
      bufferBegin, bufferEnd := 0, |bytes|;
      forall i | 0 <= i < |bytes| {
        buffer[i] := bytes[i];
      }
    }

    /** A whole session, as its client encodes it, a batch of requests at each tick: every shift command is answered as if
        the client's clocks had been made one at a time, up to the first batch with a request that the program does not
        survive. */
    method Session(batches: seq<seq<Request>>) returns (aborted: bool, ghost served: nat)
      requires Valid() && bufferBegin == bufferEnd
      requires forall b | b in batches :: Batched(b)
      modifies this, buffer, jtag.Repr(), tms, tdi, tdo
      ensures old(jtag.Broken()) ==> jtag.Broken()
      ensures jtag.Reliable() ==> !jtag.Broken()
      ensures served <= |batches| && (aborted <==> served < |batches|)
      ensures aborted && !jtag.Broken() ==> exists r | r in batches[served] :: Stops(r)
      ensures !jtag.Broken() ==> forall r | r in AllRequests(batches[..served]) :: !Stops(r)
      ensures !aborted || !jtag.Broken() ==>
                jtag.globals.bitsSend == old(jtag.globals.bitsSend) + |client| - |old(client)|
      ensures !aborted ==> Valid() && client == old(client) + AllClocks(AllRequests(batches))
      ensures var answers := Answers(jtag.Target(), old(client), AllRequests(batches[..served]));
              && old(replies) <= replies && |replies| == |old(replies)| + |answers|
              && (Good() ==> forall k | 0 <= k < |answers| :: Packed(replies[|old(replies)| + k], answers[k]))
    {
      hide Port.Linked, Port.Trace, Port.Pending, Port.Broken, Requests, Consumed, Answers, AllClocks, Alike, Packed, WellFormed;
      hide Answered, AllRequests, Stops, Batched;
      ghost var t, client0, n := jtag.Target(), client, |replies|;
      jtag.NeverStarved();
      SessionStarts(t, client0, replies);
      NoRequests();
      assert batches[..0] == [];
      served, aborted := 0, false;
      for k := 0 to |batches|
        invariant served == k && !aborted
        invariant Valid() && bufferBegin == bufferEnd && (old(jtag.Broken()) ==> jtag.Broken())
        invariant jtag.Reliable() ==> !jtag.Broken()
        invariant jtag.globals.bitsSend == old(jtag.globals.bitsSend) + |client| - |client0|
        invariant old(replies) <= replies
        invariant !jtag.Broken() ==> forall r | r in AllRequests(batches[..k]) :: !Stops(r)
        invariant Answered(t, client0, AllRequests(batches[..k]), client, replies, n, Good())
      {
        var batch := batches[k];
        assert batch in batches;
        BatchIsWellFormed(batch);
        ghost var client1, replies1, good := client, replies, Good();
        aborted := HandleBatch(batch);
        if aborted {
          AnsweredMeans(t, client0, AllRequests(batches[..k]), client1, replies1, n, good);
          return;
        }
        AnsweredMore(t, client0, AllRequests(batches[..k]), client1, replies1, n, good, batch, client, replies, Good());
        assert batches[..k + 1] == batches[..k] + [batch];
        AllRequestsSnoc(batches[..k], batch);
        served := k + 1;
      }
      assert batches[..|batches|] == batches;
      AnsweredMeans(t, client0, AllRequests(batches), client, replies, n, Good());
    }

    method HandleBatch(batch: seq<Request>) returns (aborted: bool)
      requires Valid() && bufferBegin == bufferEnd
      requires Batched(batch) && forall r | r in batch :: WellFormed(r)
      modifies this, buffer, jtag.Repr(), tms, tdi, tdo
      ensures old(jtag.Broken()) ==> jtag.Broken()
      ensures jtag.Reliable() ==> !jtag.Broken()
      ensures !aborted || !jtag.Broken() ==>
                jtag.globals.bitsSend == old(jtag.globals.bitsSend) + |client| - |old(client)|
      ensures aborted ==> replies == old(replies)
      ensures aborted && !jtag.Broken() ==> exists r | r in batch :: Stops(r)
      ensures !aborted ==>
                && Valid() && bufferBegin == bufferEnd
                && client == old(client) + AllClocks(batch)
                && (!jtag.Broken() ==> forall r | r in batch :: !Stops(r))
      ensures !aborted ==>
                var answers := Answers(jtag.Target(), old(client), batch);
                && old(replies) <= replies && |replies| == |old(replies)| + |answers|
                && (Good() ==> forall k | 0 <= k < |answers| :: Packed(replies[|old(replies)| + k], answers[k]))
    {
      hide Port.Linked, Port.Trace, Port.Pending, Port.Broken, Requests, Consumed, Answers, AllClocks, Alike, Packed, WellFormed;
      hide Stops, Encode, IsIncomplete;
      NothingIsIncomplete();
      Understood(batch, []);
      assert EncodeAll(batch) + [] == EncodeAll(batch);
      Receive(EncodeAll(batch));
      ghost var done;
      aborted, done := Tick();
      assert !aborted ==> done == batch;
    }
  }
}
