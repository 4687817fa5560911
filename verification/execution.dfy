/** What running the regions of a stream through an adapter must preserve. */
module Execution {
  import opened Bits
  import opened Tap
  import opened Reference
  import opened Scan
  import opened Regions

  /** `tdi` holds the TDI bits of the clocks `cs`. */
  ghost predicate HoldsTdi(tdi: seq<byte>, cs: seq<Clock>) {
    && |cs| <= 8 * |tdi|
    && forall i | 0 <= i < |cs| :: BitAt(tdi, i) == cs[i].tdi
  }

  /** The scan, if any, that reads back the TDO bits of one region. */
  ghost function JobOf(want: seq<bool>, r: Region): seq<Job>
    requires r.begin <= r.end <= |want|
  {
    if r.DataRegion? then [Job(r.flipTms, want[r.begin..r.end])] else []
  }

  /** The scans that read back the TDO bits `want` of a stream cut into `rs`. */
  ghost function RegionJobs(want: seq<bool>, rs: seq<Region>): seq<Job>
    requires forall k | 0 <= k < |rs| :: rs[k].begin <= rs[k].end <= |want|
    decreases rs
  {
    if rs == [] then [] else JobOf(want, rs[0]) + RegionJobs(want, rs[1..])
  }

  lemma {:induction false} RegionJobsSnoc(want: seq<bool>, rs: seq<Region>, r: Region)
    requires forall k | 0 <= k < |rs| :: rs[k].begin <= rs[k].end <= |want|
    requires r.begin <= r.end <= |want|
    ensures RegionJobs(want, rs + [r]) == RegionJobs(want, rs) + JobOf(want, r)
    decreases rs
  {
    hide JobOf;
    if rs == [] {
      assert rs + [r] == [r] && [r][1..] == [];
      assert RegionJobs(want, [r]) == JobOf(want, r) + [];
    } else {
      assert (rs + [r])[1..] == rs[1..] + [r] && (rs + [r])[0] == rs[0];
      RegionJobsSnoc(want, rs[1..], r);
      assert JobOf(want, rs[0]) + (RegionJobs(want, rs[1..]) + JobOf(want, r)) ==
             JobOf(want, rs[0]) + RegionJobs(want, rs[1..]) + JobOf(want, r);
    }
  }

  /** Bits that arrive later do not change the scans of the regions before them. */
  lemma {:induction false} RegionJobsStable(want: seq<bool>, more: seq<bool>, rs: seq<Region>)
    requires forall k | 0 <= k < |rs| :: rs[k].begin <= rs[k].end <= |want|
    ensures RegionJobs(want + more, rs) == RegionJobs(want, rs)
    decreases rs
  {
    if rs != [] {
      assert (want + more)[rs[0].begin..rs[0].end] == want[rs[0].begin..rs[0].end];
      RegionJobsStable(want, more, rs[1..]);
    }
  }

  /** TDO is zero throughout the TMS regions. */
  ghost predicate QuietInTms(want: seq<bool>, rs: seq<Region>) {
    forall k | 0 <= k < |rs| && rs[k].TmsRegion? ::
      rs[k].begin <= rs[k].end <= |want| && forall i | rs[k].begin <= i < rs[k].end :: !want[i]
  }

  /** The trace and the client's stream look the same to the device, if it started in the tracked state. */
  ghost predicate Alike(trace: seq<Clock>, client: seq<Clock>) {
    Mask(TestLogicReset, trace) == Mask(TestLogicReset, client)
  }

  /** A device that has been driven like the client has made as many clocks, and after five ones it is in step with the
      client wherever it started. */
  lemma {:induction false} AlikeInStep(trace: seq<Clock>, client: seq<Clock>, k: nat)
    requires Alike(trace, client)
    ensures |trace| == |client| && Run(TestLogicReset, trace) == Run(TestLogicReset, client)
    ensures FiveOnesAt(client, k) ==>
              forall p, m | k + 5 <= m <= |client| :: Run(p, trace[..m]) == Run(TestLogicReset, client[..m])
  {
    hide Run;
    MaskSameTms(TestLogicReset, trace, client);
    if FiveOnesAt(client, k) {
      forall p, m | k + 5 <= m <= |client| ensures Run(p, trace[..m]) == Run(TestLogicReset, client[..m]) {
        Resynchronise(p, TestLogicReset, trace, k, m);
        SameTmsRun(TestLogicReset, trace[..m], client[..m]);
      }
    }
  }

  lemma {:induction false} AlikeExtends(trace: seq<Clock>, client: seq<Clock>, a: seq<Clock>, b: seq<Clock>)
    requires Alike(trace, client)
    requires Mask(Run(TestLogicReset, trace), a) == Mask(Run(TestLogicReset, trace), b)
    ensures Alike(trace + a, client + b)
  {
    MaskSameTms(TestLogicReset, trace, client);
    MaskAppend(TestLogicReset, trace, a);
    MaskAppend(TestLogicReset, client, b);
  }

  /** A device that started in the tracked state answers the two streams alike. */
  lemma {:induction false} ServeAlike(t: Target, trace: seq<Clock>, client: seq<Clock>, s: State, a: seq<Clock>,
                                      b: seq<Clock>)
    requires t.start == TestLogicReset && Alike(trace, client)
    requires s == Run(TestLogicReset, trace) && Mask(s, a) == Mask(s, b)
    ensures Serve(t, s, trace, a) == Serve(t, s, client, b)
  {
    assert |a| == |b| by { MaskSameTms(s, a, b); }
    forall i | 0 <= i < |a| ensures Serve(t, s, trace, a)[i] == Serve(t, s, client, b)[i] {
      ServeAt(t, s, trace, a, i);
      ServeAt(t, s, client, b, i);
      MaskPrefix(s, a, b, i);
      MaskSameTms(s, a[..i], b[..i]);
      AlikeExtends(trace, client, a[..i], b[..i]);
    }
  }

  /** Clock by clock, the adapter's stream `driven` has reached `upTo` in the client's `cs`;
      `want` is what the device has answered. */
  ghost predicate Driven(t: Target, s: State, trace: seq<Clock>, cs: seq<Clock>, upTo: nat,
                         driven: seq<Clock>, want: seq<bool>)
  {
    && upTo <= |cs| && |driven| == upTo
    && Mask(s, driven) == Mask(s, cs[..upTo])
    && want == Serve(t, s, trace, driven)
  }

  lemma {:induction false} DrivenState(t: Target, s: State, trace: seq<Clock>, cs: seq<Clock>, upTo: nat,
                                       driven: seq<Clock>, want: seq<bool>)
    requires Driven(t, s, trace, cs, upTo, driven, want)
    ensures Run(s, driven) == StateAt(s, cs, upTo)
  {
    MaskSameTms(s, driven, cs[..upTo]);
  }

  lemma {:induction false} DrivenMore(t: Target, s: State, trace: seq<Clock>, cs: seq<Clock>, r: Region,
                                      driven: seq<Clock>, want: seq<bool>, a: seq<Clock>)
    requires Driven(t, s, trace, cs, r.begin, driven, want)
    requires r.begin <= r.end <= |cs| && |a| == r.end - r.begin
    requires Mask(StateAt(s, cs, r.begin), a) == Mask(StateAt(s, cs, r.begin), cs[r.begin..r.end])
    ensures Driven(t, s, trace, cs, r.end, driven + a, want + Serve(t, StateAt(s, cs, r.begin), trace + driven, a))
  {
    DrivenState(t, s, trace, cs, r.begin, driven, want);
    assert cs[..r.end] == cs[..r.begin] + cs[r.begin..r.end];
    MaskAppend(s, driven, a);
    MaskAppend(s, cs[..r.begin], cs[r.begin..r.end]);
    ServeAppend(t, s, trace, driven, a);
  }

  lemma StateInside(s: State, cs: seq<Clock>, begin: nat, end: nat, i: nat)
    requires begin <= end <= |cs| && i <= end - begin
    ensures Run(StateAt(s, cs, begin), cs[begin..end][..i]) == StateAt(s, cs, begin + i)
  {
    assert cs[..begin + i] == cs[..begin] + cs[begin..end][..i];
    RunAppend(s, cs[..begin], cs[begin..end][..i]);
  }

  /** A TMS region: whatever TDI does, the device cannot tell, and it drives no TDO. */
  lemma {:induction false} TmsRegionMeans(t: Target, s: State, hist: seq<Clock>, cs: seq<Clock>, r: Region,
                                          a: seq<Clock>)
    requires r.TmsRegion? && Homogeneous(s, cs, r) && SameTms(a, cs[r.begin..r.end])
    ensures var s' := StateAt(s, cs, r.begin);
            && Mask(s', a) == Mask(s', cs[r.begin..r.end])
            && forall i | 0 <= i < |a| :: !Serve(t, s', hist, a)[i]
  {
    var s' := StateAt(s, cs, r.begin);
    var b := cs[r.begin..r.end];
    forall i | 0 <= i < |b| ensures !IsShift(Run(s', b[..i])) {
      StateInside(s, cs, r.begin, r.end, i);
    }
    MaskOutsideShift(s', a, b);
    forall i | 0 <= i < |a| ensures !Serve(t, s', hist, a)[i] {
      ServeAt(t, s', hist, a, i);
      SameTmsRun(s', a[..i], b[..i]);
    }
  }

  /** A DATA region: every clock is in a Shift state, so TDO is the device's bit throughout. */
  lemma {:induction false} DataRegionMeans(t: Target, s: State, hist: seq<Clock>, cs: seq<Clock>, r: Region)
    requires r.DataRegion? && Homogeneous(s, cs, r)
    ensures var s' := StateAt(s, cs, r.begin);
            Serve(t, s', hist, cs[r.begin..r.end]) == Samples(t, hist, cs[r.begin..r.end])
  {
    var s' := StateAt(s, cs, r.begin);
    var b := cs[r.begin..r.end];
    forall i | 0 <= i < |b| ensures Serve(t, s', hist, b)[i] == Samples(t, hist, b)[i] {
      StateInside(s, cs, r.begin, r.end, i);
      ServeAt(t, s', hist, b, i);
    }
  }

  /** Bulk data commands are right for a DATA region: they clock exactly the client's stream. */
  lemma ScanIsRegion(s: State, cs: seq<Clock>, r: Region, data: seq<byte>)
    requires r.DataRegion? && Homogeneous(s, cs, r)
    requires r.end - r.begin <= 8 * |data|
    requires forall i | 0 <= i < r.end - r.begin :: BitAt(data, i) == cs[r.begin + i].tdi
    ensures ScanClocks(false, data, r.end - r.begin, r.flipTms) == cs[r.begin..r.end]
  {
  }

  /** One region done: the invariant of the region loop moves on. */
  ghost predicate Progress(t: Target, s: State, trace: seq<Clock>, cs: seq<Clock>, rs: seq<Region>, k: nat,
                           driven: seq<Clock>, want: seq<bool>)
    requires Cuts(s, cs, rs)
  {
    && k <= |rs|
    && Driven(t, s, trace, cs, Reached(rs, k), driven, want)
    && QuietInTms(want, rs[..k])
  }

  ghost function Reached(rs: seq<Region>, k: nat): nat
    requires k <= |rs|
  {
    if k == 0 then 0 else rs[k - 1].end
  }

  lemma RegionBounds(s: State, cs: seq<Clock>, rs: seq<Region>, k: nat)
    requires Cuts(s, cs, rs) && k < |rs|
    ensures Homogeneous(s, cs, rs[k]) && Reached(rs, k) == rs[k].begin
    ensures forall j | 0 <= j < k :: rs[j].begin <= rs[j].end <= Reached(rs, k)
  {
    EndsIncrease(s, cs, rs, k);
  }

  lemma {:induction false} EndsIncrease(s: State, cs: seq<Clock>, rs: seq<Region>, k: nat)
    requires Cuts(s, cs, rs) && k <= |rs|
    ensures forall j | 0 <= j < k :: rs[j].begin <= rs[j].end <= Reached(rs, k)
  {
    if k > 0 {
      EndsIncrease(s, cs, rs, k - 1);
      assert Homogeneous(s, cs, rs[k - 1]);
    }
  }

  /** The clocks `a` that an adapter may make for region `r`: in a DATA region the client's own,
      in a TMS region any with the client's TMS. */
  ghost predicate Executes(cs: seq<Clock>, r: Region, a: seq<Clock>)
    requires r.begin <= r.end <= |cs|
  {
    if r.DataRegion? then a == cs[r.begin..r.end] else SameTms(a, cs[r.begin..r.end])
  }

  lemma TmsRegionSent(cs: seq<Clock>, region: Region, trace: seq<Clock>, a: seq<Clock>)
    requires region.TmsRegion? && region.begin < region.end <= |cs| && |a| == region.Length()
    requires forall i | 0 <= i < |a| :: a[i].tms == cs[region.begin + i].tms
    ensures trace <= trace + a && Executes(cs, region, (trace + a)[|trace|..])
  {
    assert (trace + a)[|trace|..] == a;
  }

  lemma {:induction false} RegionDone(t: Target, s: State, trace: seq<Clock>, cs: seq<Clock>, rs: seq<Region>, k: nat,
                   driven: seq<Clock>, want: seq<bool>, a: seq<Clock>)
    requires Cuts(s, cs, rs) && k < |rs| && Progress(t, s, trace, cs, rs, k, driven, want)
    requires Homogeneous(s, cs, rs[k]) && Executes(cs, rs[k], a)
    ensures var more := Serve(t, StateAt(s, cs, rs[k].begin), trace + driven, a);
            && Progress(t, s, trace, cs, rs, k + 1, driven + a, want + more)
            && (rs[k].DataRegion? ==> more == Samples(t, trace + driven, a))
  {
    hide Serve, Samples, Mask, Run;
    var r := rs[k];
    RegionBounds(s, cs, rs, k);
    var more := Serve(t, StateAt(s, cs, r.begin), trace + driven, a);
    if r.TmsRegion? {
      TmsRegionMeans(t, s, trace + driven, cs, r, a);
    } else {
      DataRegionMeans(t, s, trace + driven, cs, r);
    }
    DrivenMore(t, s, trace, cs, r, driven, want, a);
    forall j | 0 <= j < k + 1 && rs[..k + 1][j].TmsRegion?
      ensures rs[j].begin <= rs[j].end <= |want + more|
      ensures forall i | rs[j].begin <= i < rs[j].end :: !(want + more)[i]
    {
      if j < k {
        assert rs[..k][j] == rs[j];
      }
    }
  }

  lemma JobsDone(s: State, cs: seq<Clock>, rs: seq<Region>, k: nat, want: seq<bool>, more: seq<bool>)
    requires Cuts(s, cs, rs) && k < |rs| && |want| == Reached(rs, k) && |want + more| == rs[k].end
    ensures forall j | 0 <= j <= k :: rs[j].begin <= rs[j].end <= |want + more|
    ensures forall j | 0 <= j < k :: rs[j].end <= |want|
    ensures RegionJobs(want + more, rs[..k + 1]) == RegionJobs(want, rs[..k]) +
            if rs[k].DataRegion? then [Job(rs[k].flipTms, more)] else []
  {
    hide Cuts, Homogeneous, RegionJobs;
    RegionBounds(s, cs, rs, k);
    assert rs[..k + 1] == rs[..k] + [rs[k]];
    assert forall j | 0 <= j < k :: rs[..k][j] == rs[j];
    RegionJobsSnoc(want + more, rs[..k], rs[k]);
    RegionJobsStable(want, more, rs[..k]);
    LastPart(want, more);
  }

  lemma LastPart(want: seq<bool>, more: seq<bool>)
    ensures (want + more)[|want|..|want + more|] == more
  {
  }

  /** `jobs` are the scans that read back `want` in the regions `rs`. */
  ghost predicate Sent(want: seq<bool>, rs: seq<Region>, jobs: seq<Job>) {
    && (forall k | 0 <= k < |rs| :: rs[k].begin <= rs[k].end <= |want|)
    && jobs == RegionJobs(want, rs)
  }

  lemma SentMore(s: State, cs: seq<Clock>, rs: seq<Region>, k: nat, want: seq<bool>, jobs: seq<Job>, more: seq<bool>)
    requires Cuts(s, cs, rs) && k < |rs| && |want| == Reached(rs, k) && |want + more| == rs[k].end
    requires Sent(want, rs[..k], jobs)
    ensures Sent(want + more, rs[..k + 1], jobs + if rs[k].DataRegion? then [Job(rs[k].flipTms, more)] else [])
  {
    JobsDone(s, cs, rs, k, want, more);
  }

  /** The first scan read back is that of the first DATA region. */
  lemma SentFirst(want: seq<bool>, rs: seq<Region>, jobs: seq<Job>)
    requires Sent(want, rs, jobs) && rs != []
    ensures rs[0].begin <= rs[0].end <= |want|
    ensures var r := rs[0];
            if r.DataRegion? then
              && jobs != [] && jobs[0] == Job(r.flipTms, want[r.begin..r.end])
              && Sent(want, rs[1..], jobs[1..])
            else Sent(want, rs[1..], jobs)
  {
    assert rs[0].DataRegion? ==> (JobOf(want, rs[0]) + RegionJobs(want, rs[1..]))[1..] == RegionJobs(want, rs[1..]);
    assert rs[0].TmsRegion? ==> [] + RegionJobs(want, rs[1..]) == RegionJobs(want, rs[1..]);
  }

  lemma ProgressStart(t: Target, s: State, trace: seq<Clock>, cs: seq<Clock>, rs: seq<Region>)
    requires Cuts(s, cs, rs)
    ensures Progress(t, s, trace, cs, rs, 0, [], [])
  {
  }

  lemma CutEnds(s: State, cs: seq<Clock>, rs: seq<Region>)
    requires Cuts(s, cs, rs)
    ensures Reached(rs, |rs|) == |cs|
  {
  }

  lemma CutBounds(s: State, cs: seq<Clock>, rs: seq<Region>, k: nat)
    requires Cuts(s, cs, rs) && k < |rs|
    ensures Reached(rs, k) == rs[k].begin < rs[k].end == Reached(rs, k + 1) <= |cs|
  {
    RegionBounds(s, cs, rs, k);
  }

  /** How far the regions of a stream have been run: from the tracked state `s`, after `trace`, the adapter has made the
      clocks `driven`, and the device has answered `want`. */
  datatype RegionRun = RegionRun(s: State, trace: seq<Clock>, cs: seq<Clock>, regions: seq<Region>,
                                 driven: seq<Clock>, want: seq<bool>)
  {
    ghost predicate SameStart(r: RegionRun) {
      s == r.s && trace == r.trace && cs == r.cs && regions == r.regions
    }

    /** The first `k` regions have been run, and the adapter has made the clocks `now`. */
    ghost predicate At(t: Target, k: nat, now: seq<Clock>) {
      && s == Run(TestLogicReset, trace)
      && Cuts(s, cs, regions)
      && Progress(t, s, trace, cs, regions, k, driven, want)
      && now == trace + driven
    }

    /** The run after the adapter has made the clocks `a` for region `k`. */
    ghost function Extend(t: Target, k: nat, a: seq<Clock>): RegionRun
      requires k < |regions| && regions[k].begin <= |cs|
    {
      this.(driven := driven + a, want := want + Serve(t, StateAt(s, cs, regions[k].begin), trace + driven, a))
    }
  }

  lemma RunStarts(t: Target, run: RegionRun)
    requires run.s == Run(TestLogicReset, run.trace) && Cuts(run.s, run.cs, run.regions)
    requires run.driven == [] && run.want == []
    ensures run.At(t, 0, run.trace)
  {
    ProgressStart(t, run.s, run.trace, run.cs, run.regions);
  }

  lemma RegionAt(s: State, cs: seq<Clock>, rs: seq<Region>, k: nat)
    requires Cuts(s, cs, rs) && k < |rs|
    ensures Homogeneous(s, cs, rs[k]) && Reached(rs, k) == rs[k].begin < rs[k].end <= |cs|
  {
    RegionBounds(s, cs, rs, k);
  }

  /** Before region `k`, the adapter has led the TAP where the client would have. */
  lemma {:induction false} RunReaches(t: Target, run: RegionRun, k: nat, now: seq<Clock>)
    requires k < |run.regions| && run.At(t, k, now)
    ensures Run(TestLogicReset, now) == StateAt(run.s, run.cs, run.regions[k].begin)
  {
    RegionAt(run.s, run.cs, run.regions, k);
    DrivenState(t, run.s, run.trace, run.cs, run.regions[k].begin, run.driven, run.want);
    RunAppend(TestLogicReset, run.trace, run.driven);
  }

  /** One more region. */
  lemma {:induction false} RunExtends(t: Target, run: RegionRun, k: nat, now: seq<Clock>, a: seq<Clock>)
    requires k < |run.regions| && run.At(t, k, now)
    requires Homogeneous(run.s, run.cs, run.regions[k]) && Executes(run.cs, run.regions[k], a)
    ensures var run', r := run.Extend(t, k, a), run.regions[k];
            && run'.At(t, k + 1, now + a)
            && |run.want| == Reached(run.regions, k) == r.begin
            && run.want <= run'.want && |run'.want| == r.end
            && (r.DataRegion? ==> run'.want[r.begin..r.end] == Samples(t, now, a))
  {
    hide Serve, Samples, Executes, Homogeneous, QuietInTms;
    RegionBounds(run.s, run.cs, run.regions, k);
    RegionDone(t, run.s, run.trace, run.cs, run.regions, k, run.driven, run.want, a);
    assert run.trace + run.driven + a == run.trace + (run.driven + a);
  }

  /** Once all regions have been run, the adapter has made all the client's clocks. */
  lemma {:induction false} RunEnds(t: Target, run: RegionRun, now: seq<Clock>)
    requires run.At(t, |run.regions|, now)
    ensures |run.driven| == |run.cs| == |run.want|
    ensures Mask(run.s, run.driven) == Mask(run.s, run.cs)
    ensures run.want == Serve(t, run.s, run.trace, run.driven)
    ensures Run(TestLogicReset, now) == Run(run.s, run.cs)
    ensures QuietInTms(run.want, run.regions)
  {
    CutEnds(run.s, run.cs, run.regions);
    assert run.regions[..|run.regions|] == run.regions;
    assert run.cs[..|run.cs|] == run.cs;
    MaskSameTms(run.s, run.driven, run.cs);
    RunAppend(TestLogicReset, run.trace, run.driven);
  }

  /** ... and if it has been driven like the client before, it still is, and a device that started in the tracked state has
      answered as it would the client. */
  lemma {:induction false} RunLikeClient(t: Target, run: RegionRun, now: seq<Clock>, client: seq<Clock>)
    requires run.At(t, |run.regions|, now) && Alike(run.trace, client)
    ensures Alike(now, client + run.cs) && run.s == Run(TestLogicReset, client)
    ensures t.start == TestLogicReset ==> run.want == Serve(t, Run(TestLogicReset, client), client, run.cs)
  {
    RunEnds(t, run, now);
    AlikeExtends(run.trace, client, run.driven, run.cs);
    MaskSameTms(TestLogicReset, run.trace, client);
    if t.start == TestLogicReset {
      ServeAlike(t, run.trace, client, run.s, run.driven, run.cs);
    }
  }
}
