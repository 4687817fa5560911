/** The XVC commands in a window of received bytes, and the answers a bit-at-a-time server gives to them. */
module XvcProtocol {
  import opened Bits
  import opened Tap
  import opened Reference
  import opened Tck

  datatype Request =
    | GetInfo
    | SetTck(period: nat)
    | Shift(bits: nat, tms: seq<byte>, tdi: seq<byte>)

  datatype Parsed = NoRequest | Parsed(request: Request, len: nat)

  /** "getinfo:", "settck:" and "shift:" */
  const GETINFO: seq<byte> := [0x67, 0x65, 0x74, 0x69, 0x6E, 0x66, 0x6F, 0x3A]
  const SETTCK: seq<byte> := [0x73, 0x65, 0x74, 0x74, 0x63, 0x6B, 0x3A]
  const SHIFT: seq<byte> := [0x73, 0x68, 0x69, 0x66, 0x74, 0x3A]

  predicate WellFormed(r: Request) {
    r.Shift? ==> |r.tms| == (r.bits + 7) / 8 == |r.tdi|
  }

  /** The program does not survive this request. */
  predicate Stops(r: Request) {
    r.SetTck? && !Settable(r.period)
  }

  /** The first complete request of a window. */
  function ParseRequest(w: seq<byte>): (p: Parsed)
    ensures p.Parsed? ==> 0 < p.len <= |w|
    ensures p.Parsed? ==> WellFormed(p.request) && (p.request.Shift? ==> 2 * ((p.request.bits + 7) / 8) <= |w|)
  {
    if GETINFO <= w then Parsed(GetInfo, 8)
    else if 11 <= |w| && SETTCK <= w then Parsed(SetTck(Word(w[7..11])), 11)
    else if 10 <= |w| && SHIFT <= w then
      var bits := Word(w[6..10]);
      var bytes := (bits + 7) / 8;
      if 10 + 2 * bytes > |w| then NoRequest
      else Parsed(Shift(bits, w[10..10 + bytes], w[10 + bytes..10 + 2 * bytes]), 10 + 2 * bytes)
    else NoRequest
  }

  /** All complete requests of a window, in order. */
  function Requests(w: seq<byte>): (rs: seq<Request>)
    ensures forall r | r in rs :: WellFormed(r)
    decreases |w|
  {
    var p := ParseRequest(w);
    if p.NoRequest? then [] else [p.request] + Requests(w[p.len..])
  }

  function Consumed(w: seq<byte>): (n: nat)
    ensures n <= |w|
    decreases |w|
  {
    var p := ParseRequest(w);
    if p.NoRequest? then 0 else p.len + Consumed(w[p.len..])
  }

  function ClocksOf(r: Request): (cs: seq<Clock>)
    requires WellFormed(r)
    ensures |cs| == if r.Shift? then r.bits else 0
  {
    if r.Shift? then seq(r.bits, i requires 0 <= i < r.bits => Clock(BitAt(r.tms, i), BitAt(r.tdi, i))) else []
  }

  /** The clocks a client has asked for. */
  function AllClocks(rs: seq<Request>): seq<Clock>
    requires forall r | r in rs :: WellFormed(r)
  {
    if rs == [] then [] else AllClocks(rs[..|rs| - 1]) + ClocksOf(rs[|rs| - 1])
  }

  /** What the bit-at-a-time server answers to each shift command, after the clocks `hist`. */
  function Answers(t: Target, hist: seq<Clock>, rs: seq<Request>): seq<seq<bool>>
    requires forall r | r in rs :: WellFormed(r)
  {
    if rs == [] then []
    else
      var init, last := rs[..|rs| - 1], rs[|rs| - 1];
      var now := hist + AllClocks(init);
      Answers(t, hist, init)
      + if last.Shift? then [Serve(t, Run(TestLogicReset, now), now, ClocksOf(last))] else []
  }

  lemma {:induction false} RequestsStep(w: seq<byte>)
    requires ParseRequest(w).Parsed?
    ensures Requests(w) == [ParseRequest(w).request] + Requests(w[ParseRequest(w).len..])
    ensures Consumed(w) == ParseRequest(w).len + Consumed(w[ParseRequest(w).len..])
  {
  }

  lemma {:induction false} RequestsEnd(w: seq<byte>)
    requires ParseRequest(w).NoRequest?
    ensures Requests(w) == [] && Consumed(w) == 0
  {
  }

  lemma RequestBound(w: seq<byte>)
    requires ParseRequest(w).Parsed?
    ensures WellFormed(ParseRequest(w).request)
    ensures ParseRequest(w).request.Shift? ==> ParseRequest(w).request.bits <= 8 * |w|
  {
  }

  lemma {:induction false} AllClocksSnoc(rs: seq<Request>, r: Request)
    requires forall q | q in rs + [r] :: WellFormed(q)
    ensures forall q | q in rs :: WellFormed(q)
    ensures AllClocks(rs + [r]) == AllClocks(rs) + ClocksOf(r)
  {
    assert forall q | q in rs :: q in rs + [r];
    assert (rs + [r])[..|rs|] == rs;
  }

  lemma {:induction false} AnswersSnoc(t: Target, hist: seq<Clock>, rs: seq<Request>, r: Request)
    requires forall q | q in rs + [r] :: WellFormed(q)
    ensures forall q | q in rs :: WellFormed(q)
    ensures var now := hist + AllClocks(rs);
            Answers(t, hist, rs + [r]) ==
            Answers(t, hist, rs) + if r.Shift? then [Serve(t, Run(TestLogicReset, now), now, ClocksOf(r))] else []
  {
    assert forall q | q in rs :: q in rs + [r];
    assert (rs + [r])[..|rs|] == rs;
  }

  /** However a stream is cut into shift commands, the answers put together are those to the whole stream. */
  lemma {:induction false} AnswersFlatten(t: Target, hist: seq<Clock>, rs: seq<Request>)
    requires forall r | r in rs :: WellFormed(r)
    ensures Flatten(Answers(t, hist, rs)) == Serve(t, Run(TestLogicReset, hist), hist, AllClocks(rs))
  {
    hide Serve, Run, ClocksOf, WellFormed;
    var s := Run(TestLogicReset, hist);
    if rs == [] {
      ServeNothing(t, s, hist);
    } else {
      var init, last := rs[..|rs| - 1], rs[|rs| - 1];
      AnswersFlatten(t, hist, init);
      ServeAppend(t, s, hist, AllClocks(init), ClocksOf(last));
      RunAppend(TestLogicReset, hist, AllClocks(init));
      if last.Shift? {
        var more := Serve(t, Run(TestLogicReset, hist + AllClocks(init)), hist + AllClocks(init), ClocksOf(last));
        assert (Answers(t, hist, init) + [more])[..|Answers(t, hist, init)|] == Answers(t, hist, init);
      } else {
        NoClocks(last);
        ServeNothing(t, Run(s, AllClocks(init)), hist + AllClocks(init));
        assert Answers(t, hist, rs) == Answers(t, hist, init);
      }
    }
  }

  lemma {:induction false} ServeNothing(t: Target, s: State, hist: seq<Clock>)
    ensures Serve(t, s, hist, []) == []
  {
  }

  lemma NoClocks(r: Request)
    requires WellFormed(r) && !r.Shift?
    ensures ClocksOf(r) == []
  {
  }

  /** Chunking is invisible: two ways of cutting a stream into shift commands get the same TDO bits, even if a cut
      falls inside a shift or an idle run. */
  lemma {:induction false} ChunkingInvisible(t: Target, hist: seq<Clock>, a: seq<Request>, b: seq<Request>)
    requires (forall r | r in a :: WellFormed(r)) && (forall r | r in b :: WellFormed(r))
    requires AllClocks(a) == AllClocks(b)
    ensures Flatten(Answers(t, hist, a)) == Flatten(Answers(t, hist, b))
  {
    AnswersFlatten(t, hist, a);
    AnswersFlatten(t, hist, b);
  }

  /** The numbers of bits that a client awaits. */
  function ShiftCounts(rs: seq<Request>): seq<nat> {
    if rs == [] then []
    else
      ShiftCounts(rs[..|rs| - 1]) + if rs[|rs| - 1].Shift? then [rs[|rs| - 1].bits] else []
  }

  /** The TDO bits that the client takes out of the replies to `rs`, put together, are `bits`. */
  ghost predicate Delivers(replies: seq<seq<byte>>, rs: seq<Request>, bits: seq<bool>) {
    var counts := ShiftCounts(rs);
    && |replies| == |counts|
    && (forall k | 0 <= k < |counts| :: counts[k] <= 8 * |replies[k]|)
    && bits == Flatten(seq(|counts|, k requires 0 <= k < |counts| && counts[k] <= 8 * |replies[k]| =>
                             Unpack(replies[k], counts[k])))
  }

  lemma {:induction false} AnswerCounts(t: Target, hist: seq<Clock>, rs: seq<Request>)
    requires forall r | r in rs :: WellFormed(r)
    ensures |Answers(t, hist, rs)| == |ShiftCounts(rs)|
    ensures forall k | 0 <= k < |ShiftCounts(rs)| :: |Answers(t, hist, rs)[k]| == ShiftCounts(rs)[k]
  {
    hide Serve, Run, WellFormed;
    if rs != [] {
      AnswerCounts(t, hist, rs[..|rs| - 1]);
    }
  }

  /** Replies that hold the answers deliver the answer to the whole stream. */
  lemma {:induction false} AnswersDeliver(t: Target, hist: seq<Clock>, rs: seq<Request>, replies: seq<seq<byte>>)
    requires forall r | r in rs :: WellFormed(r)
    requires |replies| == |Answers(t, hist, rs)|
    requires forall k | 0 <= k < |replies| :: Packed(replies[k], Answers(t, hist, rs)[k])
    ensures Delivers(replies, rs, Serve(t, Run(TestLogicReset, hist), hist, AllClocks(rs)))
  {
    hide Serve, Run, WellFormed, Answers, BitAt, AllClocks, ShiftCounts, Flatten;
    var answers, counts := Answers(t, hist, rs), ShiftCounts(rs);
    AnswerCounts(t, hist, rs);
    AnswersFlatten(t, hist, rs);
    forall k | 0 <= k < |replies| ensures counts[k] <= 8 * |replies[k]| && Unpack(replies[k], counts[k]) == answers[k] {
      assert Packed(replies[k], answers[k]);
    }
    assert answers == seq(|counts|, k requires 0 <= k < |counts| && counts[k] <= 8 * |replies[k]| =>
                                      Unpack(replies[k], counts[k]));
  }

  lemma {:induction false} AllClocksAppend(a: seq<Request>, b: seq<Request>)
    requires forall r | r in a + b :: WellFormed(r)
    ensures (forall r | r in a :: r in a + b) && (forall r | r in b :: r in a + b)
    ensures AllClocks(a + b) == AllClocks(a) + AllClocks(b)
    decreases b
  {
    hide ClocksOf, WellFormed;
    if b == [] {
      assert a + b == a && AllClocks(a) + [] == AllClocks(a);
    } else {
      var init, last := b[..|b| - 1], b[|b| - 1];
      assert a + b == a + init + [last] && last in a + b;
      assert forall r | r in a + init :: r in a + b;
      AllClocksAppend(a, init);
      AllClocksSnoc(a + init, last);
      ConcatAssoc(AllClocks(a), AllClocks(init), ClocksOf(last));
    }
  }

  lemma {:induction false} NoAnswers(t: Target, hist: seq<Clock>)
    ensures Answers(t, hist, []) == []
  {
  }

  lemma {:induction false} AnswersAppend(t: Target, hist: seq<Clock>, a: seq<Request>, b: seq<Request>)
    requires forall r | r in a + b :: WellFormed(r)
    ensures (forall r | r in a :: r in a + b) && (forall r | r in b :: r in a + b)
    ensures Answers(t, hist, a + b) == Answers(t, hist, a) + Answers(t, hist + AllClocks(a), b)
    decreases b
  {
    hide ClocksOf, WellFormed, Serve, Run, AllClocks, Answers;
    if b == [] {
      NoAnswers(t, hist + AllClocks(a));
      assert a + b == a && Answers(t, hist, a) + [] == Answers(t, hist, a);
    } else {
      var init, last := b[..|b| - 1], b[|b| - 1];
      assert a + b == a + init + [last] && last in a + b;
      assert forall r | r in a + init :: r in a + b;
      AnswersAppend(t, hist, a, init);
      AllClocksAppend(a, init);
      ConcatAssoc(hist, AllClocks(a), AllClocks(init));
      AnswersSnoc(t, hist, a + init, last);
      AnswersSnoc(t, hist + AllClocks(a), init, last);
      assert init + [last] == b;
    }
  }
}
