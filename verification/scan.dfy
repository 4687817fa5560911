/** What a scan means on the wires and to its caller, whichever adapter performs it. */
module Scan {
  import opened Bits
  import opened Tap

  /** A scan whose samples have still to be handed to the caller. */
  datatype Job = Job(flipTms: bool, samples: seq<bool>)

  ghost predicate ValidJob(j: Job) {
    j.flipTms ==> |j.samples| > 0
  }

  /** The bits sent before the one that goes along with TMS=1. */
  function Bulk(n: nat, flipTms: bool): nat
    requires flipTms ==> n > 0
  {
    if flipTms then n - 1 else n
  }

  /** `n` clocks shifting out `data`, TMS at level `pin` except for a final 1 if `flipTms`. */
  function ScanClocks(pin: bool, data: seq<byte>, n: nat, flipTms: bool): (cs: seq<Clock>)
    requires n <= 8 * |data|
    ensures |cs| == n
  {
    seq(n, i requires 0 <= i < n => Clock(if flipTms && i == n - 1 then true else pin, BitAt(data, i)))
  }

  /** `now` is a receive buffer after a scan has been read back into `before`: the samples, zero padding up to
      the byte boundary, and the rest as before. Only the bytes of the bulk bits are cleared first, so a last bit
      that starts a byte of its own is merged into what was there. */
  ghost predicate Received(now: seq<byte>, before: seq<byte>, j: Job) {
    && ValidJob(j)
    && var n := |j.samples|;
    && var cleared := 8 * ((Bulk(n, j.flipTms) + 7) / 8);
    && |now| == |before| && n <= 8 * |now|
    && (forall i | 0 <= i < 8 * ((n + 7) / 8) ::
          BitAt(now, i) == ((i < n && j.samples[i]) || (i >= cleared && BitAt(before, i))))
    && forall b | (n + 7) / 8 <= b < |now| :: now[b] == before[b]
  }

  /** The callers pass a zeroed buffer, and get exactly the samples. */
  lemma ReceivedBits(now: seq<byte>, before: seq<byte>, j: Job)
    requires Received(now, before, j) && forall b | 0 <= b < |before| :: before[b] == 0
    ensures |j.samples| <= 8 * |now| && forall i | 0 <= i < |j.samples| :: BitAt(now, i) == j.samples[i]
  {
    forall i | 0 <= i < |j.samples| ensures BitAt(now, i) == j.samples[i] {
      ZeroHasNoBits(i % 8);
    }
  }

  lemma ReceivedUnpacks(now: seq<byte>, before: seq<byte>, j: Job)
    requires Received(now, before, j) && forall b | 0 <= b < |before| :: before[b] == 0
    ensures |j.samples| <= 8 * |now| && Unpack(now, |j.samples|) == j.samples
  {
    ReceivedBits(now, before, j);
  }

  /** What a scan leaves in a receive buffer is determined by its samples. */
  lemma ReceivedUnique(a: seq<byte>, b: seq<byte>, before: seq<byte>, j: Job)
    requires Received(a, before, j) && Received(b, before, j)
    ensures a == b
  {
    Pow2Of8();
    forall i | 0 <= i < |a| ensures a[i] == b[i] {
      if i < (|j.samples| + 7) / 8 {
        forall k: nat | k < 8 ensures Bit(a[i], k) == Bit(b[i], k) {
          assert (8 * i + k) / 8 == i && (8 * i + k) % 8 == k;
          assert BitAt(a, 8 * i + k) == BitAt(b, 8 * i + k);
        }
        SameBits(a[i], b[i], 8);
      }
    }
  }

  /** A level of TMS that is held either keeps the TAP in its state or never leads back to it. */
  function StepsToRest(s: State, p: bool): nat {
    match s
    case TestLogicReset => if p then 0 else 1
    case RunTestIdle => if p then 3 else 0
    case SelectDRScan => 2
    case CaptureDR => if p then 5 else 1
    case ShiftDR => if p then 5 else 0
    case Exit1DR => if p then 4 else 1
    case PauseDR => if p then 5 else 0
    case Exit2DR => if p then 4 else 1
    case UpdateDR => if p then 3 else 1
    case SelectIRScan => if p then 1 else 2
    case CaptureIR => if p then 5 else 1
    case ShiftIR => if p then 5 else 0
    case Exit1IR => if p then 4 else 1
    case PauseIR => if p then 5 else 0
    case Exit2IR => if p then 4 else 1
    case UpdateIR => if p then 3 else 1
  }

  lemma {:induction false} Held(s: State, p: bool, cs: seq<Clock>)
    requires forall i | 0 <= i < |cs| :: cs[i].tms == p
    ensures var n := StepsToRest(s, p); StepsToRest(Run(s, cs), p) == if |cs| < n then n - |cs| else 0
    ensures NextState(s, p) == s ==> Run(s, cs) == s
    decreases cs
  {
    if cs != [] {
      Held(NextState(s, p), p, cs[1..]);
    }
  }

  lemma {:induction false} HeldThenOne(s: State, cs: seq<Clock>)
    requires cs != [] && forall i | 0 <= i < |cs| :: !cs[i].tms
    ensures NextState(Run(s, cs), true) == NextState(NextState(s, false), true)
    decreases cs
  {
    if |cs| > 1 {
      HeldThenOne(NextState(s, false), cs[1..]);
    } else {
      assert Run(NextState(s, false), cs[1..]) == NextState(s, false);
    }
  }

  /** Where the tracked state, which moves just for a bit sent with TMS=1, is right after the pins have held TMS at `p` for
      the clocks `cs`, with such a bit behind them (`flipTms`) or not: in Shift-DR and Shift-IR with the pin low it
      is, but not everywhere. */
  lemma {:induction false} TrackedExactly(s: State, p: bool, cs: seq<Clock>, flipTms: bool)
    requires forall i | 0 <= i < |cs| :: cs[i].tms == p
    ensures (if flipTms then NextState(Run(s, cs), true) == NextState(s, true) else Run(s, cs) == s)
            <==> cs == [] || (if flipTms then NextState(NextState(s, p), true) == NextState(s, true)
                              else NextState(s, p) == s)
  {
    if cs != [] {
      Held(s, p, cs);
      if p {
        RunOnes(s, cs);
        Held(NextState(s, true), p, cs);
      } else {
        HeldThenOne(s, cs);
      }
    }
  }

  lemma {:induction false} RunOnes(s: State, cs: seq<Clock>)
    requires forall i | 0 <= i < |cs| :: cs[i].tms
    ensures NextState(Run(s, cs), true) == Run(NextState(s, true), cs)
    decreases cs
  {
    if cs != [] {
      RunOnes(NextState(s, true), cs[1..]);
    }
  }

  /** A scan of one bit on the way to Shift-DR leaves the tracked state behind. */
  lemma TrackedWrong(c: Clock)
    requires !c.tms
    ensures Run(CaptureDR, [c]) != CaptureDR
  {
    TrackedExactly(CaptureDR, false, [c], false);
  }
}
