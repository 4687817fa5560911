/** The USB link to an adapter: partial transfers, and the retry loops that hide them. */
module Ftdi {
  import opened Bits
  import opened Reference
  import MpsseChip
  import BlasterChip

  datatype Device = MpsseDevice(target: Target) | BlasterDevice(target: Target)
  {
    /** All response bytes produced by an adapter that has received `bytes`. */
    function Respond(bytes: seq<byte>): seq<byte> {
      match this
      case MpsseDevice(t) => MpsseChip.Exec(t, MpsseChip.POWER_UP, bytes).resp
      case BlasterDevice(t) => BlasterChip.Exec(t, BlasterChip.POWER_UP, bytes).resp
    }
  }

  const RETRIES := 100

  /** How a transfer ended: with an error, with fewer bytes moved than asked for, or with all of them. */
  datatype Transfer = Error | Partial | Complete

  /** The number of transfers, up to the last, that have been partial in a row. */
  function Row(transfers: seq<Transfer>): nat {
    if transfers == [] || transfers[|transfers| - 1] != Partial then 0 else Row(transfers[..|transfers| - 1]) + 1
  }

  lemma {:induction false} RowSnoc(transfers: seq<Transfer>, last: Transfer)
    ensures Row(transfers + [last]) == if last == Partial then Row(transfers) + 1 else 0
  {
    assert (transfers + [last])[..|transfers|] == transfers;
  }

  /** A retry loop may give up: its last transfer has failed, or all of the 100 it may make have been partial. */
  ghost predicate GivesUp(before: seq<Transfer>, after: seq<Transfer>) {
    && |before| < |after|
    && (after[|after| - 1] == Error
        || (|after| == |before| + 100 && forall i | |before| <= i < |after| :: after[i] == Partial))
  }

  /** The link is to blame: a transfer has failed, or 100 in a row have been partial. */
  ghost predicate Blamed(transfers: seq<Transfer>) {
    exists i | 0 <= i < |transfers| :: transfers[i] == Error || Row(transfers[..i + 1]) >= 100
  }

  lemma {:induction false} RowOfPartials(before: seq<Transfer>, after: seq<Transfer>)
    requires before <= after && forall i | |before| <= i < |after| :: after[i] == Partial
    ensures Row(after) == Row(before) + |after| - |before|
    decreases |after|
  {
    if |before| < |after| {
      var init := after[..|after| - 1];
      assert after == init + [Partial];
      RowOfPartials(before, init);
    } else {
      assert before == after;
    }
  }

  lemma {:induction false} BlameGrows(before: seq<Transfer>, after: seq<Transfer>)
    requires before <= after
    ensures Blamed(before) ==> Blamed(after)
  {
    if Blamed(before) {
      var i :| 0 <= i < |before| && (before[i] == Error || Row(before[..i + 1]) >= 100);
      assert after[i] == before[i] && after[..i + 1] == before[..i + 1];
    }
  }

  lemma {:induction false} GivingUpBlames(before: seq<Transfer>, after: seq<Transfer>)
    requires before <= after && GivesUp(before, after)
    ensures Blamed(after)
  {
    var i := |after| - 1;
    if after[i] != Error {
      RowOfPartials(before, after);
    }
    assert after[..i + 1] == after;
  }

  /** An open device. A transfer may move fewer bytes than asked for, or fail; `patience` bounds how often a read finds
      nothing although there is something to come. `broken` records that a transfer was given up. `starved` records a
      read when no byte was left to come: the program would wait for ever, and the model makes up the bytes.
      A reliable link never fails, and completes one of any 100 transfers in a row. */
  class Context {
    const device: Device
    const reliable: bool
    var written: seq<byte>
    var taken: nat
    var patience: nat
    var transfers: seq<Transfer>
    ghost var starved: bool
    ghost var broken: bool

    constructor (device: Device, patience: nat, reliable: bool)
      ensures this.device == device && this.reliable == reliable
      ensures Sound() && written == [] && taken == 0 && !starved && !broken
    {
      this.device := device;
      this.patience := patience;
      this.reliable := reliable;
      written, taken, transfers, starved, broken := [], 0, [], false, false;
    }

    /** No read waits for a byte that will not come unless a transfer has been given up before; none is given up unless
        the link is to blame, and none on a reliable link. */
    ghost predicate Sound()
      reads this`starved, this`broken, this`transfers
    {
      && (starved ==> broken)
      && (broken ==> Blamed(transfers))
      && (reliable ==> !broken)
    }

    /** The response bytes not read yet are `Responses()[taken..]`. */
    function Responses(): seq<byte>
      reads this`written
    {
      device.Respond(written)
    }

    /** `ftdi_write_data`: moves any prefix of the data, or fails. */
    method WriteData(data: seq<byte>) returns (res: int)
      modifies this`written, this`transfers
      ensures -1 <= res <= |data|
      ensures written == old(written) + if res < 0 then [] else data[..res]
      ensures transfers == old(transfers) + [if res < 0 then Error else if res < |data| then Partial else Complete]
      ensures reliable ==> res >= 0 && Row(transfers) < 100
    {
      if reliable && Row(transfers) >= 99 {
        res := |data|;
      } else if * {
        res := if reliable then 0 else -1;
      } else {
        res :| 0 <= res <= |data|;
      }
      var last := if res < 0 then Error else if res < |data| then Partial else Complete;
      RowSnoc(transfers, last);
      transfers := transfers + [last];
      if res > 0 {
        written := written + data[..res];
      }
    }

    /** `ftdi_read_data`: moves some of the response bytes to come into `dst[off..off + len]`, or fails. */
    method ReadData(dst: array<byte>, off: nat, len: nat) returns (res: int)
      requires off + len <= dst.Length
      modifies this`taken, this`patience, this`transfers, this`starved, dst
      ensures -1 <= res <= len
      ensures forall i | 0 <= i < dst.Length && !(off <= i < off + res) :: dst[i] == old(dst[i])
      ensures transfers == old(transfers) + [if res < 0 then Error else if res < len then Partial else Complete]
      ensures old(taken) < |Responses()| || len == 0 ==> starved == old(starved)
      ensures old(taken) < |Responses()| ==>
                && taken == old(taken) + (if res < 0 then 0 else res) <= |Responses()|
                && forall i | off <= i < off + res :: dst[i] == Responses()[old(taken) + i - off]
      ensures len == 0 ==> taken == old(taken) && res == 0
      ensures patience <= old(patience) && (len > 0 && res <= 0 ==> patience < old(patience))
      ensures reliable ==> res >= 0
      ensures reliable && old(taken) + len <= |Responses()| ==> Row(transfers) < 100
    {
      hide Responses;
      var idle: bool, failing: bool := *, *;
      if len == 0 {
        res := 0;
      } else if taken >= |Responses()| {
        starved := true;
        res :| 0 < res <= len;
        forall i | 0 <= i < res {
          dst[off + i] := 0;
        }
        taken := taken + res;
      } else {
        if reliable && Row(transfers) >= 99 && taken + len <= |Responses()| {
          res := len;
        } else if patience > 0 && idle {
          patience := patience - 1;
          res := if failing && !reliable then -1 else 0;
        } else {
          res :| 0 < res <= len && taken + res <= |Responses()|;
        }
        if res > 0 {
          var resp := Responses()[taken..taken + res];
          forall i | 0 <= i < res {
            dst[off + i] := resp[i];
          }
          taken := taken + res;
        }
      }
      var last := if res < 0 then Error else if res < len then Partial else Complete;
      RowSnoc(transfers, last);
      transfers := transfers + [last];
    }

    /** On success all of `data` has been moved, in order, exactly once; on failure a proper prefix of it, and the last
        transfer has failed or 100 have been partial. */
    method WriteRetry(data: seq<byte>) returns (ok: bool)
      modifies this`written, this`transfers, this`broken
      ensures old(written) <= written <= old(written) + data
      ensures ok <==> written == old(written) + data
      ensures old(transfers) <= transfers && |transfers| <= |old(transfers)| + 100
      ensures !ok ==> GivesUp(old(transfers), transfers)
      ensures broken == (old(broken) || !ok) && (reliable ==> ok)
      ensures old(Sound()) ==> Sound()
    {
      hide Row;
      var retry := RETRIES;
      var offset := 0;
      while offset < |data| && retry > 0
        invariant 0 <= retry <= RETRIES && offset <= |data|
        invariant written == old(written) + data[..offset]
        invariant old(transfers) <= transfers && |transfers| == |old(transfers)| + RETRIES - retry
        invariant offset < |data| ==> forall i | |old(transfers)| <= i < |transfers| :: transfers[i] == Partial
        invariant reliable && retry < RETRIES ==> Row(transfers) < 100
        invariant broken == old(broken)
        decreases retry
      {
        var res := WriteData(data[offset..]);
        if res < 0 {
          broken := true;
          GivingUpBlames(old(transfers), transfers);
          return false;
        }
        assert data[..offset] + data[offset..][..res] == data[..offset + res];
        offset := offset + res;
        retry := retry - 1;
      }
      ok := offset == |data|;
      BlameGrows(old(transfers), transfers);
      if !ok {
        broken := true;
        RowOfPartials(old(transfers), transfers);
        GivingUpBlames(old(transfers), transfers);
      }
    }

    /** If the device has answered, or is to answer, `len` bytes more: on success the next `len` of them have been moved
        to `dst[off..]`, in order, exactly once; on failure fewer of them, and the last transfer has failed or 100 have
        been partial. */
    method ReadRetry(dst: array<byte>, off: nat, len: nat) returns (ok: bool)
      requires off + len <= dst.Length
      modifies this`taken, this`patience, this`transfers, this`starved, this`broken, dst
      ensures forall i | 0 <= i < dst.Length && !(off <= i < off + len) :: dst[i] == old(dst[i])
      ensures old(transfers) <= transfers && |transfers| <= |old(transfers)| + 100
      ensures !ok ==> GivesUp(old(transfers), transfers)
      ensures broken == (old(broken) || !ok)
      ensures old(taken) + len <= |Responses()| ==>
                && starved == old(starved)
                && old(taken) <= taken <= old(taken) + len
                && (ok <==> taken == old(taken) + len)
                && (forall i | off <= i < off + taken - old(taken) :: dst[i] == Responses()[old(taken) + i - off])
                && (reliable ==> ok)
      ensures old(Sound()) && (old(broken) || old(taken) + len <= |Responses()|) ==> Sound()
    {
      hide Responses, Row;
      var retry := RETRIES;
      var offset := 0;
      while offset < len && retry > 0
        invariant 0 <= retry <= RETRIES && offset <= len
        invariant forall i | 0 <= i < dst.Length && !(off <= i < off + len) :: dst[i] == old(dst[i])
        invariant broken == old(broken)
        invariant old(transfers) <= transfers && |transfers| == |old(transfers)| + RETRIES - retry
        invariant offset < len ==> forall i | |old(transfers)| <= i < |transfers| :: transfers[i] == Partial
        invariant old(taken) + len <= |Responses()| ==>
                    && starved == old(starved)
                    && taken == old(taken) + offset
                    && (forall i | off <= i < off + offset :: dst[i] == Responses()[old(taken) + i - off])
                    && (reliable && retry < RETRIES ==> Row(transfers) < 100)
        decreases retry
      {
        var res := ReadData(dst, off + offset, len - offset);
        if res < 0 {
          broken := true;
          GivingUpBlames(old(transfers), transfers);
          return false;
        }
        offset := offset + res;
        retry := retry - 1;
      }
      ok := offset == len;
      BlameGrows(old(transfers), transfers);
      if !ok {
        broken := true;
        RowOfPartials(old(transfers), transfers);
        GivingUpBlames(old(transfers), transfers);
      }
    }
  }
}
