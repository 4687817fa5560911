/** The write buffer in front of the MPSSE engine. */
module MpsseBuffer {
  import opened Bits
  import opened Ftdi

  const BUFFER_LENGTH := 8192
  const MAX_TRANSFER_LENGTH := 2048

  /** Commands are appended byte by byte. A transfer never splits one, and carries more than
      MAX_TRANSFER_LENGTH - 1 bytes only if a single command does. */
  class Buffer {
    const ftdi: Context
    const data: array<byte>
    var pos: nat
    /** The commands waiting in the buffer. */
    ghost var commands: seq<seq<byte>>

    constructor (ftdi: Context)
      ensures this.ftdi == ftdi && fresh(data) && Valid() && pos == 0
    {
      this.ftdi := ftdi;
      data := new byte[BUFFER_LENGTH];
      pos, commands := 0, [];
    }

    ghost predicate Bounded()
      reads this
    {
      data.Length == BUFFER_LENGTH && pos < BUFFER_LENGTH
    }

    ghost function Pending(): seq<byte>
      reads this, data
      requires Bounded()
    {
      data[..pos]
    }

    /** Every byte of every command so far, delivered or not. */
    ghost function Log(): seq<byte>
      reads this, data, ftdi
      requires Bounded()
    {
      ftdi.written + Pending()
    }

    /** Between commands, the buffer holds whole commands, and more than a full transfer only if it holds just one. */
    ghost predicate Valid()
      reads this, data
    {
      && Bounded()
      && Pending() == Flatten(commands)
      && (pos < MAX_TRANSFER_LENGTH || |commands| == 1)
    }

    method Flush() returns (ok: bool)
      requires Valid()
      modifies this`pos, this`commands, ftdi`written, ftdi`transfers, ftdi`broken
      ensures old(ftdi.Sound()) ==> ftdi.Sound()
      ensures Valid() && pos == 0 && commands == []
      ensures old(ftdi.written) <= ftdi.written <= old(Log())
      ensures ok <==> ftdi.written == old(Log())
      ensures Log() == ftdi.written
      ensures ftdi.broken == (old(ftdi.broken) || !ok) && (ftdi.reliable ==> ok)
    {
      if pos == 0 {
        commands := [];
        assert ftdi.written + data[..0] == ftdi.written;
        return true;
      }
      ok := ftdi.WriteRetry(data[..pos]);
      pos, commands := 0, [];
      assert ftdi.written + data[..0] == ftdi.written;
    }

    method IsEmpty() returns (empty: bool)
      ensures empty <==> pos == 0
    {
      empty := pos == 0;
    }

    /** Makes room for a command of `n` bytes, or says that it can never fit. */
    method EnsureSpace(n: nat) returns (ok: bool)
      requires Valid()
      modifies this`pos, this`commands, ftdi`written, ftdi`transfers, ftdi`broken
      ensures old(ftdi.Sound()) ==> ftdi.Sound()
      ensures Valid()
      ensures n >= 8192 ==> !ok && Log() == old(Log()) && ftdi.broken == old(ftdi.broken)
      ensures n < 8192 ==> ftdi.broken == (old(ftdi.broken) || !ok) && (ftdi.reliable ==> ok)
      ensures ok ==> Log() == old(Log()) && ((pos == 0 && commands == []) || pos + n < 2048)
      ensures n < 8192 && old(pos) + n < 2048 ==> ok && pos == old(pos) && ftdi.written == old(ftdi.written)
    {
      if n >= BUFFER_LENGTH {
        return false;
      }
      if pos + n >= MAX_TRANSFER_LENGTH {
        ok := Flush();
        return;
      }
      return true;
    }

    method AppendByte(b: byte)
      requires Bounded() && pos + 1 < BUFFER_LENGTH
      modifies this`pos, data
      ensures Bounded() && Pending() == old(Pending()) + [b]
    {
      data[pos] := b;
      pos := pos + 1;
    }

    method Append(bytes: seq<byte>)
      requires Bounded() && pos + |bytes| < BUFFER_LENGTH
      modifies this`pos, data
      ensures Bounded() && Pending() == old(Pending()) + bytes
    {
      forall i | 0 <= i < |bytes| {
        data[pos + i] := bytes[i];
      }
      pos := pos + |bytes|;
    }

    method AppendParts(op: byte, lo: byte, hi: byte, payload: seq<byte>)
      requires Bounded() && pos + 3 + |payload| < BUFFER_LENGTH
      modifies this`pos, data
      ensures Bounded() && Pending() == old(Pending()) + ([op, lo, hi] + payload)
    {
      AppendByte(op);
      AppendByte(lo);
      AppendByte(hi);
      assert Pending() == old(Pending()) + [op, lo, hi];
      Append(payload);
      ConcatAssoc(old(Pending()), [op, lo, hi], payload);
    }

    /** Appends one command, a three-byte head and its payload. */
    method AppendCommand(op: byte, lo: byte, hi: byte, payload: seq<byte>) returns (ok: bool)
      requires Valid()
      modifies this`pos, this`commands, data, ftdi`written, ftdi`transfers, ftdi`broken
      ensures old(ftdi.Sound()) ==> ftdi.Sound()
      ensures Valid() && pos < 8192 && (pos < 2048 || |commands| == 1)
      ensures 3 + |payload| >= 8192 ==> !ok && Log() == old(Log()) && ftdi.broken == old(ftdi.broken)
      ensures 3 + |payload| < 8192 ==> ftdi.broken == (old(ftdi.broken) || !ok) && (ftdi.reliable ==> ok)
      ensures ok ==> Log() == old(Log()) + ([op, lo, hi] + payload)
      ensures old(pos) + 3 + |payload| < 2048 ==> ok && ftdi.written == old(ftdi.written)
    {
      ok := EnsureSpace(3 + |payload|);
      if !ok {
        return;
      }
      ghost var before := Pending();
      ghost var s := [op, lo, hi] + payload;
      AppendParts(op, lo, hi, payload);
      FlattenSnoc(commands, s);
      ConcatAssoc(ftdi.written, before, s);
      commands := commands + [s];
    }

    /** Appends the one-byte command that makes the engine send its responses at once. */
    method AppendSendImmediate() returns (ok: bool)
      requires Valid()
      modifies this`pos, this`commands, data, ftdi`written, ftdi`transfers, ftdi`broken
      ensures old(ftdi.Sound()) ==> ftdi.Sound()
      ensures Valid()
      ensures ftdi.broken == (old(ftdi.broken) || !ok) && (ftdi.reliable ==> ok)
      ensures ok ==> Log() == old(Log()) + [0x87]
    {
      ok := EnsureSpace(1);
      if !ok {
        return;
      }
      ghost var before := Pending();
      AppendByte(0x87);
      FlattenSnoc(commands, [0x87]);
      ConcatAssoc(ftdi.written, before, [0x87]);
      commands := commands + [[0x87]];
    }
  }
}
