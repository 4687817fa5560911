/** Moving the bits of a region between packed vectors. */
module Packing {
  import opened Bits

  const BUFFER_SIZE := 4096

  /** Copies the bits [begin, end) of `src` to the front of a zeroed buffer, and notes whether any is set. */
  method CopyBits(src: array<byte>, begin: nat, end: nat) returns (dst: array<byte>, anySet: bool)
    requires begin <= end <= 8 * src.Length && end - begin <= 8 * BUFFER_SIZE
    ensures fresh(dst) && dst.Length == BUFFER_SIZE
    ensures forall i | 0 <= i < 8 * BUFFER_SIZE ::
              BitAt(dst[..], i) == (i < end - begin && BitAt(src[..], begin + i))
    ensures !anySet <==> forall i | begin <= i < end :: !BitAt(src[..], i)
  {
    hide Bit, SetBit;
    dst := new byte[BUFFER_SIZE](i => 0);
    anySet := false;
    forall i | 0 <= i < 8 * BUFFER_SIZE ensures !BitAt(dst[..], i) {
      ZeroHasNoBits(i % 8);
    }
    ghost var bits := src[..];
    for i := begin to end
      invariant dst != src && src[..] == bits
      invariant forall j | 0 <= j < 8 * BUFFER_SIZE :: BitAt(dst[..], j) == (j < i - begin && BitAt(bits, begin + j))
      invariant !anySet <==> forall j | begin <= j < i :: !BitAt(bits, j)
    {
      var bit := Bit(src[i / 8], i % 8);
      var off := i - begin;
      assert bit == BitAt(bits, i) == BitAt(bits, begin + off);
      SetBitAt(dst[..], off, bit);
      ghost var before := dst[..];
      dst[off / 8] := SetBit(dst[off / 8], off % 8, bit);
      assert dst[..] == before[off / 8 := SetBit(before[off / 8], off % 8, bit)];
      forall j | 0 <= j < 8 * BUFFER_SIZE
        ensures BitAt(dst[..], j) == (j < i + 1 - begin && BitAt(bits, begin + j))
      {
        assert BitAt(dst[..], j) == (BitAt(before, j) || (j == off && bit));
      }
      if bit {
        anySet := true;
      }
    }
  }

  /** ORs the first bits of `src` into the bits [begin, end) of `dst`. */
  method MergeBits(src: array<byte>, dst: array<byte>, begin: nat, end: nat)
    requires begin <= end <= 8 * dst.Length && end - begin <= 8 * src.Length && src != dst
    modifies dst
    ensures forall i | 0 <= i < 8 * dst.Length ::
              BitAt(dst[..], i) == (BitAt(old(dst[..]), i) || (begin <= i < end && BitAt(src[..], i - begin)))
  {
    hide Bit, SetBit;
    for i := begin to end
      invariant forall j | 0 <= j < 8 * dst.Length ::
                  BitAt(dst[..], j) == (BitAt(old(dst[..]), j) || (begin <= j < i && BitAt(src[..], j - begin)))
    {
      var off := i - begin;
      var bit := Bit(src[off / 8], off % 8);
      assert bit == BitAt(src[..], off);
      SetBitAt(dst[..], i, bit);
      ghost var before := dst[..];
      dst[i / 8] := SetBit(dst[i / 8], i % 8, bit);
      assert dst[..] == before[i / 8 := SetBit(before[i / 8], i % 8, bit)];
    }
  }
}
