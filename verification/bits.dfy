/** Unsigned C arithmetic on bytes and the packed bit vectors `a[i / 8] >> (i % 8)` built from them. */
module Bits {

  type byte = x: int | 0 <= x < 256

  /** `(b >> k) & 1` */
  predicate Bit(b: nat, k: nat) {
    if k == 0 then b % 2 == 1 else Bit(b / 2, k - 1)
  }

  /** `b >> k` */
  function Shr(b: nat, k: nat): nat {
    if k == 0 then b else Shr(b / 2, k - 1)
  }

  /** `b | (v << k)` for a one-bit `v` */
  function OrBit(b: nat, k: nat, v: bool): nat {
    if k == 0 then b - b % 2 + (if v || b % 2 == 1 then 1 else 0)
    else 2 * OrBit(b / 2, k - 1, v) + b % 2
  }

  function Pow2(n: nat): nat {
    if n == 0 then 1 else 2 * Pow2(n - 1)
  }

  /** Bit `i` of a packed vector, least significant bit of byte 0 first. */
  predicate BitAt(a: seq<byte>, i: nat)
    requires i < 8 * |a|
  {
    Bit(a[i / 8], i % 8)
  }

  function Repeat<T>(x: T, n: nat): (r: seq<T>)
    ensures |r| == n
  {
    seq(n, i => x)
  }

  function Flatten<T>(parts: seq<seq<T>>): seq<T> {
    if parts == [] then [] else Flatten(parts[..|parts| - 1]) + parts[|parts| - 1]
  }

  lemma {:induction false} FlattenSnoc<T>(parts: seq<seq<T>>, s: seq<T>)
    ensures Flatten(parts + [s]) == Flatten(parts) + s
  {
    assert (parts + [s])[..|parts|] == parts;
  }

  function Unpack(a: seq<byte>, n: nat): (bits: seq<bool>)
    requires n <= 8 * |a|
  {
    seq(n, i requires 0 <= i < n => BitAt(a, i))
  }

  /** `v` is the shortest byte vector that holds `bits`; the padding bits are zero. */
  ghost predicate Packed(v: seq<byte>, bits: seq<bool>) {
    && |v| == (|bits| + 7) / 8
    && forall i | 0 <= i < 8 * |v| :: BitAt(v, i) == (i < |bits| && bits[i])
  }

  lemma {:induction false} OrBitBits(b: nat, k: nat, v: bool, j: nat)
    ensures Bit(OrBit(b, k, v), j) == (Bit(b, j) || (j == k && v))
  {
    var r := OrBit(b, k, v);
    if k == 0 {
      assert r / 2 == b / 2;
      assert r % 2 == 1 <==> v || b % 2 == 1;
    } else {
      assert r / 2 == OrBit(b / 2, k - 1, v) && r % 2 == b % 2;
      if j > 0 {
        OrBitBits(b / 2, k - 1, v, j - 1);
      }
    }
  }

  lemma {:induction false} OrBitBound(b: nat, k: nat, v: bool, m: nat)
    requires b < Pow2(m) && k < m
    ensures OrBit(b, k, v) < Pow2(m)
  {
    if k > 0 {
      OrBitBound(b / 2, k - 1, v, m - 1);
    }
  }

  lemma Pow2Of8()
    ensures Pow2(8) == 256 && Pow2(7) == 128
  {
    assert Pow2(3) == 8;
    assert Pow2(5) == 32;
  }

  lemma Pow2Plus4(n: nat)
    ensures Pow2(n + 4) == 16 * Pow2(n)
  {
    assert Pow2(n + 4) == 2 * Pow2(n + 3) && Pow2(n + 3) == 2 * Pow2(n + 2);
    assert Pow2(n + 2) == 2 * Pow2(n + 1) && Pow2(n + 1) == 2 * Pow2(n);
  }

  lemma Pow2Of32()
    ensures Pow2(32) == 0x1_0000_0000
  {
    Pow2Of8();
    Pow2Plus4(8);
    Pow2Plus4(12);
    Pow2Plus4(16);
    Pow2Plus4(20);
    Pow2Plus4(24);
    Pow2Plus4(28);
  }

  /** The low `m` bits of `x + 2^m * y` are those of `x`, the others those of `y`. */
  lemma {:induction false} JoinedBits(x: nat, y: nat, m: nat, k: nat)
    requires x < Pow2(m)
    ensures Bit(x + Pow2(m) * y, k) == if k < m then Bit(x, k) else Bit(y, k - m)
  {
    if m > 0 {
      var p := Pow2(m - 1) * y;
      assert Pow2(m) * y == 2 * p;
      assert (x + 2 * p) / 2 == x / 2 + p && (x + 2 * p) % 2 == x % 2;
      if k > 0 {
        JoinedBits(x / 2, y, m - 1, k - 1);
      }
    }
  }

  /** Four bytes, the least significant first, as a 32-bit number. */
  function Word(w: seq<byte>): nat
    requires |w| == 4
  {
    w[0] as int + 0x100 * (w[1] as int + 0x100 * (w[2] as int + 0x100 * w[3] as int))
  }

  lemma {:induction false} WordBits(w: seq<byte>, k: nat)
    requires |w| == 4 && k < 32
    ensures Word(w) < Pow2(32) && Bit(Word(w), k) == Bit(w[k / 8], k % 8)
  {
    Pow2Of8();
    Pow2Of32();
    var w1 := w[2] as int + 0x100 * w[3] as int;
    var w2 := w[1] as int + 0x100 * w1;
    JoinedBits(w[0], w2, 8, k);
    if k >= 8 {
      JoinedBits(w[1], w1, 8, k - 8);
    }
    if k >= 16 {
      JoinedBits(w[2], w[3], 8, k - 16);
    }
  }

  /** `b |= v << k` on an 8-bit lvalue */
  function SetBit(b: byte, k: nat, v: bool): (r: byte)
    requires k < 8
    ensures forall j: nat :: Bit(r, j) == (Bit(b, j) || (j == k && v))
  {
    Pow2Of8();
    OrBitBound(b, k, v, 8);
    assert forall j: nat :: Bit(OrBit(b, k, v), j) == (Bit(b, j) || (j == k && v)) by {
      forall j: nat { OrBitBits(b, k, v, j); }
    }
    OrBit(b, k, v)
  }

  lemma {:induction false} ShrBits(b: nat, n: nat, k: nat)
    ensures Bit(Shr(b, n), k) == Bit(b, n + k)
    ensures Shr(b, n) <= b
  {
    if n > 0 {
      ShrBits(b / 2, n - 1, k);
    }
  }

  function ShrByte(b: byte, n: nat): byte {
    ShrBits(b, n, 0);
    Shr(b, n)
  }

  lemma {:induction false} HighBitsZero(b: nat, m: nat, k: nat)
    requires b < Pow2(m) && m <= k
    ensures !Bit(b, k)
  {
    if k > 0 {
      HighBitsZero(b / 2, if m == 0 then 0 else m - 1, k - 1);
    }
  }

  /** The bit one above the top of `x` can be added instead of OR-ed. */
  lemma {:induction false} TopBit(x: nat, m: nat, v: bool, j: nat)
    requires x < Pow2(m) && j <= m
    ensures Bit(x + (if v then Pow2(m) else 0), j) == if j < m then Bit(x, j) else v
  {
    if m > 0 {
      var y := x + (if v then Pow2(m) else 0);
      assert y / 2 == x / 2 + (if v then Pow2(m - 1) else 0) && y % 2 == x % 2;
      if j > 0 {
        TopBit(x / 2, m - 1, v, j - 1);
      }
    }
  }

  lemma {:induction false} SameBits(a: nat, b: nat, m: nat)
    requires a < Pow2(m) && b < Pow2(m)
    requires forall k: nat | k < m :: Bit(a, k) == Bit(b, k)
    ensures a == b
  {
    if m > 0 {
      assert Bit(a, 0) == Bit(b, 0);
      forall k: nat | k < m - 1 ensures Bit(a / 2, k) == Bit(b / 2, k) {
        assert Bit(a, k + 1) == Bit(b, k + 1);
      }
      SameBits(a / 2, b / 2, m - 1);
    }
  }

  lemma ZeroHasNoBits(k: nat)
    ensures !Bit(0, k)
  {
  }

  lemma ZeroBytes(a: seq<byte>, n: nat)
    requires n <= |a| && forall b | 0 <= b < n :: a[b] == 0
    ensures forall i | 0 <= i < 8 * n :: !BitAt(a, i)
  {
    forall i | 0 <= i < 8 * n ensures !BitAt(a, i) {
      ZeroHasNoBits(i % 8);
    }
  }

  lemma PackedPrefix(a: seq<byte>, n: nat, bits: seq<bool>)
    requires n == (|bits| + 7) / 8 <= |a|
    requires forall i | 0 <= i < 8 * n :: BitAt(a, i) == (i < |bits| && bits[i])
    ensures Packed(a[..n], bits)
  {
    forall i | 0 <= i < 8 * n ensures BitAt(a[..n], i) == (i < |bits| && bits[i]) {
      assert BitAt(a[..n], i) == BitAt(a, i);
    }
  }

  /** OR-ing a bit into a packed vector changes that bit and no other. */
  lemma SetBitAt(a: seq<byte>, i: nat, v: bool)
    requires i < 8 * |a|
    ensures forall j: nat | j < 8 * |a| ::
              BitAt(a[i / 8 := SetBit(a[i / 8], i % 8, v)], j) == (BitAt(a, j) || (j == i && v))
  {
    var b := a[i / 8 := SetBit(a[i / 8], i % 8, v)];
    forall j: nat | j < 8 * |a| ensures BitAt(b, j) == (BitAt(a, j) || (j == i && v)) {
      if j / 8 == i / 8 {
        assert j % 8 == i % 8 ==> j == i;
      }
    }
  }

  lemma ConcatAssoc<T>(a: seq<T>, b: seq<T>, c: seq<T>)
    ensures a + (b + c) == a + b + c
  {
  }
}
