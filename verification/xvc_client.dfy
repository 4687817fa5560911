/** The XVC client's side of the wire: how requests are written, whatever the server makes of them. */
module XvcClient {
  import opened Bits
  import opened XvcProtocol

  predicate IsAscii(s: string) {
    forall i | 0 <= i < |s| :: s[i] as int < 128
  }

  function Ascii(s: string): (bytes: seq<byte>)
    requires IsAscii(s)
    ensures |bytes| == |s|
  {
    seq(|s|, i requires 0 <= i < |s| => s[i] as int)
  }

  /** A 32-bit number, the least significant byte first. */
  function LittleEndian(n: nat): (bytes: seq<byte>)
    requires n < 0x1_0000_0000
    ensures |bytes| == 4
  {
    [n % 256, n / 256 % 256, n / 65536 % 256, n / 16777216]
  }

  /** The fields fit the wire: a 32-bit count, and two vectors of as many bits, padded to bytes. */
  predicate Sendable(r: Request) {
    match r
    case GetInfo => true
    case SetTck(period) => period < 0x1_0000_0000
    case Shift(bits, tms, tdi) => bits < 0x1_0000_0000 && |tms| == |tdi| == (bits + 7) / 8
  }

  function Encode(r: Request): (bytes: seq<byte>)
    requires Sendable(r)
    ensures |bytes| > 0
  {
    match r
    case GetInfo => Ascii("getinfo:")
    case SetTck(period) => Ascii("settck:") + LittleEndian(period)
    case Shift(bits, tms, tdi) => Ascii("shift:") + LittleEndian(bits) + tms + tdi
  }

  function EncodeAll(rs: seq<Request>): seq<byte>
    requires forall r | r in rs :: Sendable(r)
  {
    if rs == [] then [] else Encode(rs[0]) + EncodeAll(rs[1..])
  }

  /** What has arrived of a request that has not arrived in full, if only nothing. */
  ghost predicate IsIncomplete(tail: seq<byte>) {
    exists r: Request :: Sendable(r) && tail < Encode(r)
  }

  lemma Words()
    ensures Ascii("getinfo:") == GETINFO && Ascii("settck:") == SETTCK && Ascii("shift:") == SHIFT
  {
  }

  lemma WordOf(n: nat)
    requires n < 0x1_0000_0000
    ensures Word(LittleEndian(n)) == n
  {
  }

  /** Which command word a window begins with shows in its first two bytes. */
  lemma FirstBytes(w: seq<byte>)
    ensures GETINFO <= w ==> |w| >= 8 && w[0] == 0x67
    ensures SETTCK <= w ==> |w| >= 7 && w[0] == 0x73 && w[1] == 0x65
    ensures SHIFT <= w ==> |w| >= 6 && w[0] == 0x73 && w[1] == 0x68
  {
  }

  /** The parser finds a request that has arrived in full, with all its fields, whatever follows. */
  lemma {:induction false} ParsesOne(r: Request, rest: seq<byte>)
    requires Sendable(r)
    ensures ParseRequest(Encode(r) + rest) == Parsed(r, |Encode(r)|)
    ensures (Encode(r) + rest)[|Encode(r)|..] == rest
  {
    hide Word, LittleEndian, Ascii;
    Words();
    FirstBytes(Encode(r) + rest);
    match r
    case GetInfo =>
      assert GETINFO <= GETINFO + rest;
    case SetTck(period) =>
      WordOf(period);
      var n := LittleEndian(period);
      assert SETTCK + n + rest == SETTCK + (n + rest);
      assert (SETTCK + n + rest)[7..11] == n;
    case Shift(bits, tms, tdi) =>
      ParsesShift(bits, tms, tdi, rest);
  }

  lemma {:induction false} ParsesShift(bits: nat, tms: seq<byte>, tdi: seq<byte>, rest: seq<byte>)
    requires Sendable(Shift(bits, tms, tdi))
    ensures var e := Encode(Shift(bits, tms, tdi));
            ParseRequest(e + rest) == Parsed(Shift(bits, tms, tdi), |e|)
  {
    hide Word, LittleEndian, Ascii;
    Words();
    WordOf(bits);
    var n, w := LittleEndian(bits), Encode(Shift(bits, tms, tdi)) + rest;
    FirstBytes(w);
    Fields(SHIFT, n, tms, tdi, rest);
  }

  lemma Fields(word: seq<byte>, n: seq<byte>, x: seq<byte>, y: seq<byte>, rest: seq<byte>)
    ensures var w, i, j := word + n + x + y + rest, |word| + |n|, |word| + |n| + |x|;
            word <= w && w[|word|..i] == n && w[i..j] == x && w[j..j + |y|] == y
  {
  }

  lemma OfWord(w: seq<byte>)
    requires |w| == 4
    ensures Word(w) < 0x1_0000_0000 && LittleEndian(Word(w)) == w
  {
    var n2 := w[2] as int + 0x100 * w[3] as int;
    var n1 := w[1] as int + 0x100 * n2;
    var n := w[0] as int + 0x100 * n1;
    assert n / 256 == n1 && n % 256 == w[0];
    assert n1 / 256 == n2 && n1 % 256 == w[1];
    assert n / 65536 == n2 && n / 16777216 == w[3];
  }

  /** It finds nothing else: what is taken out of a window is the encoding of the request found. */
  lemma {:induction false} ParsesOnly(w: seq<byte>)
    ensures var p := ParseRequest(w);
            p.Parsed? ==> Sendable(p.request) && p.len == |Encode(p.request)| && Encode(p.request) <= w
  {
    hide Word, LittleEndian, Ascii;
    Words();
    var p := ParseRequest(w);
    if p.Parsed? && p.request.SetTck? {
      OfWord(w[7..11]);
      Rejoined(w, 7, 11, 11, 11);
    } else if p.Parsed? && p.request.Shift? {
      OnlyShift(w, p.request.bits, p.request.tms, p.request.tdi);
    }
  }

  lemma {:induction false} OnlyShift(w: seq<byte>, bits: nat, tms: seq<byte>, tdi: seq<byte>)
    requires 10 <= |w| && SHIFT <= w && bits == Word(w[6..10]) && 10 + 2 * ((bits + 7) / 8) <= |w|
    requires var bytes := (bits + 7) / 8; tms == w[10..10 + bytes] && tdi == w[10 + bytes..10 + 2 * bytes]
    ensures Sendable(Shift(bits, tms, tdi))
    ensures Encode(Shift(bits, tms, tdi)) == w[..10 + 2 * ((bits + 7) / 8)]
  {
    hide Word, LittleEndian, Ascii;
    Words();
    OfWord(w[6..10]);
    Rejoined(w, 6, 10, 10 + (bits + 7) / 8, 10 + 2 * ((bits + 7) / 8));
  }

  lemma Rejoined(w: seq<byte>, i: nat, j: nat, k: nat, l: nat)
    requires i <= j <= k <= l <= |w|
    ensures w[..i] + w[i..j] + w[j..k] + w[k..l] == w[..l]
    ensures w[..i] + w[i..j] == w[..j]
  {
  }

  /** It finds nothing in one that has not. */
  lemma {:induction false} ParsesNone(r: Request, tail: seq<byte>)
    requires Sendable(r) && tail < Encode(r)
    ensures ParseRequest(tail) == NoRequest
  {
    hide Word, LittleEndian, Ascii;
    Words();
    var e := Encode(r);
    FirstBytes(tail);
    FirstBytes(e);
    assert |tail| > 1 ==> tail[0] == e[0] && tail[1] == e[1];
    match r
    case GetInfo =>
    case SetTck(period) =>
      assert e == SETTCK + LittleEndian(period);
    case Shift(bits, tms, tdi) =>
      WordOf(bits);
      assert e == SHIFT + (LittleEndian(bits) + tms + tdi);
      if |tail| >= 10 {
        assert tail[6..10] == e[6..10] == LittleEndian(bits);
      }
  }

  /** The server takes the client's requests out of a window one by one, and leaves one that has not arrived in full. */
  lemma {:induction false} Understood(rs: seq<Request>, tail: seq<byte>)
    requires (forall r | r in rs :: Sendable(r)) && IsIncomplete(tail)
    ensures Requests(EncodeAll(rs) + tail) == rs
    ensures Consumed(EncodeAll(rs) + tail) == |EncodeAll(rs)|
    decreases rs
  {
    hide Encode, ParseRequest;
    if rs == [] {
      var r: Request :| Sendable(r) && tail < Encode(r);
      ParsesNone(r, tail);
      assert EncodeAll(rs) + tail == tail;
      RequestsEnd(tail);
    } else {
      var rest := EncodeAll(rs[1..]) + tail;
      assert EncodeAll(rs) + tail == Encode(rs[0]) + rest;
      ParsesOne(rs[0], rest);
      RequestsStep(EncodeAll(rs) + tail);
      Understood(rs[1..], tail);
    }
  }

  lemma NothingIsIncomplete()
    ensures IsIncomplete([])
  {
    assert Sendable(GetInfo) && [] < Encode(GetInfo);
  }
}
