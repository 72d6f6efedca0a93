/** SHA-256 as FIPS 180-4 defines it, and the dashboard's in-place implementation proved to
  compute it. */
module Sha256 {
  import opened Words
  import opened Wrappers

  // ---------------------------------------------------------------- FIPS 180-4

  // Section 4.2.2
  const K: seq<word> :=
    [0x428a2f98, 0x71374491, 0xb5c0fbcf, 0xe9b5dba5, 0x3956c25b, 0x59f111f1, 0x923f82a4, 0xab1c5ed5] +
    [0xd807aa98, 0x12835b01, 0x243185be, 0x550c7dc3, 0x72be5d74, 0x80deb1fe, 0x9bdc06a7, 0xc19bf174] +
    [0xe49b69c1, 0xefbe4786, 0x0fc19dc6, 0x240ca1cc, 0x2de92c6f, 0x4a7484aa, 0x5cb0a9dc, 0x76f988da] +
    [0x983e5152, 0xa831c66d, 0xb00327c8, 0xbf597fc7, 0xc6e00bf3, 0xd5a79147, 0x06ca6351, 0x14292967] +
    [0x27b70a85, 0x2e1b2138, 0x4d2c6dfc, 0x53380d13, 0x650a7354, 0x766a0abb, 0x81c2c92e, 0x92722c85] +
    [0xa2bfe8a1, 0xa81a664b, 0xc24b8b70, 0xc76c51a3, 0xd192e819, 0xd6990624, 0xf40e3585, 0x106aa070] +
    [0x19a4c116, 0x1e376c08, 0x2748774c, 0x34b0bcb5, 0x391c0cb3, 0x4ed8aa4a, 0x5b9cca4f, 0x682e6ff3] +
    [0x748f82ee, 0x78a5636f, 0x84c87814, 0x8cc70208, 0x90befffa, 0xa4506ceb, 0xbef9a3f7, 0xc67178f2]

  const STANDARD: Ops := Ops(
    (x, y) => OnWords(AndOp, x, y), (x, y) => OnWords(OrOp, x, y), (x, y) => OnWords(XorOp, x, y),
    ShiftRight, ShiftLeft, i => if 0 <= i < 64 then K[i] else 0)

  // Section 5.3.3
  const INITIAL: State := [
    0x6a09e667, 0xbb67ae85, 0x3c6ef372, 0xa54ff53a, 0x510e527f, 0x9b05688c, 0x1f83d9ab, 0x5be0cd19]

  // Sections 3.2 and 4.1.2
  function Rotr(o: Ops, x: word, n: nat): word
    requires n <= 32
  {
    o.Or(o.Shr(x, n), o.Shl(x, 32 - n))
  }

  function Xor3(o: Ops, x: word, y: word, z: word): word { o.Xor(o.Xor(x, y), z) }
  function Ch(o: Ops, x: word, y: word, z: word): word { o.Xor(o.And(x, y), o.And(Not(x), z)) }
  function Maj(o: Ops, x: word, y: word, z: word): word { Xor3(o, o.And(x, y), o.And(x, z), o.And(y, z)) }
  function Sum0(o: Ops, x: word): word { Xor3(o, Rotr(o, x, 2), Rotr(o, x, 13), Rotr(o, x, 22)) }
  function Sum1(o: Ops, x: word): word { Xor3(o, Rotr(o, x, 6), Rotr(o, x, 11), Rotr(o, x, 25)) }
  function Sigma0(o: Ops, x: word): word { Xor3(o, Rotr(o, x, 7), Rotr(o, x, 18), o.Shr(x, 3)) }
  function Sigma1(o: Ops, x: word): word { Xor3(o, Rotr(o, x, 17), Rotr(o, x, 19), o.Shr(x, 10)) }

  // Section 5.1.1 in whole bytes: a one bit and 7 + 8z zero bits, then the length in 64 bits
  function ZeroBytes(n: nat): nat {
    (55 - n) % 64
  }

  /** The padded length is a multiple of the block length, the least that leaves nine bytes. */
  lemma PaddedLength(n: nat)
    ensures n + 1 + ZeroBytes(n) + 8 == (n + 72) / 64 * 64
    ensures (n + 1 + ZeroBytes(n) + 8) % 64 == 0
  {
    var q, r := n / 64, n % 64;
    assert n == 64 * q + r;
    if r <= 55 {
      assert (55 - n) % 64 == 55 - r;
      assert (n + 72) / 64 == q + 1;
    } else {
      assert (55 - n) % 64 == 119 - r;
      assert (n + 72) / 64 == q + 2;
    }
  }

  function Pad(msg: seq<byte>): (r: seq<byte>)
    ensures |r| % 64 == 0 && |r| >= 64
  {
    PaddedLength(|msg|);
    msg + [0x80] + seq(ZeroBytes(|msg|), _ => 0) + BigEndian8(8 * |msg|)
  }

  /** The number of zero bits is the least that solves the congruence of section 5.1.1. */
  lemma ZeroBitsAreLeast(n: nat, k: nat)
    requires (8 * n + 1 + k) % 512 == 448
    ensures (8 * n + 1 + (7 + 8 * ZeroBytes(n))) % 512 == 448
    ensures 7 + 8 * ZeroBytes(n) <= k
  {
    var z, m := ZeroBytes(n), (55 - n) / 64;
    assert z == 55 - n - 64 * m;
    var q := (8 * n + 1 + k) / 512;
    assert 8 * n + 1 + k == 512 * q + 448;
    Congruent(8 * n + 8 + 8 * z, -m);
    LeastResidue(k, 7 + 8 * z, q + m);
  }

  lemma Congruent(x: int, m: int)
    requires x == 448 + 512 * m
    ensures x % 512 == 448
  {}

  lemma LeastResidue(k: nat, r: nat, m: int)
    requires r < 512 && k == r + 512 * m
    ensures r <= k
  {}

  type Block = b: seq<byte> | |b| == 64 witness seq(64, _ => 0)

  // Section 6.2.2, step 1
  function Schedule(o: Ops, b: Block, t: nat): word {
    if t < 16 then WordAt(b, 4 * t)
    else Entry(o, Schedule(o, b, t - 16), Schedule(o, b, t - 15), Schedule(o, b, t - 7), Schedule(o, b, t - 2))
  }

  function Entry(o: Ops, w16: word, w15: word, w7: word, w2: word): word {
    ToWord(Sigma1(o, w2) + w7 + Sigma0(o, w15) + w16)
  }

  datatype Vars = Vars(a: word, b: word, c: word, d: word, e: word, f: word, g: word, h: word)

  // Section 6.2.2, step 3
  function Round(o: Ops, v: Vars, k: word, w: word): Vars {
    var t1 := ToWord(v.h + Sum1(o, v.e) + Ch(o, v.e, v.f, v.g) + k + w);
    var t2 := ToWord(Sum0(o, v.a) + Maj(o, v.a, v.b, v.c));
    Vars(ToWord(t1 + t2), v.a, v.b, v.c, ToWord(v.d + t1), v.e, v.f, v.g)
  }

  function Rounds(o: Ops, v: Vars, b: Block, t: nat): Vars
    requires t <= 64
    decreases t, v
  {
    if t == 0 then v else Round(o, Rounds(o, v, b, t - 1), o.K(t - 1), Schedule(o, b, t - 1))
  }

  type State = s: seq<word> | |s| == 8 witness seq(8, _ => 0)

  function ToVars(h: State): Vars {
    Vars(h[0], h[1], h[2], h[3], h[4], h[5], h[6], h[7])
  }

  function AddVars(h: State, v: Vars): State {
    [ToWord(h[0] + v.a), ToWord(h[1] + v.b), ToWord(h[2] + v.c), ToWord(h[3] + v.d),
     ToWord(h[4] + v.e), ToWord(h[5] + v.f), ToWord(h[6] + v.g), ToWord(h[7] + v.h)]
  }

  // Section 6.2.2, steps 2 and 4
  function Compress(o: Ops, h: State, b: Block): State {
    AddVars(h, Rounds(o, ToVars(h), b, 64))
  }

  function HashBlocks(o: Ops, bytes: seq<byte>): State
    requires |bytes| % 64 == 0
    decreases |bytes|
  {
    if bytes == [] then INITIAL
    else Compress(o, HashBlocks(o, bytes[..|bytes| - 64]), bytes[|bytes| - 64..])
  }

  /** The digest of a message. */
  function Digest(msg: seq<byte>): (d: seq<byte>)
    ensures |d| == 32
  {
    WordsToBytes(HashBlocks(STANDARD, Pad(msg)))
  }

  // ---------------------------------------------------------------- the dashboard's implementation

  predicate IsInt32(v: int) {
    -0x8000_0000 <= v < 0x8000_0000
  }

  /** `(x >>> n) | (x << (32 - n))` */
  function JsRotr(o: Ops, x: int, n: nat): (r: int)
    requires n <= 32
    ensures ToWord(r) == Rotr(o, ToWord(x), n) && IsInt32(r)
  {
    o.JsOr(o.JsShr(x, n), o.JsShl(x, 32 - n))
  }

  function JsXor3(o: Ops, x: int, y: int, z: int): (r: int)
    ensures ToWord(r) == Xor3(o, ToWord(x), ToWord(y), ToWord(z)) && IsInt32(r)
  {
    o.JsXor(o.JsXor(x, y), z)
  }

  /** The buffer the program pads into: only the low word of the length is written. */
  function WrittenPadding(msg: seq<byte>): (r: seq<byte>)
    ensures |r| % 64 == 0 && |r| >= 64
  {
    PaddedLength(|msg|);
    msg + [0x80] + seq(ZeroBytes(|msg|), _ => 0) + (seq(4, _ => 0) + BigEndian4(8 * |msg| % WORD))
  }

  /** Too long for the buffer's size to be a signed 32-bit number. */
  predicate TooLong(msg: seq<byte>) { |msg| + 72 >= 0x8000_0000 }

  /** The padded buffer; null when the program throws a RangeError. */
  method PadBuffer(msg: seq<byte>) returns (padded: array?<byte>)
    ensures padded == null <==> TooLong(msg)
    ensures padded != null ==> fresh(padded) && padded[..] == WrittenPadding(msg)
  {
    // (n + 9 + 63) & ~63: the next multiple of 64 that leaves room for nine more bytes
    var n := |msg|;
    var size := ToInt32(n + 72) / 64 * 64;
    if size < n {
      return null;
    }
    assert size == (n + 72) / 64 * 64;
    PaddedLength(n);
    padded := new byte[size](_ => 0);
    forall i | 0 <= i < n {
      padded[i] := msg[i];
    }
    padded[n] := 0x80;
    assert padded[..size - 4] == msg + [0x80] + seq(ZeroBytes(n), _ => 0) + seq(4, _ => 0);
    var bitLen := n * 8;
    SetUint32(padded, size - 4, bitLen % WORD);
  }

  /** What the program pads is the standard's padding exactly for messages shorter than 2^32 bits. */
  lemma PaddingMatchesStandard(msg: seq<byte>)
    requires 8 * |msg| < WORD * WORD
    ensures WrittenPadding(msg) == Pad(msg) <==> 8 * |msg| < WORD
  {
    var l := 8 * |msg|;
    var p, zeros := |msg| + 1 + ZeroBytes(|msg|), seq(4, _ => 0);
    BigEndianWords(l);
    assert Pad(msg)[p..] == BigEndian4(l / WORD) + BigEndian4(l % WORD);
    assert WrittenPadding(msg)[p..] == zeros + BigEndian4(l % WORD);
    assert Pad(msg)[p..][..4] == BigEndian4(l / WORD);
    assert WrittenPadding(msg)[p..][..4] == zeros;
    ZeroWord(l / WORD);
  }

  lemma ZeroWord(n: nat)
    requires n < WORD
    ensures BigEndian4(n) == seq(4, _ => 0) <==> n == 0
  {
    var b := BigEndian4(n);
    if b == seq(4, _ => 0) {
      assert b[0] == 0 && b[1] == 0 && b[2] == 0 && b[3] == 0;
      assert n / 0x100 == n / 0x1_0000 * 256;
      assert n / 0x1_0000 == n / 0x100_0000 * 256;
    }
  }

  lemma WordInBlock(bytes: seq<byte>, offset: nat, i: nat)
    requires offset + 64 <= |bytes| && i <= 60
    ensures WordAt(bytes, offset + i) == WordAt(bytes[offset..offset + 64], i)
  {}

  /** One entry of the schedule, from the four earlier entries it depends on. */
  method NextEntry(o: Ops, w16: word, w15: word, w7: word, w2: word) returns (r: word)
    ensures r == Entry(o, w16, w15, w7, w2)
  {
    assert ToWord(w15) == w15 && ToWord(w2) == w2 && ToWord(w7) == w7;
    hide ToWord;
    var s0 := JsXor3(o, JsRotr(o, w15, 7), JsRotr(o, w15, 18), o.JsShr(w15, 3));
    var s1 := JsXor3(o, JsRotr(o, w2, 17), JsRotr(o, w2, 19), o.JsShr(w2, 10));
    ShrWord(o, w15, 3);
    ShrWord(o, w2, 10);
    var sum := w16 + s0 + w7 + s1;
    assert Exact(sum);
    SumOfWords(s1, w7, s0, w16);
    r := ToWord(ToInt32(sum));
    assert s1 + w7 + s0 + w16 == sum;
    WordOfWord(sum);
  }

  lemma ShrWord(o: Ops, x: int, n: nat)
    ensures ToWord(o.JsShr(x, n)) == o.Shr(ToWord(x), n)
  {}

  lemma WordOfWord(x: int)
    ensures ToWord(ToInt32(x)) == ToWord(x)
  {}

  method ExpandSchedule(o: Ops, w: array<word>, padded: seq<byte>, offset: nat)
    requires w.Length == 64 && offset + 64 <= |padded|
    modifies w
    ensures forall t :: 0 <= t < 64 ==> w[t] == Schedule(o, padded[offset..offset + 64], t)
  {
    ghost var b := padded[offset..offset + 64];
    for i := 0 to 16
      invariant forall t :: 0 <= t < i ==> w[t] == Schedule(o, b, t)
    {
      WordInBlock(padded, offset, 4 * i);
      w[i] := WordAt(padded, offset + i * 4);
    }
    for i := 16 to 64
      invariant forall t :: 0 <= t < i ==> w[t] == Schedule(o, b, t)
    {
      w[i] := NextEntry(o, w[i - 16], w[i - 15], w[i - 7], w[i - 2]);
    }
  }

  /** The eight working variables, kept in JavaScript numbers. */
  datatype JsVars = JsVars(a: int, b: int, c: int, d: int, e: int, f: int, g: int, h: int)
  {
    function Words(): Vars {
      Vars(ToWord(a), ToWord(b), ToWord(c), ToWord(d), ToWord(e), ToWord(f), ToWord(g), ToWord(h))
    }

    predicate InRange() {
      && IsNumber32(a) && IsNumber32(b) && IsNumber32(c) && IsNumber32(d)
      && IsNumber32(e) && IsNumber32(f) && IsNumber32(g) && IsNumber32(h)
    }
  }

  predicate IsNumber32(v: int) {
    -0x8000_0000 <= v < WORD
  }

  method Temporary1(o: Ops, e: int, f: int, g: int, hh: int, k: word, w: word) returns (t1: int)
    requires IsNumber32(hh)
    ensures IsInt32(t1)
    ensures ToWord(t1) == ToWord(ToWord(hh) + Sum1(o, ToWord(e)) + Ch(o, ToWord(e), ToWord(f), ToWord(g)) + k + w)
  {
    hide ToWord;
    var S1 := JsXor3(o, JsRotr(o, e, 6), JsRotr(o, e, 11), JsRotr(o, e, 25));
    var ch := o.JsXor(o.JsAnd(e, f), o.JsAnd(JsNot(e), g));
    var sum := hh + S1 + ch + k + w;
    assert Exact(sum);
    SumOfWords(hh, S1, ch, k + w);
    assert ToWord(hh) + ToWord(S1) + ToWord(ch) + k + w == ToWord(hh) + ToWord(S1) + ToWord(ch) + (k + w);
    assert sum == hh + S1 + ch + (k + w);
    t1 := ToInt32(sum);
  }

  method Temporary2(o: Ops, a: int, b: int, c: int) returns (t2: int)
    ensures IsInt32(t2)
    ensures ToWord(t2) == ToWord(Sum0(o, ToWord(a)) + Maj(o, ToWord(a), ToWord(b), ToWord(c)))
  {
    hide ToWord;
    var S0 := JsXor3(o, JsRotr(o, a, 2), JsRotr(o, a, 13), JsRotr(o, a, 22));
    var maj := JsXor3(o, o.JsAnd(a, b), o.JsAnd(a, c), o.JsAnd(b, c));
    t2 := AddNumbers(S0, maj);
  }

  method OneRound(o: Ops, v: JsVars, k: word, w: word) returns (r: JsVars)
    requires v.InRange()
    ensures r.InRange() && r.Words() == Round(o, v.Words(), k, w)
  {
    hide ToWord, Sum0, Sum1, Ch, Maj;
    var t1 := Temporary1(o, v.e, v.f, v.g, v.h, k, w);
    var t2 := Temporary2(o, v.a, v.b, v.c);
    var e, a := AddNumbers(v.d, t1), AddNumbers(t1, t2);
    r := JsVars(a, v.a, v.b, v.c, e, v.e, v.f, v.g);
  }

  /** `(x + y) | 0` */
  function AddNumbers(x: int, y: int): (r: int)
    requires IsNumber32(x) && IsNumber32(y)
    ensures IsInt32(r) && ToWord(r) == ToWord(ToWord(x) + ToWord(y))
  {
    SumOfWords(x, y, 0, 0);
    ToInt32(x + y)
  }

  method CompressBlock(o: Ops, h: array<word>, w: array<word>, padded: seq<byte>, offset: nat)
    requires h.Length == 8 && w.Length == 64 && h != w && offset + 64 <= |padded|
    modifies h, w
    ensures h[..] == Compress(o, old(h[..]), padded[offset..offset + 64])
  {
    ghost var block: Block, start: State := padded[offset..offset + 64], h[..];
    ExpandSchedule(o, w, padded, offset);
    var v := JsVars(h[0], h[1], h[2], h[3], h[4], h[5], h[6], h[7]);
    StartingVars(v, start);
    for i := 0 to 64
      invariant v.InRange() && v.Words() == Rounds(o, ToVars(start), block, i)
      invariant h[..] == start
      invariant forall t :: 0 <= t < 64 ==> w[t] == Schedule(o, block, t)
    {
      v := OneRound(o, v, o.K(i), w[i]);
    }
    AddInto(h, v);
  }

  lemma StartingVars(v: JsVars, h: State)
    requires v == JsVars(h[0], h[1], h[2], h[3], h[4], h[5], h[6], h[7])
    ensures v.InRange() && v.Words() == ToVars(h)
  {}

  function AddWord(x: word, v: int): (r: word)
    requires IsNumber32(v)
    ensures r == ToWord(x + ToWord(v))
  {
    SumOfWords(v, 0, 0, x);
    ToWord(ToInt32(x + v))
  }

  /** `h[i] = (h[i] + x) | 0` for the eight words. */
  lemma AddVarsIs(h: State, v: JsVars, r: State)
    requires v.InRange()
    requires r == [AddWord(h[0], v.a), AddWord(h[1], v.b), AddWord(h[2], v.c), AddWord(h[3], v.d),
                   AddWord(h[4], v.e), AddWord(h[5], v.f), AddWord(h[6], v.g), AddWord(h[7], v.h)]
    ensures r == AddVars(h, v.Words())
  {
    hide ToWord, AddWord;
  }

  method AddInto(h: array<word>, v: JsVars)
    requires h.Length == 8 && v.InRange()
    modifies h
    ensures h[..] == AddVars(old(h[..]), v.Words())
  {
    ghost var start: State := h[..];
    var a, b, c, d := AddWord(h[0], v.a), AddWord(h[1], v.b), AddWord(h[2], v.c), AddWord(h[3], v.d);
    var e, f, g, hh := AddWord(h[4], v.e), AddWord(h[5], v.f), AddWord(h[6], v.g), AddWord(h[7], v.h);
    h[0], h[1], h[2], h[3], h[4], h[5], h[6], h[7] := a, b, c, d, e, f, g, hh;
    assert h[..] == [a, b, c, d, e, f, g, hh];
    AddVarsIs(start, v, h[..]);
  }

  method InitialState() returns (h: array<word>)
    ensures fresh(h) && h.Length == 8 && h[..] == INITIAL
  {
    h := new word[8](i requires 0 <= i < 8 => INITIAL[i]);
    assert h[..] == INITIAL;
  }

  /** The digest loop: every block of the padded buffer in turn. */
  method HashBuffer(o: Ops, padded: seq<byte>) returns (h: array<word>)
    requires |padded| % 64 == 0
    ensures h.Length == 8 && h[..] == HashBlocks(o, padded)
  {
    hide Compress, HashBlocks;
    h := InitialState();
    var w := new word[64](_ => 0);
    var offset := 0;
    NoBlocks(o, padded);
    while offset < |padded|
      invariant offset <= |padded| && offset % 64 == 0
      invariant h.Length == 8 && h != w && fresh(h) && fresh(w)
      invariant h[..] == HashBlocks(o, padded[..offset])
    {
      CompressBlock(o, h, w, padded, offset);
      NextBlock(o, padded, offset);
      offset := offset + 64;
    }
    assert padded[..offset] == padded;
  }

  lemma NoBlocks(o: Ops, bytes: seq<byte>)
    ensures HashBlocks(o, bytes[..0]) == INITIAL
  {}

  lemma NextBlock(o: Ops, bytes: seq<byte>, offset: nat)
    requires offset % 64 == 0 && offset + 64 <= |bytes|
    ensures HashBlocks(o, bytes[..offset + 64]) == Compress(o, HashBlocks(o, bytes[..offset]), bytes[offset..offset + 64])
  {
    var s := bytes[..offset + 64];
    assert s[..|s| - 64] == bytes[..offset] && s[|s| - 64..] == bytes[offset..offset + 64];
  }

  /** The dashboard's `sha256`; None when it throws. */
  method Sha256(msg: seq<byte>) returns (out: Option<seq<byte>>)
    ensures out.None? <==> TooLong(msg)
    ensures out.Some? ==> out.value == WordsToBytes(HashBlocks(STANDARD, WrittenPadding(msg)))
    ensures 8 * |msg| < WORD ==> out == Some(Digest(msg))
  {
    var padded := PadBuffer(msg);
    if padded == null {
      return None;
    }
    var h := HashBuffer(STANDARD, padded[..]);
    var digest := OutputBytes(h[..]);
    out := Some(digest);
    if 8 * |msg| < WORD {
      PaddingMatchesStandard(msg);
    }
  }

  method OutputBytes(h: seq<word>) returns (out: seq<byte>)
    ensures out == WordsToBytes(h)
  {
    var buffer := new byte[4 * |h|](_ => 0);
    for i := 0 to |h|
      invariant buffer[..4 * i] == WordsToBytes(h[..i])
    {
      ghost var before := buffer[..4 * i];
      SetUint32(buffer, 4 * i, h[i]);
      assert h[..i + 1][..i] == h[..i];
      assert buffer[..4 * (i + 1)] == before + BigEndian4(h[i]);
    }
    assert h[..|h|] == h && buffer[..4 * |h|] == buffer[..];
    out := buffer[..];
  }
}
