/** 32-bit words and big-endian bytes as numbers, and JavaScript's view of them.

  A word is a number below 2^32, with the bitwise operations defined bit by bit. A JavaScript
  number that stands for a word may be its signed or its unsigned reading; `ToWord` forgets which. */
module Words {

  type byte = x: int | 0 <= x < 256
  const WORD: nat := 0x1_0000_0000
  type word = x: int | 0 <= x < WORD

  // ---------------------------------------------------------------- bitwise operations

  function Pow2(k: nat): (p: nat)
    ensures p > 0
  {
    if k == 0 then 1 else 2 * Pow2(k - 1)
  }

  datatype BitOp = AndOp | OrOp | XorOp

  function OnBits(op: BitOp, a: nat, b: nat): (r: nat)
    ensures r <= 1
  {
    match op
    case AndOp => if a == 1 && b == 1 then 1 else 0
    case OrOp => if a == 1 || b == 1 then 1 else 0
    case XorOp => if a != b then 1 else 0
  }

  function Bitwise(op: BitOp, x: nat, y: nat): nat
    decreases x + y
  {
    if x == 0 && y == 0 then 0 else 2 * Bitwise(op, x / 2, y / 2) + OnBits(op, x % 2, y % 2)
  }

  lemma {:induction false} BitwiseBound(op: BitOp, x: nat, y: nat, k: nat)
    requires x < Pow2(k) && y < Pow2(k)
    ensures Bitwise(op, x, y) < Pow2(k)
    decreases k
  {
    if k > 0 {
      BitwiseBound(op, x / 2, y / 2, k - 1);
    }
  }

  lemma Pow2Of32()
    ensures Pow2(32) == WORD
  {
    assert Pow2(4) == 16;
    assert Pow2(8) == 16 * Pow2(4);
    assert Pow2(12) == 16 * Pow2(8);
    assert Pow2(16) == 16 * Pow2(12);
    assert Pow2(20) == 16 * Pow2(16);
    assert Pow2(24) == 16 * Pow2(20);
    assert Pow2(28) == 16 * Pow2(24);
  }

  function OnWords(op: BitOp, x: word, y: word): word {
    Pow2Of32();
    BitwiseBound(op, x, y, 32);
    Bitwise(op, x, y)
  }

  function Not(x: word): word { WORD - 1 - x }

  function ShiftRight(x: word, n: nat): word {
    if n == 0 then x else ShiftRight(x / 2, n - 1)
  }

  function ShiftLeft(x: word, n: nat): word
    decreases n, x
  {
    if n == 0 then x else ShiftLeft(x * 2 % WORD, n - 1)
  }

  // ---------------------------------------------------------------- what they do to each bit

  /** The k-th binary digit. */
  function Bit(x: nat, k: nat): (b: nat)
    ensures b <= 1
  {
    if k == 0 then x % 2 else Bit(x / 2, k - 1)
  }

  lemma {:induction false} BitwiseBit(op: BitOp, x: nat, y: nat, k: nat)
    ensures Bit(Bitwise(op, x, y), k) == OnBits(op, Bit(x, k), Bit(y, k))
  {
    var r := Bitwise(op, x, y);
    if x == 0 && y == 0 {
      ZeroBit(k);
    } else {
      assert r / 2 == Bitwise(op, x / 2, y / 2) && r % 2 == OnBits(op, x % 2, y % 2);
      if k > 0 {
        BitwiseBit(op, x / 2, y / 2, k - 1);
      }
    }
  }

  lemma {:induction false} ZeroBit(k: nat)
    ensures Bit(0, k) == 0
  {
    if k > 0 {
      ZeroBit(k - 1);
    }
  }

  lemma {:induction false} HighBit(x: nat, m: nat, k: nat)
    requires x < Pow2(m) && k >= m
    ensures Bit(x, k) == 0
    decreases k
  {
    if k == 0 {
    } else if m == 0 {
      ZeroBit(k);
    } else {
      HighBit(x / 2, m - 1, k - 1);
    }
  }

  lemma {:induction false} LowBits(x: nat, m: nat, k: nat)
    requires k < m
    ensures Bit(x % Pow2(m), k) == Bit(x, k)
    decreases k
  {
    HalfOfRest(x, Pow2(m - 1));
    if k > 0 {
      LowBits(x / 2, m - 1, k - 1);
    }
  }

  lemma HalfOfRest(x: nat, p: nat)
    requires p > 0
    ensures x % (2 * p) / 2 == x / 2 % p && x % (2 * p) % 2 == x % 2
  {
    var q, r := x / (2 * p), x % (2 * p);
    assert x == 2 * p * q + r;
    assert x == 2 * (p * q) + r;
    assert x / 2 == p * q + r / 2;
    RestOf(p, q, r / 2);
  }

  lemma RestOf(p: nat, q: nat, r: nat)
    requires r < p
    ensures (p * q + r) % p == r
  {
    var m := p * q + r;
    var a, b := m / p, m % p;
    assert m == p * a + b && p * (a - q) == p * a - p * q && p * (q - a) == p * q - p * a;
    if a > q {
      Times(p, a - q);
    } else if a < q {
      Times(p, q - a);
    }
  }

  lemma Times(p: nat, n: nat)
    requires n > 0
    ensures p * n >= p
  {}

  lemma {:induction false} NotBit(x: nat, m: nat, k: nat)
    requires x < Pow2(m) && k < m
    ensures Bit(Pow2(m) - 1 - x, k) == 1 - Bit(x, k)
    decreases k
  {
    assert (Pow2(m) - 1 - x) / 2 == Pow2(m - 1) - 1 - x / 2;
    if k > 0 {
      NotBit(x / 2, m - 1, k - 1);
    }
  }

  lemma {:induction false} ShiftRightBit(x: word, n: nat, k: nat)
    ensures Bit(ShiftRight(x, n), k) == Bit(x, n + k)
    decreases n
  {
    if n > 0 {
      ShiftRightBit(x / 2, n - 1, k);
    }
  }

  lemma {:induction false} ShiftLeftBit(x: word, n: nat, k: nat)
    requires k < 32
    ensures Bit(ShiftLeft(x, n), k) == if k < n then 0 else Bit(x, k - n)
    decreases n
  {
    if n > 0 {
      ShiftLeftBit(x * 2 % WORD, n - 1, k);
      if k >= n - 1 {
        Pow2Of32();
        LowBits(x * 2, 32, k - (n - 1));
        assert x * 2 / 2 == x;
      }
    }
  }

  /** The operations on words by their bits: conjunction, disjunction, exclusive or, complement, and the
    two shifts. */
  lemma BitsOfOperations(x: word, y: word, n: nat, k: nat)
    requires k < 32
    ensures Bit(OnWords(AndOp, x, y), k) == Bit(x, k) * Bit(y, k)
    ensures Bit(OnWords(OrOp, x, y), k) == Bit(x, k) + Bit(y, k) - Bit(x, k) * Bit(y, k)
    ensures Bit(OnWords(XorOp, x, y), k) == (Bit(x, k) + Bit(y, k)) % 2
    ensures Bit(Not(x), k) == 1 - Bit(x, k)
    ensures Bit(ShiftRight(x, n), k) == if n + k < 32 then Bit(x, n + k) else 0
    ensures Bit(ShiftLeft(x, n), k) == if k < n then 0 else Bit(x, k - n)
  {
    hide Bit, Bitwise, ShiftRight, ShiftLeft, Pow2, OnBits;
    BitwiseBit(AndOp, x, y, k);
    BitwiseBit(OrOp, x, y, k);
    BitwiseBit(XorOp, x, y, k);
    BitTables(Bit(x, k), Bit(y, k));
    BitsOfShifts(x, n, k);
  }

  lemma BitTables(a: nat, b: nat)
    requires a <= 1 && b <= 1
    ensures OnBits(AndOp, a, b) == a * b && OnBits(OrOp, a, b) == a + b - a * b && OnBits(XorOp, a, b) == (a + b) % 2
  {}

  lemma BitsOfShifts(x: word, n: nat, k: nat)
    requires k < 32
    ensures Bit(Not(x), k) == 1 - Bit(x, k)
    ensures Bit(ShiftRight(x, n), k) == if n + k < 32 then Bit(x, n + k) else 0
    ensures Bit(ShiftLeft(x, n), k) == if k < n then 0 else Bit(x, k - n)
  {
    hide Bit, ShiftRight, ShiftLeft, Pow2;
    Pow2Of32();
    NotBit(x, 32, k);
    ShiftRightBit(x, n, k);
    if n + k >= 32 {
      HighBit(x, 32, n + k);
    }
    ShiftLeftBit(x, n, k);
  }

  // ---------------------------------------------------------------- operations as JavaScript has them

  /** The bitwise operations and round constants of a computation. Results about SHA-256 are proved
    for whatever these are and then read off for the standard ones. */
  datatype Ops = Ops(
    And: (word, word) -> word, Or: (word, word) -> word, Xor: (word, word) -> word,
    Shr: (word, nat) -> word, Shl: (word, nat) -> word, K: nat -> word)
  {
    // JavaScript's operators on numbers that stand for words
    function JsAnd(x: int, y: int): (r: int)
      ensures ToWord(r) == And(ToWord(x), ToWord(y))
    {
      ToInt32(And(ToWord(x), ToWord(y)))
    }
    function JsOr(x: int, y: int): (r: int)
      ensures ToWord(r) == Or(ToWord(x), ToWord(y))
    {
      ToInt32(Or(ToWord(x), ToWord(y)))
    }
    function JsXor(x: int, y: int): (r: int)
      ensures ToWord(r) == Xor(ToWord(x), ToWord(y))
    {
      ToInt32(Xor(ToWord(x), ToWord(y)))
    }
    function JsShr(x: int, n: nat): int { Shr(ToWord(x), n) }           // >>>
    function JsShl(x: int, n: nat): int { ToInt32(Shl(ToWord(x), n)) }  // <<
  }

  // ---------------------------------------------------------------- JavaScript numbers

  function ToWord(v: int): word { v % WORD }

  /** The signed 32-bit reading of a number, as `| 0` and every bitwise operator produce it. */
  function ToInt32(v: int): (r: int)
    ensures -0x8000_0000 <= r < 0x8000_0000 && ToWord(r) == ToWord(v)
  {
    if v % WORD >= 0x8000_0000 then v % WORD - WORD else v % WORD
  }

  /** `~x` */
  function JsNot(x: int): (r: int)
    ensures ToWord(r) == Not(ToWord(x))
  {
    -x - 1
  }

  /** Sums of this size are exact in a double. */
  predicate Exact(v: int) {
    -0x20_0000_0000_0000 < v < 0x20_0000_0000_0000
  }

  /** Truncating a sum needs only the words its terms stand for. */
  lemma SumOfWords(x: int, y: int, z: int, w: int)
    ensures ToWord(x + y + z + w) == ToWord(ToWord(x) + ToWord(y) + ToWord(z) + w)
  {
    var q := x / WORD + y / WORD + z / WORD;
    var s := ToWord(x) + ToWord(y) + ToWord(z) + w;
    assert x + y + z + w == s + WORD * q;
    Multiple(s, q);
  }

  lemma Multiple(s: int, q: int)
    ensures (s + WORD * q) % WORD == s % WORD
  {}

  // ---------------------------------------------------------------- big-endian bytes

  function BigEndian4(n: nat): (r: seq<byte>)
    ensures |r| == 4
  {
    [n / 0x100_0000 % 256, n / 0x1_0000 % 256, n / 0x100 % 256, n % 256]
  }

  function BigEndian8(n: nat): (r: seq<byte>)
    ensures |r| == 8
  {
    [n / 0x100_0000_0000_0000 % 256, n / 0x1_0000_0000_0000 % 256, n / 0x100_0000_0000 % 256,
     n / 0x1_0000_0000 % 256, n / 0x100_0000 % 256, n / 0x1_0000 % 256, n / 0x100 % 256, n % 256]
  }

  lemma HighDigits(n: nat)
    ensures n / 0x100_0000_0000_0000 == n / WORD / 0x100_0000
    ensures n / 0x1_0000_0000_0000 == n / WORD / 0x1_0000
    ensures n / 0x100_0000_0000 == n / WORD / 0x100
  {}

  lemma LowDigits(hi: nat, lo: nat)
    requires lo < WORD
    ensures (hi * WORD + lo) / 0x100_0000 == hi * 256 + lo / 0x100_0000
    ensures (hi * WORD + lo) / 0x1_0000 == hi * 0x1_0000 + lo / 0x1_0000
    ensures (hi * WORD + lo) / 0x100 == hi * 0x100_0000 + lo / 0x100
  {}

  lemma Digit(hi: int, d: nat)
    ensures (hi * 256 + d) % 256 == d % 256
  {}

  /** Eight bytes are the high word followed by the low word. */
  lemma BigEndianWords(n: nat)
    ensures BigEndian8(n) == BigEndian4(n / WORD) + BigEndian4(n % WORD)
  {
    var hi, lo := n / WORD, n % WORD;
    HighDigits(n);
    LowDigits(hi, lo);
    Digit(hi, lo / 0x100_0000);
    Digit(hi * 0x100, lo / 0x1_0000);
    Digit(hi * 0x1_0000, lo / 0x100);
    Digit(hi * 0x100_0000, lo);
  }

  /** The big-endian word at an offset. */
  function WordAt(bytes: seq<byte>, i: nat): word
    requires i + 4 <= |bytes|
  {
    var b0: int, b1: int, b2: int, b3: int := bytes[i], bytes[i + 1], bytes[i + 2], bytes[i + 3];
    ((b0 * 256 + b1) * 256 + b2) * 256 + b3
  }

  function WordsToBytes(ws: seq<word>): (r: seq<byte>)
    ensures |r| == 4 * |ws|
  {
    if ws == [] then [] else WordsToBytes(ws[..|ws| - 1]) + BigEndian4(ws[|ws| - 1])
  }

  /** `DataView.setUint32` with big-endian order. */
  method SetUint32(a: array<byte>, pos: nat, x: word)
    requires pos + 4 <= a.Length
    modifies a
    ensures a[..] == old(a[..pos]) + BigEndian4(x) + old(a[pos + 4..])
  {
    a[pos] := x / 0x100_0000 % 256;
    a[pos + 1] := x / 0x1_0000 % 256;
    a[pos + 2] := x / 0x100 % 256;
    a[pos + 3] := x % 256;
    assert a[pos..pos + 4] == BigEndian4(x);
    assert a[..] == a[..pos] + a[pos..pos + 4] + a[pos + 4..];
  }
}
