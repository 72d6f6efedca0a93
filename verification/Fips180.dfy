/** The functions and constants of SHA-256 by what section 4 and section 5.3.3 of FIPS 180-4 say they
  are: bit by bit, and as the first 32 bits of the fractional parts of roots of primes. */
module Fips180 {
  import opened Words
  import opened Sha256

  // ---------------------------------------------------------------- functions on words, bit by bit

  /** A rotation moves every bit down by n places, around the end. */
  lemma RotrBit(x: word, n: nat, k: nat)
    requires 0 < n < 32 && k < 32
    ensures Bit(Rotr(STANDARD, x, n), k) == Bit(x, (k + n) % 32)
  {
    hide Bit, ShiftRight, ShiftLeft, OnWords, Rotr, STANDARD;
    RotrIs(x, n);
    OrBit(ShiftRight(x, n), ShiftLeft(x, 32 - n), k);
    BitsOfShifts(x, n, k);
    BitsOfShifts(x, 32 - n, k);
    Around(k, n);
  }

  lemma Around(k: nat, n: nat)
    requires k < 32 && n < 32
    ensures (k + n) % 32 == if k + n < 32 then k + n else k + n - 32
  {}

  lemma RotrIs(x: word, n: nat)
    requires n <= 32
    ensures Rotr(STANDARD, x, n) == OnWords(OrOp, ShiftRight(x, n), ShiftLeft(x, 32 - n))
  {
    hide OnWords, ShiftRight, ShiftLeft;
  }

  lemma OrBit(x: word, y: word, k: nat)
    requires k < 32
    ensures Bit(x, k) == 0 ==> Bit(OnWords(OrOp, x, y), k) == Bit(y, k)
    ensures Bit(y, k) == 0 ==> Bit(OnWords(OrOp, x, y), k) == Bit(x, k)
  {
    BitsOfOperations(x, y, 0, k);
  }

  lemma Xor3Bit(x: word, y: word, z: word, k: nat)
    requires k < 32
    ensures Bit(Xor3(STANDARD, x, y, z), k) == (Bit(x, k) + Bit(y, k) + Bit(z, k)) % 2
  {
    Xor3Is(x, y, z);
    hide Bit, OnWords, Xor3, STANDARD;
    BitsOfOperations(x, y, 0, k);
    BitsOfOperations(OnWords(XorOp, x, y), z, 0, k);
  }

  lemma Xor3Is(x: word, y: word, z: word)
    ensures Xor3(STANDARD, x, y, z) == OnWords(XorOp, OnWords(XorOp, x, y), z)
  {
    hide OnWords;
  }

  /** Ch takes each bit of y or z as the bit of x says, and Maj the bit that at least two of the three
    have. */
  lemma ChoiceAndMajority(x: word, y: word, z: word, k: nat)
    requires k < 32
    ensures Bit(Ch(STANDARD, x, y, z), k) == if Bit(x, k) == 1 then Bit(y, k) else Bit(z, k)
    ensures Bit(Maj(STANDARD, x, y, z), k) == if Bit(x, k) + Bit(y, k) + Bit(z, k) >= 2 then 1 else 0
  {
    hide Bit, OnWords;
    var xy, xz, yz, nz := OnWords(AndOp, x, y), OnWords(AndOp, x, z), OnWords(AndOp, y, z), OnWords(AndOp, Not(x), z);
    BitsOfOperations(x, y, 0, k);
    BitsOfOperations(x, z, 0, k);
    BitsOfOperations(y, z, 0, k);
    BitsOfOperations(Not(x), z, 0, k);
    BitsOfOperations(xy, nz, 0, k);
    assert Ch(STANDARD, x, y, z) == OnWords(XorOp, xy, nz);
    Xor3Bit(xy, xz, yz, k);
    assert Maj(STANDARD, x, y, z) == Xor3(STANDARD, xy, xz, yz);
    OneOrTwo(Bit(x, k), Bit(y, k), Bit(z, k));
  }

  lemma OneOrTwo(a: nat, b: nat, c: nat)
    requires a <= 1 && b <= 1 && c <= 1
    ensures (a * b + (1 - a) * c) % 2 == if a == 1 then b else c
    ensures (a * b + a * c + b * c) % 2 == if a + b + c >= 2 then 1 else 0
  {}

  /** The four functions with their rotations and shifts. */
  lemma SumsAndSigmas(x: word, k: nat)
    requires k < 32
    ensures Bit(Sum0(STANDARD, x), k) == (Bit(x, (k + 2) % 32) + Bit(x, (k + 13) % 32) + Bit(x, (k + 22) % 32)) % 2
    ensures Bit(Sum1(STANDARD, x), k) == (Bit(x, (k + 6) % 32) + Bit(x, (k + 11) % 32) + Bit(x, (k + 25) % 32)) % 2
    ensures Bit(Sigma0(STANDARD, x), k) == (Bit(x, (k + 7) % 32) + Bit(x, (k + 18) % 32) + if k + 3 < 32 then Bit(x, k + 3) else 0) % 2
    ensures Bit(Sigma1(STANDARD, x), k) == (Bit(x, (k + 17) % 32) + Bit(x, (k + 19) % 32) + if k + 10 < 32 then Bit(x, k + 10) else 0) % 2
  {
    hide Bit, Rotr, Xor3, OnWords, ShiftRight;
    TwoRotations(x, 2, 13, Rotr(STANDARD, x, 22), k);
    RotrBit(x, 22, k);
    TwoRotations(x, 6, 11, Rotr(STANDARD, x, 25), k);
    RotrBit(x, 25, k);
    TwoRotations(x, 7, 18, ShiftRight(x, 3), k);
    BitsOfOperations(x, x, 3, k);
    TwoRotations(x, 17, 19, ShiftRight(x, 10), k);
    BitsOfOperations(x, x, 10, k);
  }

  lemma TwoRotations(x: word, m: nat, n: nat, z: word, k: nat)
    requires 0 < m < 32 && 0 < n < 32 && k < 32
    ensures Bit(Xor3(STANDARD, Rotr(STANDARD, x, m), Rotr(STANDARD, x, n), z), k) ==
      (Bit(x, (k + m) % 32) + Bit(x, (k + n) % 32) + Bit(z, k)) % 2
  {
    hide Bit, Rotr, Xor3, STANDARD;
    RotrBit(x, m, k);
    RotrBit(x, n, k);
    Xor3Bit(Rotr(STANDARD, x, m), Rotr(STANDARD, x, n), z, k);
  }

  // ---------------------------------------------------------------- the schedule and a round

  /** Section 6.2.2, step 1, in one sum. */
  lemma ScheduleEntry(b: Block, t: nat)
    ensures t < 16 ==> Schedule(STANDARD, b, t) == WordAt(b, 4 * t)
    ensures t >= 16 ==>
      var w := (i: nat) => Schedule(STANDARD, b, i);
      w(t) == (Sigma1(STANDARD, w(t - 2)) + w(t - 7) + Sigma0(STANDARD, w(t - 15)) + w(t - 16)) % 0x1_0000_0000
  {
    hide Sigma0, Sigma1, STANDARD;
  }

  /** Section 6.2.2, step 3: six variables move on, and two take a new value. */
  lemma RoundMeans(v: Vars, k: word, w: word)
    ensures var n, t := Round(STANDARD, v, k, w), v.h + Sum1(STANDARD, v.e) + Ch(STANDARD, v.e, v.f, v.g) + k + w;
      && n.b == v.a && n.c == v.b && n.d == v.c && n.f == v.e && n.g == v.f && n.h == v.g
      && n.e == (v.d + t) % 0x1_0000_0000
      && n.a == (t + Sum0(STANDARD, v.a) + Maj(STANDARD, v.a, v.b, v.c)) % 0x1_0000_0000
  {
    hide Sum0, Sum1, Ch, Maj, STANDARD;
    var t := v.h + Sum1(STANDARD, v.e) + Ch(STANDARD, v.e, v.f, v.g) + k + w;
    SumOfTwo(t, Sum0(STANDARD, v.a) + Maj(STANDARD, v.a, v.b, v.c));
    SumOfTwo(t, v.d);
  }

  lemma SumOfTwo(x: int, y: int)
    ensures ToWord(ToWord(x) + ToWord(y)) == (x + y) % 0x1_0000_0000
    ensures ToWord(y + ToWord(x)) == (x + y) % 0x1_0000_0000
  {
    SumOfWords(x, y, 0, 0);
    SumOfWords(x, 0, 0, 0);
    Multiple(y + ToWord(x), x / WORD);
    assert x + y == y + ToWord(x) + WORD * (x / WORD);
  }

  // ---------------------------------------------------------------- constants

  /** `whole`, with the 32 bits of k as its fraction, is the cube root of p cut off. */
  predicate CubeRoot(p: nat, whole: nat, k: nat) {
    k < WORD &&
    var r := whole * WORD + k;
    r * r * r <= p * 0x1_0000_0000_0000_0000_0000_0000 < (r + 1) * (r + 1) * (r + 1)
  }

  /** The same for the square root. */
  predicate SquareRoot(p: nat, whole: nat, k: nat) {
    k < WORD &&
    var r := whole * WORD + k;
    r * r <= p * 0x1_0000_0000_0000_0000 < (r + 1) * (r + 1)
  }

  // The round constants are the first 32 bits of the fractions of the cube roots of the first 64 primes,
  // and the initial hash value those of the square roots of the first eight

  lemma FirstEight()
    ensures CubeRoot(2, 1, K[0]) && CubeRoot(3, 1, K[1]) && CubeRoot(5, 1, K[2]) && CubeRoot(7, 1, K[3])
    ensures CubeRoot(11, 2, K[4]) && CubeRoot(13, 2, K[5]) && CubeRoot(17, 2, K[6]) && CubeRoot(19, 2, K[7])
  {
    assert CubeRoot(2, 1, 0x428a2f98) && CubeRoot(3, 1, 0x71374491);
    assert CubeRoot(5, 1, 0xb5c0fbcf) && CubeRoot(7, 1, 0xe9b5dba5);
    assert CubeRoot(11, 2, 0x3956c25b) && CubeRoot(13, 2, 0x59f111f1);
    assert CubeRoot(17, 2, 0x923f82a4) && CubeRoot(19, 2, 0xab1c5ed5);
    hide CubeRoot;
    assert K[0] == 0x428a2f98 && K[1] == 0x71374491 && K[2] == 0xb5c0fbcf && K[3] == 0xe9b5dba5;
    assert K[4] == 0x3956c25b && K[5] == 0x59f111f1 && K[6] == 0x923f82a4 && K[7] == 0xab1c5ed5;
  }

  lemma SecondEight()
    ensures CubeRoot(23, 2, K[8]) && CubeRoot(29, 3, K[9]) && CubeRoot(31, 3, K[10]) && CubeRoot(37, 3, K[11])
    ensures CubeRoot(41, 3, K[12]) && CubeRoot(43, 3, K[13]) && CubeRoot(47, 3, K[14]) && CubeRoot(53, 3, K[15])
  {
    assert CubeRoot(23, 2, 0xd807aa98) && CubeRoot(29, 3, 0x12835b01);
    assert CubeRoot(31, 3, 0x243185be) && CubeRoot(37, 3, 0x550c7dc3);
    assert CubeRoot(41, 3, 0x72be5d74) && CubeRoot(43, 3, 0x80deb1fe);
    assert CubeRoot(47, 3, 0x9bdc06a7) && CubeRoot(53, 3, 0xc19bf174);
    hide CubeRoot;
    assert K[8] == 0xd807aa98 && K[9] == 0x12835b01 && K[10] == 0x243185be && K[11] == 0x550c7dc3;
    assert K[12] == 0x72be5d74 && K[13] == 0x80deb1fe && K[14] == 0x9bdc06a7 && K[15] == 0xc19bf174;
  }

  lemma ThirdEight()
    ensures CubeRoot(59, 3, K[16]) && CubeRoot(61, 3, K[17]) && CubeRoot(67, 4, K[18]) && CubeRoot(71, 4, K[19])
    ensures CubeRoot(73, 4, K[20]) && CubeRoot(79, 4, K[21]) && CubeRoot(83, 4, K[22]) && CubeRoot(89, 4, K[23])
  {
    assert CubeRoot(59, 3, 0xe49b69c1) && CubeRoot(61, 3, 0xefbe4786);
    assert CubeRoot(67, 4, 0x0fc19dc6) && CubeRoot(71, 4, 0x240ca1cc);
    assert CubeRoot(73, 4, 0x2de92c6f) && CubeRoot(79, 4, 0x4a7484aa);
    assert CubeRoot(83, 4, 0x5cb0a9dc) && CubeRoot(89, 4, 0x76f988da);
    hide CubeRoot;
    assert K[16] == 0xe49b69c1 && K[17] == 0xefbe4786 && K[18] == 0x0fc19dc6 && K[19] == 0x240ca1cc;
    assert K[20] == 0x2de92c6f && K[21] == 0x4a7484aa && K[22] == 0x5cb0a9dc && K[23] == 0x76f988da;
  }

  lemma FourthEight()
    ensures CubeRoot(97, 4, K[24]) && CubeRoot(101, 4, K[25]) && CubeRoot(103, 4, K[26]) && CubeRoot(107, 4, K[27])
    ensures CubeRoot(109, 4, K[28]) && CubeRoot(113, 4, K[29]) && CubeRoot(127, 5, K[30]) && CubeRoot(131, 5, K[31])
  {
    assert CubeRoot(97, 4, 0x983e5152) && CubeRoot(101, 4, 0xa831c66d);
    assert CubeRoot(103, 4, 0xb00327c8) && CubeRoot(107, 4, 0xbf597fc7);
    assert CubeRoot(109, 4, 0xc6e00bf3) && CubeRoot(113, 4, 0xd5a79147);
    assert CubeRoot(127, 5, 0x06ca6351) && CubeRoot(131, 5, 0x14292967);
    hide CubeRoot;
    assert K[24] == 0x983e5152 && K[25] == 0xa831c66d && K[26] == 0xb00327c8 && K[27] == 0xbf597fc7;
    assert K[28] == 0xc6e00bf3 && K[29] == 0xd5a79147 && K[30] == 0x06ca6351 && K[31] == 0x14292967;
  }

  lemma FifthEight()
    ensures CubeRoot(137, 5, K[32]) && CubeRoot(139, 5, K[33]) && CubeRoot(149, 5, K[34]) && CubeRoot(151, 5, K[35])
    ensures CubeRoot(157, 5, K[36]) && CubeRoot(163, 5, K[37]) && CubeRoot(167, 5, K[38]) && CubeRoot(173, 5, K[39])
  {
    assert CubeRoot(137, 5, 0x27b70a85) && CubeRoot(139, 5, 0x2e1b2138);
    assert CubeRoot(149, 5, 0x4d2c6dfc) && CubeRoot(151, 5, 0x53380d13);
    assert CubeRoot(157, 5, 0x650a7354) && CubeRoot(163, 5, 0x766a0abb);
    assert CubeRoot(167, 5, 0x81c2c92e) && CubeRoot(173, 5, 0x92722c85);
    hide CubeRoot;
    assert K[32] == 0x27b70a85 && K[33] == 0x2e1b2138 && K[34] == 0x4d2c6dfc && K[35] == 0x53380d13;
    assert K[36] == 0x650a7354 && K[37] == 0x766a0abb && K[38] == 0x81c2c92e && K[39] == 0x92722c85;
  }

  lemma SixthEight()
    ensures CubeRoot(179, 5, K[40]) && CubeRoot(181, 5, K[41]) && CubeRoot(191, 5, K[42]) && CubeRoot(193, 5, K[43])
    ensures CubeRoot(197, 5, K[44]) && CubeRoot(199, 5, K[45]) && CubeRoot(211, 5, K[46]) && CubeRoot(223, 6, K[47])
  {
    assert CubeRoot(179, 5, 0xa2bfe8a1) && CubeRoot(181, 5, 0xa81a664b);
    assert CubeRoot(191, 5, 0xc24b8b70) && CubeRoot(193, 5, 0xc76c51a3);
    assert CubeRoot(197, 5, 0xd192e819) && CubeRoot(199, 5, 0xd6990624);
    assert CubeRoot(211, 5, 0xf40e3585) && CubeRoot(223, 6, 0x106aa070);
    hide CubeRoot;
    assert K[40] == 0xa2bfe8a1 && K[41] == 0xa81a664b && K[42] == 0xc24b8b70 && K[43] == 0xc76c51a3;
    assert K[44] == 0xd192e819 && K[45] == 0xd6990624 && K[46] == 0xf40e3585 && K[47] == 0x106aa070;
  }

  lemma SeventhEight()
    ensures CubeRoot(227, 6, K[48]) && CubeRoot(229, 6, K[49]) && CubeRoot(233, 6, K[50]) && CubeRoot(239, 6, K[51])
    ensures CubeRoot(241, 6, K[52]) && CubeRoot(251, 6, K[53]) && CubeRoot(257, 6, K[54]) && CubeRoot(263, 6, K[55])
  {
    assert CubeRoot(227, 6, 0x19a4c116) && CubeRoot(229, 6, 0x1e376c08);
    assert CubeRoot(233, 6, 0x2748774c) && CubeRoot(239, 6, 0x34b0bcb5);
    assert CubeRoot(241, 6, 0x391c0cb3) && CubeRoot(251, 6, 0x4ed8aa4a);
    assert CubeRoot(257, 6, 0x5b9cca4f) && CubeRoot(263, 6, 0x682e6ff3);
    hide CubeRoot;
    assert K[48] == 0x19a4c116 && K[49] == 0x1e376c08 && K[50] == 0x2748774c && K[51] == 0x34b0bcb5;
    assert K[52] == 0x391c0cb3 && K[53] == 0x4ed8aa4a && K[54] == 0x5b9cca4f && K[55] == 0x682e6ff3;
  }

  lemma EighthEight()
    ensures CubeRoot(269, 6, K[56]) && CubeRoot(271, 6, K[57]) && CubeRoot(277, 6, K[58]) && CubeRoot(281, 6, K[59])
    ensures CubeRoot(283, 6, K[60]) && CubeRoot(293, 6, K[61]) && CubeRoot(307, 6, K[62]) && CubeRoot(311, 6, K[63])
  {
    assert CubeRoot(269, 6, 0x748f82ee) && CubeRoot(271, 6, 0x78a5636f);
    assert CubeRoot(277, 6, 0x84c87814) && CubeRoot(281, 6, 0x8cc70208);
    assert CubeRoot(283, 6, 0x90befffa) && CubeRoot(293, 6, 0xa4506ceb);
    assert CubeRoot(307, 6, 0xbef9a3f7) && CubeRoot(311, 6, 0xc67178f2);
    hide CubeRoot;
    assert K[56] == 0x748f82ee && K[57] == 0x78a5636f && K[58] == 0x84c87814 && K[59] == 0x8cc70208;
    assert K[60] == 0x90befffa && K[61] == 0xa4506ceb && K[62] == 0xbef9a3f7 && K[63] == 0xc67178f2;
  }

  lemma InitialValue()
    ensures SquareRoot(2, 1, INITIAL[0]) && SquareRoot(3, 1, INITIAL[1]) && SquareRoot(5, 2, INITIAL[2]) && SquareRoot(7, 2, INITIAL[3])
    ensures SquareRoot(11, 3, INITIAL[4]) && SquareRoot(13, 3, INITIAL[5]) && SquareRoot(17, 4, INITIAL[6]) && SquareRoot(19, 4, INITIAL[7])
  {
    assert SquareRoot(2, 1, 0x6a09e667) && SquareRoot(3, 1, 0xbb67ae85);
    assert SquareRoot(5, 2, 0x3c6ef372) && SquareRoot(7, 2, 0xa54ff53a);
    assert SquareRoot(11, 3, 0x510e527f) && SquareRoot(13, 3, 0x9b05688c);
    assert SquareRoot(17, 4, 0x1f83d9ab) && SquareRoot(19, 4, 0x5be0cd19);
    hide SquareRoot;
  }
}
