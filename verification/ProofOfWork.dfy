/** The startup-grant proof of work: the coordinator's check and the two miners, the dashboard's
  (TypeScript) and the phone's (Swift). */
module ProofOfWork {
  import opened Wrappers
  import opened Words
  import Sha256

  const NONCES: nat := WORD * WORD           // 2^64
  const MAX_SAFE: nat := 0x1F_FFFF_FFFF_FFFF // Number.MAX_SAFE_INTEGER

  // ---------------------------------------------------------------- leading zero bits

  function ByteZeros(b: byte): (k: nat)
    ensures k <= 8 && (k == 8 <==> b == 0)
  {
    if b >= 128 then 0 else if b >= 64 then 1 else if b >= 32 then 2 else if b >= 16 then 3
    else if b >= 8 then 4 else if b >= 4 then 5 else if b >= 2 then 6 else if b >= 1 then 7 else 8
  }

  function LeadingZeros(d: seq<byte>): (k: nat)
    ensures k <= 8 * |d|
  {
    if d == [] then 0 else if d[0] == 0 then 8 + LeadingZeros(d[1..]) else ByteZeros(d[0])
  }

  /** The number a digest spells. */
  function Magnitude(d: seq<byte>): nat {
    if d == [] then 0 else d[0] * Pow2(8 * (|d| - 1)) + Magnitude(d[1..])
  }

  lemma {:induction false} Pow2Adds(i: nat, j: nat)
    ensures Pow2(i + j) == Pow2(i) * Pow2(j)
  {
    if i > 0 {
      Pow2Adds(i - 1, j);
    }
  }

  lemma TopByte(b: nat, p: nat, rest: nat)
    requires b < 256 && rest < p
    ensures b * p + rest < 256 * p
  {
    assert b * p <= 255 * p;
  }

  lemma {:induction false} MagnitudeBound(d: seq<byte>)
    ensures Magnitude(d) < Pow2(8 * |d|)
  {
    if d != [] {
      MagnitudeBound(d[1..]);
      PowersOfTwo();
      Pow2Adds(8, 8 * (|d| - 1));
      TopByte(d[0], Pow2(8 * (|d| - 1)), Magnitude(d[1..]));
    }
  }

  lemma PowersOfTwo()
    ensures Pow2(0) == 1 && Pow2(1) == 2 && Pow2(2) == 4 && Pow2(3) == 8 && Pow2(4) == 16
    ensures Pow2(5) == 32 && Pow2(6) == 64 && Pow2(7) == 128 && Pow2(8) == 256
  {
    assert Pow2(4) == 16;
  }

  /** A byte below 2^(8 - k) is one with at least k leading zeros. */
  lemma ByteZerosMeaning(b: byte, k: nat)
    requires k <= 8
    ensures k <= ByteZeros(b) <==> b < Pow2(8 - k)
  {
    PowersOfTwo();
  }

  lemma HighByteDecides(b: nat, p: nat, rest: nat, q: nat)
    requires rest < p
    ensures b * p + rest < q * p <==> b < q
  {
    if b < q {
      assert (b + 1) * p <= q * p;
    } else {
      assert q * p <= b * p;
    }
  }

  lemma NonZeroTopByte(b: nat, p: nat, rest: nat, q: nat)
    requires b > 0 && q <= p
    ensures b * p + rest >= q
  {
    assert b * p >= p;
  }

  lemma LeadingZerosOfFirstByte(d: seq<byte>, k: nat)
    requires d != [] && k <= 8
    ensures k <= LeadingZeros(d) <==> Magnitude(d) < Pow2(8 * |d| - k)
  {
    var n := 8 * (|d| - 1);
    MagnitudeBound(d[1..]);
    Pow2Adds(8 - k, n);
    HighByteDecides(d[0], Pow2(n), Magnitude(d[1..]), Pow2(8 - k));
    ByteZerosMeaning(d[0], k);
  }

  /** Leading zero bits in the sense of the number: having at least k of them is being below
    2^(8n - k). */
  lemma {:induction false} LeadingZerosMeaning(d: seq<byte>, k: nat)
    requires k <= 8 * |d|
    ensures k <= LeadingZeros(d) <==> Magnitude(d) < Pow2(8 * |d| - k)
  {
    if d != [] {
      if k <= 8 {
        LeadingZerosOfFirstByte(d, k);
      } else if d[0] == 0 {
        LeadingZerosMeaning(d[1..], k - 8);
      } else {
        var n := 8 * (|d| - 1);
        Pow2Monotone(8 * |d| - k, n);
        NonZeroTopByte(d[0], Pow2(n), Magnitude(d[1..]), Pow2(8 * |d| - k));
      }
    }
  }

  lemma {:induction false} Pow2Monotone(i: nat, j: nat)
    requires i <= j
    ensures Pow2(i) <= Pow2(j)
    decreases j
  {
    if i < j {
      Pow2Monotone(i, j - 1);
    }
  }

  /** The mask loop on one non-zero byte. `byte & mask` tests the one bit of the mask. */
  method CountInByte(b: byte) returns (count: nat)
    requires b != 0
    ensures count == ByteZeros(b)
  {
    var mask: int := 0x80;
    count := 0;
    while mask != 0
      invariant mask in [0x80, 0x40, 0x20, 0x10, 8, 4, 2, 1]
      invariant b < 2 * mask && count == ByteZeros(mask)
      decreases mask
    {
      if b / mask % 2 == 1 {
        return;
      }
      count := count + 1;
      mask := mask / 2;
    }
  }

  method CountLeadingZeroBits(digest: seq<byte>) returns (count: nat)
    ensures count == LeadingZeros(digest)
  {
    hide ByteZeros;
    count := 0;
    for i := 0 to |digest|
      invariant count == 8 * i
      invariant LeadingZeros(digest) == 8 * i + LeadingZeros(digest[i..])
    {
      if digest[i] == 0 {
        count := count + 8;
        assert digest[i..][1..] == digest[i + 1..];
        continue;
      }
      var more := CountInByte(digest[i]);
      return count + more;
    }
  }

  // ---------------------------------------------------------------- the check

  /** What is hashed: the user ID's bytes, then the nonce in eight big-endian bytes. */
  function Preimage(user: seq<byte>, nonce: nat): seq<byte> {
    user + BigEndian8(nonce)
  }

  function Zeros(user: seq<byte>, nonce: nat): nat {
    LeadingZeros(Sha256.Digest(Preimage(user, nonce)))
  }

  /** The coordinator's `VerifyProofOfWork`. */
  predicate Accepts(user: seq<byte>, nonce: nat, difficulty: int) {
    difficulty <= 0 || Zeros(user, nonce) >= difficulty
  }

  /** The nonce is accepted exactly when the digest of the user ID and the nonce's eight bytes, as a
    number, is below 2^(256 - difficulty). The bytes spell the nonce, the highest first. */
  lemma AcceptsIff(user: seq<byte>, nonce: nat, difficulty: int)
    requires nonce < NONCES
    ensures difficulty <= 0 ==> Accepts(user, nonce, difficulty)
    ensures difficulty > 256 ==> !Accepts(user, nonce, difficulty)
    ensures 0 < difficulty <= 256 ==>
      (Accepts(user, nonce, difficulty) <==> Magnitude(Sha256.Digest(user + BigEndian8(nonce))) < Pow2(256 - difficulty))
    ensures Magnitude(BigEndian8(nonce)) == nonce
  {
    hide Sha256.Digest, BigEndian8, LeadingZeros, Magnitude;
    BytesSpellNonce(nonce);
    if difficulty > 0 {
      EnoughZerosIff(Sha256.Digest(Preimage(user, nonce)), difficulty);
    }
  }

  lemma EnoughZerosIff(d: seq<byte>, k: nat)
    requires |d| == 32
    ensures k > 256 ==> LeadingZeros(d) < k
    ensures k <= 256 ==> (LeadingZeros(d) >= k <==> Magnitude(d) < Pow2(256 - k))
  {
    if k <= 256 {
      LeadingZerosMeaning(d, k);
    }
    hide LeadingZeros, Magnitude, Pow2;
  }

  lemma {:induction false} MagnitudeAppend(d: seq<byte>, b: byte)
    ensures Magnitude(d + [b]) == 256 * Magnitude(d) + b
  {
    PowersOfTwo();
    if d == [] {
      assert [] + [b] == [b] && [b][1..] == [];
    } else {
      MagnitudeAppend(d[1..], b);
      assert (d + [b])[1..] == d[1..] + [b];
      Pow2Adds(8, 8 * (|d| - 1));
      Shifted(d[0], Pow2(8 * (|d| - 1)));
    }
  }

  lemma Shifted(b: nat, p: nat)
    ensures b * (256 * p) == 256 * (b * p)
  {}

  lemma BytesSpellNonce(n: nat)
    requires n < NONCES
    ensures Magnitude(BigEndian8(n)) == n
  {
    var b := BigEndian8(n);
    HighBytes(n);
    MiddleBytes(n);
    LowerBytes(n);
    LowestBytes(n);
    assert b[..1] == [] + [b[0]] && b[..2] == b[..1] + [b[1]] && b[..3] == b[..2] + [b[2]] && b[..4] == b[..3] + [b[3]];
    assert b[..5] == b[..4] + [b[4]] && b[..6] == b[..5] + [b[5]] && b[..7] == b[..6] + [b[6]] && b == b[..7] + [b[7]];
    MagnitudeAppend([], b[0]);
    MagnitudeAppend(b[..1], b[1]);
    MagnitudeAppend(b[..2], b[2]);
    MagnitudeAppend(b[..3], b[3]);
    MagnitudeAppend(b[..4], b[4]);
    MagnitudeAppend(b[..5], b[5]);
    MagnitudeAppend(b[..6], b[6]);
    MagnitudeAppend(b[..7], b[7]);
    hide Magnitude;
  }

  lemma HighBytes(n: nat)
    requires n < NONCES
    ensures n / 0x100_0000_0000_0000 < 256 && n / 0x100_0000_0000_0000 % 256 == n / 0x100_0000_0000_0000
    ensures n / 0x1_0000_0000_0000 == 256 * (n / 0x100_0000_0000_0000) + n / 0x1_0000_0000_0000 % 256
  {}

  lemma MiddleBytes(n: nat)
    ensures n / 0x100_0000_0000 == 256 * (n / 0x1_0000_0000_0000) + n / 0x100_0000_0000 % 256
    ensures n / 0x1_0000_0000 == 256 * (n / 0x100_0000_0000) + n / 0x1_0000_0000 % 256
  {}

  lemma LowerBytes(n: nat)
    ensures n / 0x100_0000 == 256 * (n / 0x1_0000_0000) + n / 0x100_0000 % 256
    ensures n / 0x1_0000 == 256 * (n / 0x100_0000) + n / 0x1_0000 % 256
  {}

  lemma LowestBytes(n: nat)
    ensures n / 0x100 == 256 * (n / 0x1_0000) + n / 0x100 % 256
    ensures n == 256 * (n / 0x100) + n % 256
  {}

  ghost predicate IsLeast(user: seq<byte>, nonce: nat, difficulty: int) {
    Accepts(user, nonce, difficulty) && forall m: nat :: m < nonce ==> !Accepts(user, m, difficulty)
  }

  // ---------------------------------------------------------------- the dashboard's miner

  method WriteNonce(buf: array<byte>, at: nat, nonce: nat)
    requires buf.Length == at + 8 && nonce < NONCES
    modifies buf
    ensures buf[..] == old(buf[..at]) + BigEndian8(nonce)
  {
    var hi, lo := nonce / WORD, nonce % WORD;
    BigEndianWords(nonce);
    SetUint32(buf, at, hi);
    SetUint32(buf, at + 4, lo);
  }

  /** One turn of the dashboard's loop; None when hashing throws. */
  method Attempt(buf: array<byte>, user: seq<byte>, nonce: nat) returns (zeros: Option<nat>)
    requires buf.Length == |user| + 8 && buf[..|user|] == user && nonce < NONCES
    modifies buf
    ensures buf[..] == Preimage(user, nonce)
    ensures 8 * (|user| + 8) < WORD ==> zeros == Some(Zeros(user, nonce))
  {
    hide Sha256.Digest, Sha256.HashBlocks, Sha256.WrittenPadding, WordsToBytes, LeadingZeros, BigEndian8;
    WriteNonce(buf, |user|, nonce);
    var digest := Sha256.Sha256(buf[..]);
    if digest.None? {
      return None;
    }
    var n := CountLeadingZeroBits(digest.value);
    zeros := Some(n);
  }

  method NewBuffer(user: seq<byte>) returns (buf: array<byte>)
    ensures fresh(buf) && buf.Length == |user| + 8 && buf[..|user|] == user
  {
    buf := new byte[|user| + 8](_ => 0);
    forall i | 0 <= i < |user| {
      buf[i] := user[i];
    }
  }

  /** `mineProofOfWork`: None is an exception, for an exhausted nonce space or from hashing. The digest it
    tests is SHA-256 when the hashed message is shorter than 2^32 bits. */
  method Mine(user: seq<byte>, difficulty: int) returns (r: Option<nat>)
    ensures 8 * (|user| + 8) < WORD && r.Some? ==> IsLeast(user, r.value, difficulty)
    ensures 8 * (|user| + 8) < WORD ==>
      (r.None? <==> forall m: nat :: m < MAX_SAFE ==> !Accepts(user, m, difficulty))
  {
    hide Zeros, Preimage;
    if difficulty <= 0 {
      assert Accepts(user, 0, difficulty);
      return Some(0);
    }
    var buf := NewBuffer(user);
    var nonce := 0;
    while nonce < MAX_SAFE
      invariant nonce <= MAX_SAFE && buf.Length == |user| + 8 && fresh(buf)
      invariant buf[..|user|] == user
      invariant 8 * (|user| + 8) < WORD ==> forall m: nat :: m < nonce ==> !Accepts(user, m, difficulty)
    {
      var zeros := Attempt(buf, user, nonce);
      PrefixKept(user, nonce);
      if zeros.None? {
        return None;
      }
      if zeros.value >= difficulty {
        return Some(nonce);
      }
      nonce := nonce + 1;
    }
    r := None;
  }

  lemma PrefixKept(user: seq<byte>, nonce: nat)
    ensures |Preimage(user, nonce)| == |user| + 8 && Preimage(user, nonce)[..|user|] == user
  {}

  // ---------------------------------------------------------------- the phone's miner

  /** `n >>= 8` while the index walks down from the last byte. */
  method WriteNonceBytewise(buf: array<byte>, at: nat, nonce: nat)
    requires buf.Length == at + 8 && nonce < NONCES
    modifies buf
    ensures buf[..] == old(buf[..at]) + BigEndian8(nonce)
  {
    var n, i := nonce, at + 7;
    ghost var digits := BigEndian8(nonce);
    while i >= at
      invariant at - 1 <= i <= at + 7
      invariant n == Drop(nonce, at + 7 - i)
      invariant buf[..at] == old(buf[..at])
      invariant forall j :: i < j < at + 8 ==> buf[j] == digits[j - at]
    {
      DigitOf(nonce, at + 7 - i);
      buf[i] := n % 256;
      n, i := n / 256, i - 1;
    }
    assert buf[at..] == digits;
    assert buf[..] == buf[..at] + buf[at..];
  }

  function Drop(n: nat, bytes: nat): nat {
    if bytes == 0 then n else Drop(n, bytes - 1) / 256
  }

  lemma DigitOf(n: nat, k: nat)
    requires k < 8
    ensures Drop(n, k) % 256 == BigEndian8(n)[7 - k]
  {
    assert Drop(n, 1) == n / 256;
    assert Drop(n, 2) == n / 0x1_0000;
    assert Drop(n, 3) == n / 0x100_0000;
    assert Drop(n, 4) == n / 0x1_0000_0000;
    assert Drop(n, 5) == n / 0x100_0000_0000;
    assert Drop(n, 6) == n / 0x1_0000_0000_0000;
    assert Drop(n, 7) == n / 0x100_0000_0000_0000;
  }

  /** One turn of the phone's loop; the platform's SHA-256 is the standard's. */
  method BytewiseAttempt(buf: array<byte>, user: seq<byte>, nonce: nat) returns (zeros: nat)
    requires buf.Length == |user| + 8 && buf[..|user|] == user && nonce < NONCES
    modifies buf
    ensures buf[..] == Preimage(user, nonce) && zeros == Zeros(user, nonce)
  {
    hide Sha256.Digest, LeadingZeros, BigEndian8;
    WriteNonceBytewise(buf, |user|, nonce);
    zeros := CountLeadingZeroBits(Sha256.Digest(buf[..]));
  }

  /** `mineStartupGrant`. Its loop only ends when some 64-bit nonce is accepted, so that is what a
    caller who waits for it relies on; the wrap-around of the counter is then never reached. */
  method MineStartupGrant(user: seq<byte>, difficulty: int) returns (nonce: nat)
    requires exists m: nat :: m < NONCES && Accepts(user, m, difficulty)
    ensures IsLeast(user, nonce, difficulty)
  {
    hide Zeros, Preimage;
    nonce := 0;
    if difficulty <= 0 {
      return;
    }
    var buf := NewBuffer(user);
    while true
      invariant nonce < NONCES && buf.Length == |user| + 8 && fresh(buf)
      invariant buf[..|user|] == user
      invariant forall m: nat :: m < nonce ==> !Accepts(user, m, difficulty)
      decreases NONCES - nonce
    {
      var zeros := BytewiseAttempt(buf, user, nonce);
      PrefixKept(user, nonce);
      if zeros >= difficulty {
        return;
      }
      assert nonce + 1 < NONCES;
      nonce := (nonce + 1) % NONCES;
    }
  }

  /** Both miners find the same nonce, and the coordinator accepts it. */
  lemma LeastNonceIsUnique(user: seq<byte>, difficulty: int, m: nat, n: nat)
    requires IsLeast(user, m, difficulty) && IsLeast(user, n, difficulty)
    ensures m == n && Accepts(user, m, difficulty)
  {
    assert m < n ==> !Accepts(user, m, difficulty);
    assert n < m ==> !Accepts(user, n, difficulty);
  }
}
