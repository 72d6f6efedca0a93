/** Decimal numerals, as `%d` prints them and `strconv` reads them, and Go's conversion of a float to
  an int. */
module Numerals {

  predicate IsDigit(c: char) { '0' <= c <= '9' }

  function Decimal(n: nat): string {
    if n < 10 then [('0' as int + n) as char] else Decimal(n / 10) + [('0' as int + n % 10) as char]
  }

  /** The number a text of digits stands for. */
  function Reading(s: string): int {
    if s == [] then 0 else Reading(s[..|s| - 1]) * 10 + (s[|s| - 1] as int - '0' as int)
  }

  lemma {:induction false} DecimalReads(n: nat)
    ensures Reading(Decimal(n)) == n && Decimal(n) != "" && forall c :: c in Decimal(n) ==> IsDigit(c)
  {
    if n >= 10 {
      DecimalReads(n / 10);
      assert Decimal(n)[..|Decimal(n)| - 1] == Decimal(n / 10);
    } else {
      assert Decimal(n)[..0] == "";
    }
  }

  lemma {:induction false} ReadingNonNegative(s: string)
    requires forall c :: c in s ==> IsDigit(c)
    ensures Reading(s) >= 0
  {
    if s != "" {
      assert s[|s| - 1] in s;
      ReadingNonNegative(s[..|s| - 1]);
    }
  }

  /** Toward zero. */
  function Truncate(x: real): int {
    if x >= 0.0 then x.Floor else -((-x).Floor)
  }
}
