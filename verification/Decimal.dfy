/** Decimal spelling of natural numbers, as used in generated identities and indexes. */
module Decimal {
  predicate IsDigit(c: char) {
    '0' <= c <= '9'
  }

  predicate AllDigits(s: string) {
    forall c | c in s :: IsDigit(c)
  }

  function Digit(d: nat): char
    requires d < 10
  {
    ('0' as int + d) as char
  }

  function DigitValue(c: char): nat
    requires IsDigit(c)
  {
    c as int - '0' as int
  }

  function Dec(n: nat): string {
    if n < 10 then [Digit(n)] else Dec(n / 10) + [Digit(n % 10)]
  }

  function ParseNat(s: string): nat
    requires AllDigits(s)
  {
    if s == "" then 0
    else
      assert s[|s| - 1] in s;
      10 * ParseNat(s[..|s| - 1]) + DigitValue(s[|s| - 1])
  }

  /** Reading a spelling back gives the number. */
  lemma {:induction false} ParseDec(n: nat)
    ensures AllDigits(Dec(n)) && Dec(n) != "" && ParseNat(Dec(n)) == n
  {
    if n >= 10 {
      ParseDec(n / 10);
      var s := Dec(n);
      assert s[..|s| - 1] == Dec(n / 10);
      assert DigitValue(s[|s| - 1]) == n % 10;
    }
  }

  /** Different numbers are spelled differently. */
  lemma {:induction false} DecInjective(m: nat, n: nat)
    requires Dec(m) == Dec(n)
    ensures m == n
  {
    ParseDec(m);
    ParseDec(n);
  }

  /** Length grows slowly: never more digits than the number plus one. */
  lemma {:induction false} DecLength(n: nat)
    ensures 1 <= |Dec(n)| <= n + 1
    ensures n >= 1 ==> |Dec(n)| <= n
  {
    if n >= 10 {
      DecLength(n / 10);
    }
  }

  /** One more needs at most one more digit. */
  lemma {:induction false} DecNext(n: nat)
    ensures |Dec(n)| <= |Dec(n + 1)| <= |Dec(n)| + 1
  {
    if n >= 9 {
      DecNext(n / 10);
      assert (n + 1) / 10 == n / 10 || (n + 1) / 10 == n / 10 + 1;
    }
  }

  lemma {:induction false} DecGrows(m: nat, n: nat)
    requires m <= n
    ensures |Dec(m)| <= |Dec(n)| <= |Dec(m)| + (n - m)
    decreases n - m
  {
    if m < n {
      DecGrows(m, n - 1);
      DecNext(n - 1);
    }
  }
}
