/** Decimal numerals in file names: different numbers read differently. */
module Decimals {
  function Decimal(n: nat): string {
    if n < 10 then ["0123456789"[n]] else Decimal(n / 10) + ["0123456789"[n % 10]]
  }

  lemma DigitsDiffer(a: nat, b: nat)
    requires a < 10 && b < 10 && "0123456789"[a] == "0123456789"[b]
    ensures a == b
  {}

  lemma {:induction false} DecimalInjective(a: nat, b: nat)
    requires Decimal(a) == Decimal(b)
    ensures a == b
    decreases a
  {
    DecimalNonEmpty(a / 10);
    DecimalNonEmpty(b / 10);
    var da, db := Decimal(a), Decimal(b);
    assert da[|da| - 1] == "0123456789"[a % 10] && db[|db| - 1] == "0123456789"[b % 10];
    DigitsDiffer(a % 10, b % 10);
    if a >= 10 && b >= 10 {
      assert Decimal(a / 10) == da[..|da| - 1] && Decimal(b / 10) == db[..|db| - 1];
      DecimalInjective(a / 10, b / 10);
    }
  }

  lemma DecimalNonEmpty(n: nat)
    ensures |Decimal(n)| > 0
  {}

  /** The number that digits stand for. */
  function NumberOf(digits: string): int {
    if digits == "" then 0
    else NumberOf(digits[..|digits| - 1]) * 10 + (digits[|digits| - 1] as int - '0' as int)
  }

  /** A numeral has decimal digits only, stands for its number, and has no leading zero. */
  lemma {:induction false} DecimalReadsBack(n: nat)
    ensures NumberOf(Decimal(n)) == n && Decimal(n) != ""
    ensures forall i :: 0 <= i < |Decimal(n)| ==> '0' <= Decimal(n)[i] <= '9'
    ensures n > 0 ==> Decimal(n)[0] != '0'
  {
    var d := Decimal(n);
    DigitReads(n % 10);
    if n >= 10 {
      DecimalReadsBack(n / 10);
      assert d[..|d| - 1] == Decimal(n / 10);
    } else {
      assert d[..|d| - 1] == "" && n % 10 == n;
    }
  }

  lemma DigitReads(n: nat)
    requires n < 10
    ensures '0' <= "0123456789"[n] <= '9' && "0123456789"[n] as int - '0' as int == n
  {}
}
