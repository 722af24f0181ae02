// Decimal numerals, as strconv.Itoa writes natural numbers.
module Decimal {

  function Numeral(n: nat): (c: char)
    requires n < 10
    ensures n > 0 ==> c != '0'
  {
    "0123456789"[n]
  }

  function Digits(n: nat): string {
    (if n < 10 then "" else Digits(n / 10)) + [Numeral(n % 10)]
  }

  lemma LastDigit(n: nat)
    ensures var d := Digits(n);
            d != "" && d[..|d| - 1] == (if n < 10 then "" else Digits(n / 10)) && d[|d| - 1] == Numeral(n % 10)
  {
  }

  lemma NumeralInjective(a: nat, b: nat)
    requires a < 10 && b < 10 && Numeral(a) == Numeral(b)
    ensures a == b
  {
  }

  lemma {:induction false} DigitsInjective(a: nat, b: nat)
    requires Digits(a) == Digits(b)
    ensures a == b
  {
    hide Digits, Numeral;
    LastDigit(a);
    LastDigit(b);
    NumeralInjective(a % 10, b % 10);
    if a >= 10 && b >= 10 {
      DigitsInjective(a / 10, b / 10);
    } else {
      LastDigit(a / 10);
      LastDigit(b / 10);
    }
  }

  lemma {:induction false} NoLeadingZero(n: nat)
    ensures Digits(n) != "" && (n > 0 ==> Digits(n)[0] != '0')
  {
    if n >= 10 {
      NoLeadingZero(n / 10);
    }
  }

  lemma {:induction false} DigitsAreNumerals(n: nat, c: char)
    requires c in Digits(n)
    ensures '0' <= c <= '9'
  {
    if n >= 10 && c in Digits(n / 10) {
      DigitsAreNumerals(n / 10, c);
    }
  }
}
