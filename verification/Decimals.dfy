/** Numbers as JavaScript prints them. */
module Decimals {

  /** The digits of a number, without leading zeros. */
  function Digits(n: nat): string {
    if n < 10 then [Digit(n)] else Digits(n / 10) + [Digit(n % 10)]
  }

  function Digit(n: nat): char
    requires n < 10
  {
    "0123456789"[n]
  }

  /** `String(n)`. */
  function Decimal(n: int): string {
    if n < 0 then "-" + Digits(-n) else Digits(n)
  }

  // ---- reading them back ----

  function Value(s: string): int {
    if s != "" && s[0] == '-' then -Sum(s[1..]) else Sum(s)
  }

  function Sum(s: string): int {
    if s == "" then 0 else 10 * Sum(s[..|s| - 1]) + (s[|s| - 1] as int - '0' as int)
  }

  lemma DigitValue(n: nat)
    requires n < 10
    ensures Digit(n) as int - '0' as int == n
  {
  }

  lemma {:induction false} SumOfDigits(n: nat)
    ensures Sum(Digits(n)) == n
    decreases n
  {
    DigitValue(n % 10);
    if n < 10 {
      assert Digits(n)[..0] == "";
    } else {
      SumOfDigits(n / 10);
      assert Digits(n)[..|Digits(n)| - 1] == Digits(n / 10);
    }
  }

  lemma {:induction false} ValueOfUnsigned(n: nat)
    ensures Value(Digits(n)) == n
  {
    DigitsStart(n);
    SumOfDigits(n);
  }

  /** What is printed is read back as the same number. */
  lemma {:induction false} ValueOfDecimal(n: int, s: string)
    requires s == Decimal(n)
    ensures Value(s) == n
  {
    if n < 0 {
      NegativeDecimal(n);
      SumOfDigits(-n);
      assert s[0] == '-' && s[1..] == Digits(-n);
    } else {
      ValueOfUnsigned(n);
    }
  }

  lemma DigitIsInjective(a: nat, b: nat)
    requires a < 10 && b < 10 && Digit(a) == Digit(b)
    ensures a == b
  {
  }

  lemma {:induction false} DigitsStart(n: nat)
    ensures |Digits(n)| > 0 && Digits(n)[0] != '-' && (|Digits(n)| == 1 <==> n < 10)
    decreases n
  {
    if n >= 10 {
      DigitsStart(n / 10);
    }
  }

  lemma {:induction false} DigitsAreInjective(a: nat, b: nat)
    requires Digits(a) == Digits(b)
    ensures a == b
    decreases a
  {
    DigitsStart(a);
    DigitsStart(b);
    var x, y := Digits(a), Digits(b);
    assert x[|x| - 1] == Digit(a % 10) && y[|y| - 1] == Digit(b % 10);
    DigitIsInjective(a % 10, b % 10);
    if a >= 10 {
      assert x[..|x| - 1] == Digits(a / 10) && y[..|y| - 1] == Digits(b / 10);
      DigitsAreInjective(a / 10, b / 10);
    }
  }

  lemma DecimalIsInjective(a: int, b: int)
    requires Decimal(a) == Decimal(b)
    ensures a == b
  {
    if a < 0 {
      NegativeDecimal(a);
      if b < 0 {
        NegativeDecimal(b);
        DigitsAreInjective(-a, -b);
      } else {
        DigitsStart(b);
      }
    } else if b < 0 {
      NegativeDecimal(b);
      DigitsStart(a);
    } else {
      DigitsAreInjective(a, b);
    }
  }

  lemma NegativeDecimal(a: int)
    requires a < 0
    ensures Decimal(a)[0] == '-' && Decimal(a)[1..] == Digits(-a)
  {
  }
}
