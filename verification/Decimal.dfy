/** Decimal numerals without leading zeros. */
module Decimal {
  import opened Common

  predicate Digit(c: char) {
    '0' <= c <= '9'
  }

  predicate Digits(s: string) {
    forall i :: 0 <= i < |s| ==> Digit(s[i])
  }

  function DigitValue(c: char): nat
    requires Digit(c)
  {
    c as int - '0' as int
  }

  function DigitChar(d: nat): (c: char)
    requires d < 10
    ensures Digit(c) && DigitValue(c) == d
  {
    ('0' as int + d) as char
  }

  function Value(s: string): nat
    requires Digits(s)
  {
    if s == [] then 0 else 10 * Value(s[..|s| - 1]) + DigitValue(s[|s| - 1])
  }

  /** The numeral of a number, as String(n) prints it. */
  function Numeral(n: nat): (s: string)
    ensures s != [] && Digits(s)
  {
    if n < 10 then [DigitChar(n)] else Numeral(n / 10) + [DigitChar(n % 10)]
  }

  predicate Canonical(s: string) {
    s != [] && Digits(s) && (|s| == 1 || s[0] != '0')
  }

  lemma {:induction false} NumeralValue(n: nat)
    ensures Value(Numeral(n)) == n && Canonical(Numeral(n)) && (Numeral(n)[0] == '0' <==> n == 0)
  {
    var s := Numeral(n);
    if n >= 10 {
      NumeralValue(n / 10);
      assert s[..|s| - 1] == Numeral(n / 10);
      assert s[0] == Numeral(n / 10)[0];
    } else {
      assert s[..0] == [];
      assert Value([]) == 0;
    }
  }

  lemma {:induction false} ValueNumeral(s: string)
    requires Canonical(s)
    ensures Numeral(Value(s)) == s
  {
    var front, last := s[..|s| - 1], s[|s| - 1];
    assert DigitChar(DigitValue(last)) == last;
    assert s == front + [last];
    if |s| == 1 {
      assert Value(front) == 0;
    } else {
      ValueNumeral(front);
      ValuePositive(front);
      assert Value(s) / 10 == Value(front) && Value(s) % 10 == DigitValue(last);
    }
  }

  lemma {:induction false} ValuePositive(s: string)
    requires Canonical(s) && s[0] != '0'
    ensures Value(s) > 0
  {
    if |s| > 1 {
      assert s[..|s| - 1][0] == s[0];
      ValuePositive(s[..|s| - 1]);
    } else {
      assert s[..0] == [];
    }
  }
}
