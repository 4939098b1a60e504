/** Decimal rendering of naturals, as strconv.Itoa and %d print them. */
module Decimal {
  function Digit(n: nat): (c: char)
    requires n < 10
    ensures IsDigit(c) && DigitValue(c) == n
  {
    '0' + n as char
  }

  predicate IsDigit(c: char) { '0' <= c <= '9' }

  function DigitValue(c: char): nat
    requires IsDigit(c)
  {
    (c - '0') as nat
  }

  function Itoa(n: nat): (s: string)
    ensures s != [] && forall i :: 0 <= i < |s| ==> IsDigit(s[i])
  {
    if n < 10 then [Digit(n)] else Itoa(n / 10) + [Digit(n % 10)]
  }

  function Atoi(s: string): nat
    requires forall i :: 0 <= i < |s| ==> IsDigit(s[i])
  {
    if s == [] then 0 else 10 * Atoi(s[..|s|-1]) + DigitValue(s[|s|-1])
  }

  lemma {:induction false} AtoiItoa(n: nat)
    ensures Atoi(Itoa(n)) == n
  {
    if n >= 10 {
      AtoiItoa(n / 10);
      assert Itoa(n)[..|Itoa(n)|-1] == Itoa(n / 10);
    } else {
      assert Itoa(n)[..0] == [];
      assert Atoi(Itoa(n)) == 10 * Atoi([]) + n;
    }
  }

  lemma ItoaInjective(m: nat, n: nat)
    requires Itoa(m) == Itoa(n)
    ensures m == n
  {
    AtoiItoa(m);
    AtoiItoa(n);
  }

  /** A numeral without leading zeros that denotes a positive number. */
  predicate IsNumeral(s: string) { s != "" && s[0] != '0' && forall i :: 0 <= i < |s| ==> IsDigit(s[i]) }

  lemma {:induction false} ItoaIsNumeral(n: nat)
    requires n > 0
    ensures IsNumeral(Itoa(n))
  {
    if n >= 10 { ItoaIsNumeral(n / 10); }
  }

  lemma {:induction false} NumeralIsPositive(s: string)
    requires IsNumeral(s)
    ensures Atoi(s) > 0
  {
    if |s| > 1 { NumeralIsPositive(s[..|s|-1]); }
  }

  /** Every numeral is the print of its value. */
  lemma {:induction false} ItoaAtoi(s: string)
    requires IsNumeral(s)
    ensures Itoa(Atoi(s)) == s
  {
    var init, last := s[..|s|-1], DigitValue(s[|s|-1]);
    assert [Digit(last)] == s[|s|-1..];
    if init != "" {
      NumeralIsPositive(init);
      ItoaAtoi(init);
      assert Atoi(s) / 10 == Atoi(init) && Atoi(s) % 10 == last;
    } else {
      assert Atoi(init) == 0;
    }
    assert s == init + [Digit(last)];
  }

  lemma {:induction false} AtoiAppend(s: string, t: string)
    requires t != "" && (forall i :: 0 <= i < |s| ==> IsDigit(s[i])) && (forall i :: 0 <= i < |t| ==> IsDigit(t[i]))
    ensures Atoi(s + t) >= 10 * Atoi(s) + Atoi(t)
  {
    assert (s + t)[..|s + t|-1] == s + t[..|t|-1];
    if |t| > 1 {
      AtoiAppend(s, t[..|t|-1]);
    } else {
      assert t[..|t|-1] == "" && s + "" == s;
    }
  }
}
