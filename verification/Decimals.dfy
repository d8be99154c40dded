/** Natural numbers as decimal digits. */
module Decimals {

  function Digit(d: nat): char
    requires d < 10
  {
    '0' + d as char
  }

  predicate IsDigit(c: char) {
    '0' <= c <= '9'
  }

  predicate AllDigits(s: string) {
    forall i :: 0 <= i < |s| ==> IsDigit(s[i])
  }

  function Decimal(n: nat): (s: string)
    ensures s != [] && AllDigits(s)
  {
    if n < 10 then [Digit(n)] else Decimal(n / 10) + [Digit(n % 10)]
  }

  /** The number a string of digits names. */
  function Value(s: string): nat
    requires AllDigits(s)
  {
    if s == [] then 0 else 10 * Value(s[..|s| - 1]) + (s[|s| - 1] as int - '0' as int)
  }

  lemma {:induction false} ValueOfDecimal(n: nat)
    ensures Value(Decimal(n)) == n
  {
    if n >= 10 {
      ValueOfDecimal(n / 10);
      assert Decimal(n)[..|Decimal(n)| - 1] == Decimal(n / 10);
    }
  }

  lemma DecimalInjective(m: nat, n: nat)
    requires Decimal(m) == Decimal(n)
    ensures m == n
  {
    ValueOfDecimal(m);
    ValueOfDecimal(n);
  }

  /** How many digits a text starts with, up to a limit. */
  function DigitRun(s: string, limit: nat): (n: nat)
    ensures n <= |s| && n <= limit && AllDigits(s[..n])
    ensures n < limit && n < |s| ==> !IsDigit(s[n])
  {
    if limit == 0 || s == "" || !IsDigit(s[0]) then 0 else
      var rest := DigitRun(s[1..], limit - 1);
      assert s[..rest + 1] == [s[0]] + s[1..][..rest];
      rest + 1
  }

  lemma DigitRunTake(s: string, limit: nat)
    ensures DigitRun(s[..DigitRun(s, limit)], limit) == DigitRun(s, limit)
  {
    if limit > 0 && s != "" && IsDigit(s[0]) {
      var rest := DigitRun(s[1..], limit - 1);
      assert DigitRun(s, limit) == rest + 1;
      assert s[..rest + 1][1..] == s[1..][..rest];
      DigitRunTake(s[1..], limit - 1);
    }
  }

  lemma {:induction false} DigitRunStops(s: string, t: string, limit: nat)
    requires AllDigits(s) && |s| <= limit && (t != "" ==> !IsDigit(t[0]))
    ensures DigitRun(s + t, limit) == |s|
  {
    if s == "" {
      assert s + t == t;
    } else {
      assert (s + t)[1..] == s[1..] + t;
      DigitRunStops(s[1..], t, limit - 1);
    }
  }
}
