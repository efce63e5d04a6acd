/** Decimal notation inside composite keys and names. */
module Decimals {
  function Digits(n: nat): string {
    if n < 10 then [('0' as int + n) as char] else Digits(n / 10) + [('0' as int + n % 10) as char]
  }

  function Decimal(n: int): string {
    if n < 0 then "-" + Digits(-n) else Digits(n)
  }

  predicate NoColon(s: string) {
    forall i :: 0 <= i < |s| ==> s[i] != ':'
  }

  lemma {:induction false} DigitsHaveNoColon(n: nat)
    ensures NoColon(Digits(n)) && |Digits(n)| > 0 && Digits(n)[0] != '-'
  {
    if n >= 10 {
      DigitsHaveNoColon(n / 10);
    }
  }

  lemma {:induction false} DigitsInjective(m: nat, n: nat)
    requires Digits(m) == Digits(n)
    ensures m == n
  {
    if m >= 10 {
      DigitsHaveNoColon(m / 10);
    }
    if n >= 10 {
      DigitsHaveNoColon(n / 10);
    }
    var a, b := Digits(m), Digits(n);
    assert a[|a| - 1] == b[|b| - 1] && a[..|a| - 1] == b[..|b| - 1];
    if m >= 10 && n >= 10 {
      DigitsLast(m);
      DigitsLast(n);
      DigitsInjective(m / 10, n / 10);
    }
  }

  lemma DigitsLast(n: nat)
    requires n >= 10
    ensures |Digits(n)| > 0 && Digits(n)[..|Digits(n)| - 1] == Digits(n / 10)
    ensures Digits(n)[|Digits(n)| - 1] == ('0' as int + n % 10) as char
  {
  }

  lemma DecimalInjective(a: int, b: int)
    requires Decimal(a) == Decimal(b)
    ensures a == b
  {
    hide Digits;
    var m, n := if a < 0 then -a else a, if b < 0 then -b else b;
    DigitsHaveNoColon(m);
    DigitsHaveNoColon(n);
    assert Decimal(a)[0] == Decimal(b)[0];
    if a < 0 {
      assert Decimal(a)[1..] == Digits(m) && Decimal(b)[1..] == Digits(n);
    }
    DigitsInjective(m, n);
  }

  lemma DecimalHasNoColon(a: int)
    ensures NoColon(Decimal(a))
  {
    hide Digits;
    DigitsHaveNoColon(if a < 0 then -a else a);
  }

  /** A colon-free prefix is determined by the string it starts. */
  lemma PrefixDetermined(a: string, b: string, x: string, y: string)
    requires NoColon(a) && NoColon(b) && a + ":" + x == b + ":" + y
    ensures a == b && x == y
  {
    var s, t := a + ":" + x, b + ":" + y;
    assert s[|a|] == ':' && t[|b|] == ':';
    assert (forall i :: 0 <= i < |a| ==> s[i] == a[i]) && (forall i :: 0 <= i < |b| ==> t[i] == b[i]);
    assert |a| == |b|;
    assert s[..|a|] == a && t[..|b|] == b;
    assert s[|a| + 1..] == x && t[|b| + 1..] == y;
  }

  /** The number a string of digits spells. */
  function Spelled(s: string): nat
    requires forall i :: 0 <= i < |s| ==> '0' <= s[i] <= '9'
  {
    if s == "" then 0 else 10 * Spelled(s[..|s| - 1]) + (s[|s| - 1] as int - '0' as int)
  }

  /** Decimal notation: digits only, no leading zero, and they spell the number. */
  lemma {:induction false} DigitsSpell(n: nat)
    ensures Digits(n) != "" && forall i :: 0 <= i < |Digits(n)| ==> '0' <= Digits(n)[i] <= '9'
    ensures Spelled(Digits(n)) == n
    ensures n > 0 ==> Digits(n)[0] != '0'
  {
    if n >= 10 {
      DigitsSpell(n / 10);
      DigitsLast(n);
    }
  }
}
