/** Unsigned decimal numbers as printf writes them. */
module Decimal {

  function Digit(d: nat): (c: char)
    requires d < 10
    ensures '0' <= c <= '9'
  {
    (d + '0' as int) as char
  }

  function Print(n: nat): (s: string)
    ensures s != "" && forall i :: 0 <= i < |s| ==> '0' <= s[i] <= '9'
  {
    if n < 10 then [Digit(n)] else Print(n / 10) + [Digit(n % 10)]
  }

  function Pow10(k: nat): nat { if k == 0 then 1 else 10 * Pow10(k - 1) }

  lemma {:induction false} Length(n: nat, k: nat)
    requires k >= 1 && n < Pow10(k)
    ensures |Print(n)| <= k
    decreases k
  {
    if n >= 10 {
      Length(n / 10, k - 1);
    }
  }

  lemma {:induction false} Injective(m: nat, n: nat)
    requires Print(m) == Print(n)
    ensures m == n
    decreases m
  {
    var s, t := Print(m), Print(n);
    assert s[|s| - 1] == Digit(m % 10) && t[|t| - 1] == Digit(n % 10);
    if m >= 10 && n >= 10 {
      assert s[..|s| - 1] == Print(m / 10) && t[..|t| - 1] == Print(n / 10);
      Injective(m / 10, n / 10);
    }
  }

  predicate Digits(s: string) { forall i :: 0 <= i < |s| ==> '0' <= s[i] <= '9' }

  /** What a string of digits stands for. */
  function Value(s: string): nat
    requires Digits(s)
  {
    if s == "" then 0 else 10 * Value(s[..|s| - 1]) + (s[|s| - 1] as int - '0' as int)
  }

  lemma {:induction false} ValueOfPrint(n: nat)
    ensures Value(Print(n)) == n
    decreases n
  {
    var s := Print(n);
    assert s[|s| - 1] == Digit(n % 10);
    if n < 10 {
      assert s[..|s| - 1] == "";
    } else {
      assert s[..|s| - 1] == Print(n / 10);
      ValueOfPrint(n / 10);
    }
  }
}
