/** Numbers as they are written: decimal digits and nothing else. */
module Decimal {

  predicate Digits(s: string) {
    forall i :: 0 <= i < |s| ==> '0' <= s[i] <= '9'
  }

  function Number(s: string): nat
    requires Digits(s)
  {
    if s == "" then 0 else Number(s[..|s| - 1]) * 10 + (s[|s| - 1] as int - '0' as int)
  }

  function Show(n: nat): (s: string)
    ensures Digits(s) && s != ""
  {
    var digit := [('0' as int + n % 10) as char];
    if n < 10 then digit else Show(n / 10) + digit
  }

  lemma {:induction false} ShowNumber(n: nat)
    ensures Number(Show(n)) == n
  {
    var digit := [('0' as int + n % 10) as char];
    if n < 10 {
      assert digit[..0] == "";
    } else {
      ShowNumber(n / 10);
      assert (Show(n / 10) + digit)[..|Show(n)| - 1] == Show(n / 10);
    }
  }

  /** A numeral without a leading zero is how its number is written. */
  lemma {:induction false} NumberShow(s: string)
    requires s != "" && s[0] != '0' && Digits(s)
    ensures Number(s) > 0 && Show(Number(s)) == s
  {
    var n := |s| - 1;
    if n > 0 {
      NumberShow(s[..n]);
      assert s == s[..n] + [s[n]];
    } else {
      assert s[..0] == "" && s == [s[0]];
    }
  }

  lemma {:induction false} ShowLeads(n: nat)
    requires n > 0
    ensures Show(n)[0] != '0'
  {
    if n >= 10 {
      ShowLeads(n / 10);
    }
  }

  function Pow10(k: nat): nat {
    if k == 0 then 1 else 10 * Pow10(k - 1)
  }

  lemma {:induction false} ShowLength(n: nat, k: nat)
    requires k > 0 && n < Pow10(k)
    ensures |Show(n)| <= k
    decreases k
  {
    if n >= 10 {
      assert Pow10(1) == 10 * Pow10(0);
      ShowLength(n / 10, k - 1);
    }
  }
}
