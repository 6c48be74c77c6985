/** Decimal numbers as text. */
module Decimals {
  import opened Octets

  predicate AllDigits(s: Text) {
    forall i :: 0 <= i < |s| ==> '0' <= s[i] <= '9'
  }

  function DecimalValue(s: Text): (n: int)
    requires AllDigits(s)
    ensures n >= 0
  {
    if s == [] then 0 else DecimalValue(s[..|s| - 1]) * 10 + (s[|s| - 1] as int - '0' as int)
  }

  function Decimal(n: nat): (s: Text)
    ensures s != [] && AllDigits(s)
  {
    if n < 10 then [('0' as int + n) as char] else Decimal(n / 10) + [('0' as int + n % 10) as char]
  }

  lemma {:induction false} DecimalReturns(n: nat)
    ensures DecimalValue(Decimal(n)) == n
  {
    if n >= 10 {
      DecimalReturns(n / 10);
      assert Decimal(n)[..|Decimal(n)| - 1] == Decimal(n / 10);
    } else {
      assert Decimal(n)[..0] == [];
    }
  }

  function Pow10(k: nat): nat {
    if k == 0 then 1 else 10 * Pow10(k - 1)
  }

  lemma TenTimes(x: int, k: nat)
    ensures x * Pow10(k + 1) == x * Pow10(k) * 10
  {
  }

  /** The first digit counts most. */
  lemma {:induction false} FirstDigit(d: Octet, t: Text)
    requires '0' <= d <= '9' && AllDigits(t)
    ensures AllDigits([d] + t) && DecimalValue([d] + t) == (d as int - '0' as int) * Pow10(|t|) + DecimalValue(t)
  {
    var s := [d] + t;
    if t == [] {
      assert s[..0] == [];
    } else {
      FirstDigit(d, t[..|t| - 1]);
      TenTimes(d as int - '0' as int, |t| - 1);
      assert s[..|s| - 1] == [d] + t[..|t| - 1] && s[|s| - 1] == t[|t| - 1];
      assert |t[..|t| - 1]| == |t| - 1;
    }
  }
}
