/** Strings cut at a slash, and decimal numbers. */
module Strings {
  /** The first slash from `i` on, or the end. */
  function Slash(s: string, i: nat): (k: nat)
    requires i <= |s|
    ensures i <= k <= |s| && (k < |s| ==> s[k] == '/') && forall j :: i <= j < k ==> s[j] != '/'
    decreases |s| - i
  {
    if i == |s| || s[i] == '/' then i else Slash(s, i + 1)
  }

  function Digit(d: nat): char
    requires d < 10
  {
    '0' + d as char
  }

  function Itoa(n: nat): (s: string)
    ensures |s| > 0
  {
    if n < 10 then [Digit(n)] else Itoa(n / 10) + [Digit(n % 10)]
  }

  lemma DigitInjective(a: nat, b: nat)
    requires a < 10 && b < 10 && Digit(a) == Digit(b)
    ensures a == b
  {
    assert Digit(a) as int == '0' as int + a && Digit(b) as int == '0' as int + b;
  }

  lemma {:induction false} ItoaInjective(a: nat, b: nat)
    ensures Itoa(a) == Itoa(b) ==> a == b
  {
    if Itoa(a) == Itoa(b) {
      assert Itoa(a)[|Itoa(a)| - 1] == Digit(a % 10) && Itoa(b)[|Itoa(b)| - 1] == Digit(b % 10);
      DigitInjective(a % 10, b % 10);
      if a >= 10 && b >= 10 {
        assert Itoa(a)[..|Itoa(a)| - 1] == Itoa(a / 10) && Itoa(b)[..|Itoa(b)| - 1] == Itoa(b / 10);
        ItoaInjective(a / 10, b / 10);
      }
    }
  }

  function Pow10(k: nat): nat { if k == 0 then 1 else 10 * Pow10(k - 1) }

  /** A number below 10^k has at most `k` digits, from 10^(k-1) on exactly `k`. */
  lemma {:induction false} ItoaLength(n: nat, k: nat)
    requires k >= 1 && n < Pow10(k)
    ensures |Itoa(n)| <= k && (n >= Pow10(k - 1) && k > 1 ==> |Itoa(n)| == k)
  {
    if n >= 10 {
      assert k > 1;
      ItoaLength(n / 10, k - 1);
    }
  }

  /** The number a string of decimal digits stands for. */
  function Value(s: string): int {
    if s == "" then 0 else 10 * Value(s[..|s| - 1]) + (s[|s| - 1] as int - 48)
  }

  /** The decimal digits of a number, without leading zeros. */
  lemma {:induction false} ItoaIsDecimal(n: nat)
    ensures Value(Itoa(n)) == n && (forall c :: c in Itoa(n) ==> '0' <= c <= '9') && (n > 0 ==> Itoa(n)[0] != '0')
  {
    if n < 10 {
      assert Itoa(n)[..0] == "" && Digit(n) as int == 48 + n;
    } else {
      ItoaIsDecimal(n / 10);
      assert Itoa(n)[..|Itoa(n)| - 1] == Itoa(n / 10) && Digit(n % 10) as int == 48 + n % 10;
    }
  }
}
