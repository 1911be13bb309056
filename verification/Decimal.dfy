/** Decimal notation of natural numbers, without leading zeros. */
module Decimal {
  function Digit(d: nat): (c: char)
    requires d < 10
    ensures '0' <= c <= '9'
  {
    '0' + d as char
  }

  function Value(c: char): nat {
    if '0' <= c <= '9' then (c - '0') as nat else 0
  }

  /** str(n) */
  function Print(n: nat): (s: string)
    ensures |s| > 0
  {
    if n < 10 then [Digit(n)] else Print(n / 10) + [Digit(n % 10)]
  }

  /** int(s) on a string of digits. */
  function Parse(s: string): nat {
    if s == "" then 0 else 10 * Parse(s[..|s| - 1]) + Value(s[|s| - 1])
  }

  function Pow10(k: nat): (p: nat)
    ensures p > 0
  {
    if k == 0 then 1 else 10 * Pow10(k - 1)
  }

  /** 0|[1-9][0-9]* */
  predicate IsCanonical(s: string) {
    && |s| > 0 && (forall i | 0 <= i < |s| :: '0' <= s[i] <= '9')
    && (s == "0" || s[0] != '0')
  }

  lemma {:induction false} ParsePrint(n: nat)
    ensures Parse(Print(n)) == n
    ensures IsCanonical(Print(n))
    ensures n > 0 ==> Print(n)[0] != '0'
  {
    if n < 10 {
      assert Print(n)[..0] == "";
    } else {
      ParsePrint(n / 10);
      assert Print(n)[..|Print(n)| - 1] == Print(n / 10);
    }
  }

  /** A canonical numeral is the one that is printed for its value. */
  lemma {:induction false} PrintParse(s: string)
    requires IsCanonical(s)
    ensures Print(Parse(s)) == s
    ensures s[0] != '0' ==> Parse(s) > 0
    decreases |s|
  {
    var front, last := s[..|s| - 1], s[|s| - 1];
    assert s == front + [last];
    assert Digit(Value(last)) == last;
    assert Parse(s) == 10 * Parse(front) + Value(last);
    if |s| == 1 {
      assert Parse(front) == 0;
      assert s == [last];
    } else {
      assert s[0] == front[0] && s[0] != '0' && IsCanonical(front);
      PrintParse(front);
      PrintStep(Parse(front), Value(last));
    }
  }

  lemma PrintStep(n: nat, d: nat)
    requires n > 0 && d < 10
    ensures Print(10 * n + d) == Print(n) + [Digit(d)]
  {
    assert (10 * n + d) / 10 == n && (10 * n + d) % 10 == d;
  }

  /** At most k digits are needed exactly below 10^k. */
  lemma {:induction false} PrintLength(n: nat, k: nat)
    requires k > 0
    ensures |Print(n)| <= k <==> n < Pow10(k)
  {
    assert Pow10(k) == 10 * Pow10(k - 1);
    if n >= 10 && k > 1 {
      PrintLength(n / 10, k - 1);
    }
  }

  lemma PrintInjective(m: nat, n: nat)
    requires Print(m) == Print(n)
    ensures m == n
  {
    ParsePrint(m);
    ParsePrint(n);
  }
}
