/** Decimal notation of natural numbers. */
module Decimals {
  predicate IsDigit(c: char) {
    '0' <= c <= '9'
  }

  predicate AllDigits(s: string) {
    forall k :: 0 <= k < |s| ==> IsDigit(s[k])
  }

  function ToDec(n: nat): (s: string)
    ensures s != "" && AllDigits(s) && '+' !in s
  {
    if n < 10 then [(n + 48) as char] else ToDec(n / 10) + [(n % 10 + 48) as char]
  }

  function Value(s: string): nat
    requires AllDigits(s)
  {
    if s == "" then 0 else 10 * Value(s[..|s| - 1]) + (s[|s| - 1] as int - 48)
  }

  lemma DigitsSpelled(c: char)
    ensures IsDigit(c) <==> c in "0123456789"
  {
    var digits := "0123456789";
    if IsDigit(c) {
      assert digits[c as int - 48] == c;
    }
  }

  /** Digit by digit. */
  lemma DecSpelled(q: nat, d: nat)
    requires d < 10
    ensures ToDec(d) == [("0123456789")[d]]
    ensures q > 0 ==> ToDec(10 * q + d) == ToDec(q) + ToDec(d)
  {
  }

  lemma {:induction false} ValueOfDec(n: nat)
    ensures Value(ToDec(n)) == n
  {
    if n >= 10 {
      ValueOfDec(n / 10);
      assert ToDec(n)[..|ToDec(n)| - 1] == ToDec(n / 10);
    } else {
      assert ToDec(n)[..0] == "";
    }
  }

  lemma {:induction false} LeadingZero(s: string)
    requires AllDigits(s)
    ensures AllDigits("0" + s) && Value("0" + s) == Value(s)
    decreases |s|
  {
    var z := "0" + s;
    if s == "" {
      assert z[..|z| - 1] == "";
    } else {
      LeadingZero(s[..|s| - 1]);
      assert z[..|z| - 1] == "0" + s[..|s| - 1];
    }
  }

  /** Different numbers print differently. */
  lemma DecInjective(m: nat, n: nat)
    requires ToDec(m) == ToDec(n)
    ensures m == n
  {
    ValueOfDec(m);
    ValueOfDec(n);
  }
}
