/** Canonical decimal tokens: how unsigned integers cross the JavaScript boundary. */
module Decimal {

  function Digit(n: nat): char
    requires n < 10
  {
    ['0', '1', '2', '3', '4', '5', '6', '7', '8', '9'][n]
  }

  /** Rust's `to_string` on unsigned integers. */
  function ToString(n: nat): (s: string)
    ensures s != []
  {
    if n < 10 then [Digit(n)] else ToString(n / 10) + [Digit(n % 10)]
  }

  function ValueOf(s: string): int {
    if s == [] then 0 else 10 * ValueOf(s[..|s| - 1]) + (s[|s| - 1] as int - '0' as int)
  }

  lemma DigitValue(n: nat)
    requires n < 10
    ensures Digit(n) as int - '0' as int == n
  {
  }

  lemma {:induction false} ValueOfToString(n: nat)
    ensures ValueOf(ToString(n)) == n
  {
    if n < 10 {
      DigitValue(n);
      assert [Digit(n)][..0] == [];
    } else {
      ValueOfToString(n / 10);
      DigitValue(n % 10);
      assert ToString(n)[..|ToString(n)| - 1] == ToString(n / 10);
    }
  }

  /** Two numbers with the same token are equal. */
  lemma ToStringInjective(a: nat, b: nat)
    requires ToString(a) == ToString(b)
    ensures a == b
  {
    ValueOfToString(a);
    ValueOfToString(b);
  }

  /** Decimal digits without a leading zero. */
  ghost predicate Canonical(s: string) {
    s != [] && (forall c :: c in s ==> '0' <= c <= '9') && (|s| > 1 ==> s[0] != '0')
  }

  /** The token of a number is the one canonical numeral with its value. */
  lemma {:induction false} TokenIff(s: string, n: nat)
    ensures s == ToString(n) <==> Canonical(s) && ValueOf(s) == n
    decreases |s|
  {
    hide *;
    ValueOfToString(n);
    TokenIsCanonical(n);
    if Canonical(s) && ValueOf(s) == n {
      SplitNumeral(s);
      if |s| == 1 {
        OneDigit(s);
      } else {
        var front := s[..|s| - 1];
        CanonicalIsPositive(front);
        TokenIff(front, ValueOf(front));
        LongToken(s);
      }
    }
  }

  /** All but the last digit of a longer numeral is a numeral again. */
  lemma SplitNumeral(s: string)
    requires Canonical(s)
    ensures s != [] && (|s| > 1 ==> Canonical(s[..|s| - 1]) && s[..|s| - 1][0] != '0')
  {
    if |s| > 1 {
      var front := s[..|s| - 1];
      assert s == front + [s[|s| - 1]] && front[0] == s[0];
      forall c | c in front ensures '0' <= c <= '9' { assert c in s; }
    }
  }

  lemma OneDigit(s: string)
    requires |s| == 1 && Canonical(s)
    ensures ValueOf(s) >= 0 && ToString(ValueOf(s)) == s
  {
    assert s[0] in s && s[..0] == [];
    CanonicalDigit(s[0]);
  }

  lemma LongToken(s: string)
    requires Canonical(s) && |s| > 1
    requires var high := ValueOf(s[..|s| - 1]); high > 0 && ToString(high) == s[..|s| - 1]
    ensures ValueOf(s) >= 0 && ToString(ValueOf(s)) == s
  {
    hide ToString, ValueOf;
    var front, c := s[..|s| - 1], s[|s| - 1];
    assert c in s;
    LastDigit(front, c);
    assert s == front + [c];
  }

  lemma LastDigit(front: string, c: char)
    requires '0' <= c <= '9' && ValueOf(front) > 0 && ToString(ValueOf(front)) == front
    ensures ValueOf(front + [c]) >= 0 && ToString(ValueOf(front + [c])) == front + [c]
  {
    CanonicalDigit(c);
    var s := front + [c];
    assert s[..|s| - 1] == front;
    assert ValueOf(s) / 10 == ValueOf(front) && ValueOf(s) % 10 == c as int - '0' as int;
  }

  lemma CanonicalDigit(c: char)
    requires '0' <= c <= '9'
    ensures Digit(c as int - '0' as int) == c
  {
  }

  lemma {:induction false} TokenIsCanonical(n: nat)
    ensures Canonical(ToString(n)) && (n > 0 ==> ToString(n)[0] != '0')
  {
    if n >= 10 { TokenIsCanonical(n / 10); }
  }

  lemma {:induction false} CanonicalIsPositive(s: string)
    requires Canonical(s)
    ensures ValueOf(s) >= 0 && (s[0] != '0' ==> ValueOf(s) > 0)
  {
    var last := |s| - 1;
    assert s[last] in s;
    if last == 0 {
      assert s[..0] == [];
    } else {
      assert forall c :: c in s[..last] ==> c in s;
      CanonicalIsPositive(s[..last]);
    }
  }
}
