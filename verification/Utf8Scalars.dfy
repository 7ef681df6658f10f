/** UTF-8 characters and white space by their code points (RFC 3629, section 3). */
module Utf8Scalars {
  import opened Common
  import opened Utf8

  /** Code points other than the surrogates. */
  predicate Scalar(v: nat) { v < 0xD800 || 0xE000 <= v < 0x11_0000 }

  /** The bytes that spell a code point. */
  function Spelling(v: nat): seq<byte>
    requires v < 0x11_0000
  {
    if v < 0x80 then [v]
    else if v < 0x800 then [0xC0 + v / 64, 0x80 + v % 64]
    else if v < 0x1_0000 then [0xE0 + v / 64 / 64, 0x80 + v / 64 % 64, 0x80 + v % 64]
    else [0xF0 + v / 64 / 64 / 64, 0x80 + v / 64 / 64 % 64, 0x80 + v / 64 % 64, 0x80 + v % 64]
  }

  function Low(b: byte): int { b as int - 0x80 }

  /** The code point that a sequence of one to four bytes spells. */
  function Spelled(c: seq<byte>): int {
    if |c| == 1 then c[0]
    else if |c| == 2 then 64 * (c[0] as int - 0xC0) + Low(c[1])
    else if |c| == 3 then 64 * (64 * (c[0] as int - 0xE0) + Low(c[1])) + Low(c[2])
    else if |c| == 4 then 64 * (64 * (64 * (c[0] as int - 0xF0) + Low(c[1])) + Low(c[2])) + Low(c[3])
    else -1
  }

  lemma Digits(v: nat)
    ensures v == 64 * (v / 64) + v % 64
  {
  }

  lemma Joined64(high: nat, low: nat)
    requires low < 64
    ensures (64 * high + low) / 64 == high && (64 * high + low) % 64 == low
  {
  }

  lemma SpellingIsCharacter(v: nat)
    requires Scalar(v)
    ensures Character(Spelling(v)) && Spelled(Spelling(v)) == v
  {
    Digits(v);
    Digits(v / 64);
    Digits(v / 64 / 64);
  }

  lemma ShortIsSpelled(c: seq<byte>)
    requires Character(c) && |c| <= 2
    ensures Spelled(c) >= 0 && Scalar(Spelled(c)) && Spelling(Spelled(c)) == c
  {
    if |c| == 2 { Joined64(c[0] - 0xC0, Low(c[1])); }
  }

  lemma ThreeAreSpelled(c: seq<byte>)
    requires Character(c) && |c| == 3
    ensures Spelled(c) >= 0 && Scalar(Spelled(c)) && Spelling(Spelled(c)) == c
  {
    assert 0 <= Low(c[1]) < 64 && 0 <= Low(c[2]) < 64;
    Joined64(c[0] - 0xE0, Low(c[1]));
    Joined64(64 * (c[0] - 0xE0) + Low(c[1]), Low(c[2]));
  }

  lemma FourAreSpelled(c: seq<byte>)
    requires Character(c) && |c| == 4
    ensures Spelled(c) >= 0 && Scalar(Spelled(c)) && Spelling(Spelled(c)) == c
  {
    assert 0 <= Low(c[1]) < 64 && 0 <= Low(c[2]) < 64 && 0 <= Low(c[3]) < 64;
    Joined64(c[0] - 0xF0, Low(c[1]));
    Joined64(64 * (c[0] - 0xF0) + Low(c[1]), Low(c[2]));
    Joined64(64 * (64 * (c[0] - 0xF0) + Low(c[1])) + Low(c[2]), Low(c[3]));
  }

  lemma CharacterIsSpelled(c: seq<byte>)
    requires Character(c)
    ensures Spelled(c) >= 0 && Scalar(Spelled(c)) && Spelling(Spelled(c)) == c
  {
    assert |c| in {1, 2, 3, 4};
    hide *;
    if |c| == 3 { ThreeAreSpelled(c); } else if |c| == 4 { FourAreSpelled(c); } else { ShortIsSpelled(c); }
  }

  /** A character is the spelling of exactly one scalar value. */
  lemma CharacterIff(c: seq<byte>)
    ensures Character(c) <==> exists v: nat :: Scalar(v) && Spelling(v) == c
  {
    if Character(c) {
      CharacterIsSpelled(c);
    }
    if v: nat :| Scalar(v) && Spelling(v) == c {
      SpellingIsCharacter(v);
    }
  }

  /** Valid UTF-8 is one scalar value's spelling after another. */
  lemma ValidIff(s: seq<byte>)
    ensures Valid(s) <==> s == [] || exists v: nat :: Scalar(v) && Spelling(v) <= s && Valid(s[|Spelling(v)|..])
  {
    hide Valid, Character, Spelling;
    if s == [] {
      NothingIsValid();
    } else if Valid(s) {
      FirstCharacter(s);
      CharacterIff(s[..Width(s[0])]);
    }
    if v: nat :| Scalar(v) && Spelling(v) <= s && Valid(s[|Spelling(v)|..]) {
      CharacterIff(Spelling(v));
      CharacterJoined(Spelling(v), s[|Spelling(v)|..]);
      assert s == Spelling(v) + s[|Spelling(v)|..];
    }
  }

  lemma NothingIsValid()
    ensures Valid([])
  {
  }

  // ----- White space -----

  /** The code points with the Unicode White_Space property. */
  predicate Blank(v: nat) {
    || 9 <= v <= 13 || v == 0x20 || v == 0x85 || v == 0xA0 || v == 0x1680 || 0x2000 <= v <= 0x200A
    || v == 0x2028 || v == 0x2029 || v == 0x202F || v == 0x205F || v == 0x3000
  }

  lemma WhiteSpaceIff(c: seq<byte>)
    ensures WhiteSpace(c) <==> exists v: nat :: Blank(v) && Spelling(v) == c
  {
    if WhiteSpace(c) {
      WhiteSpaceIsBlank(c);
      assert Spelled(c) >= 0;
    }
    if v: nat :| Blank(v) && Spelling(v) == c { BlankIsWhiteSpace(v); }
  }

  lemma WhiteSpaceIsBlank(c: seq<byte>)
    requires WhiteSpace(c)
    ensures Spelled(c) >= 0 && Blank(Spelled(c)) && Spelling(Spelled(c)) == c
  {
    assert Character(c);
    CharacterIsSpelled(c);
    hide Spelling, Character;
  }

  lemma BlankIsWhiteSpace(v: nat)
    requires Blank(v)
    ensures WhiteSpace(Spelling(v))
  {
  }

  // ----- Trimming -----

  /** Nothing but white space. */
  ghost predicate AllWhite(s: seq<byte>) {
    s == [] || exists w :: 0 < w <= |s| && WhiteSpace(s[..w]) && AllWhite(s[w..])
  }

  lemma AllWhiteFront(s: seq<byte>, w: nat)
    requires 0 < w <= |s| && WhiteSpace(s[..w]) && AllWhite(s[w..])
    ensures AllWhite(s)
  {
  }

  lemma NotEmpty(c: seq<byte>)
    requires WhiteSpace(c)
    ensures c != []
  {
  }

  lemma {:induction false} AllWhiteBack(s: seq<byte>, c: seq<byte>)
    requires AllWhite(s) && WhiteSpace(c)
    ensures AllWhite(s + c)
    decreases |s|
  {
    hide WhiteSpace;
    if s == [] {
      assert |c| > 0 by { NotEmpty(c); }
      assert s + c == c && c[..|c|] == c && c[|c|..] == [];
      AllWhiteFront(s + c, |c|);
    } else {
      var w :| 0 < w <= |s| && WhiteSpace(s[..w]) && AllWhite(s[w..]);
      AllWhiteBack(s[w..], c);
      assert (s + c)[..w] == s[..w] && (s + c)[w..] == s[w..] + c;
      AllWhiteFront(s + c, w);
    }
  }

  /** No white space in front, and none at the back. */
  ghost predicate Fronted(s: seq<byte>, lo: nat, hi: nat)
    requires lo <= hi <= |s|
  {
    forall e :: lo < e <= hi ==> !WhiteSpace(s[lo..e])
  }

  ghost predicate Backed(s: seq<byte>, lo: nat, hi: nat)
    requires lo <= hi <= |s|
  {
    forall b :: lo <= b < hi ==> !WhiteSpace(s[b..hi])
  }

  /** What is trimmed in front is white space, all that there is. */
  lemma {:induction false} TrimStartIs(s: seq<byte>, lo: nat, hi: nat)
    requires lo <= hi <= |s|
    ensures var from := TrimStart(s, lo, hi); AllWhite(s[lo..from]) && Fronted(s, from, hi)
    decreases hi - lo
  {
    hide WhiteSpace, Fronted, AllWhite;
    var w := Leading(s, lo, hi);
    if w > 0 {
      TrimStartIs(s, lo + w, hi);
      var from := TrimStart(s, lo, hi);
      assert s[lo..from][..w] == s[lo..lo + w] && s[lo..from][w..] == s[lo + w..from];
      AllWhiteFront(s[lo..from], w);
    } else {
      NoneLeading(s, lo, hi);
      NoneIsWhite();
      assert s[lo..lo] == [];
    }
  }

  lemma NoneIsWhite()
    ensures AllWhite([])
  {
  }

  lemma NoneLeading(s: seq<byte>, lo: nat, hi: nat)
    requires lo <= hi <= |s|
    ensures Leading(s, lo, hi) == 0 <==> Fronted(s, lo, hi)
  {
    forall e | lo < e <= hi && WhiteSpace(s[lo..e]) ensures e <= lo + 3 {}
    hide WhiteSpace;
  }

  /** What is trimmed at the back is white space, all that there is. */
  lemma {:induction false} TrimEndIs(s: seq<byte>, lo: nat, hi: nat)
    requires lo <= hi <= |s|
    ensures var to := TrimEnd(s, lo, hi); AllWhite(s[to..hi]) && Backed(s, lo, to)
    decreases hi - lo
  {
    hide WhiteSpace, Backed, AllWhite;
    var w := Trailing(s, lo, hi);
    if w > 0 {
      TrimEndIs(s, lo, hi - w);
      var to := TrimEnd(s, lo, hi);
      assert s[to..hi] == s[to..hi - w] + s[hi - w..hi];
      AllWhiteBack(s[to..hi - w], s[hi - w..hi]);
    } else {
      NoneTrailing(s, lo, hi);
      NoneIsWhite();
      assert s[hi..hi] == [];
    }
  }

  lemma NoneTrailing(s: seq<byte>, lo: nat, hi: nat)
    requires lo <= hi <= |s|
    ensures Trailing(s, lo, hi) == 0 <==> Backed(s, lo, hi)
  {
    forall b | lo <= b < hi && WhiteSpace(s[b..hi]) ensures hi <= b + 3 {}
    hide WhiteSpace;
  }
}
