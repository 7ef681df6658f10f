/** Byte-level UTF-8 (RFC 3629, section 4) and trimming of Unicode white space. */
module Utf8 {
  import opened Common

  predicate Continuation(b: byte) { 0x80 <= b < 0xC0 }

  /** How many bytes the character starting with `b` takes; 0 when `b` starts none. */
  function Width(b: byte): nat {
    if b < 0x80 then 1
    else if 0xC2 <= b < 0xE0 then 2
    else if 0xE0 <= b < 0xF0 then 3
    else if 0xF0 <= b < 0xF5 then 4
    else 0
  }

  predicate SecondByte(first: byte, second: byte) {
    && Continuation(second)
    && (first == 0xE0 ==> second >= 0xA0) && (first == 0xED ==> second < 0xA0)
    && (first == 0xF0 ==> second >= 0x90) && (first == 0xF4 ==> second < 0x90)
  }

  predicate Character(s: seq<byte>) {
    && s != [] && |s| == Width(s[0])
    && (|s| > 1 ==> SecondByte(s[0], s[1]))
    && (forall k :: 1 <= k < |s| ==> Continuation(s[k]))
  }

  predicate Valid(s: seq<byte>) {
    s == [] || (var w := Width(s[0]); 0 < w <= |s| && Character(s[..w]) && Valid(s[w..]))
  }

  /** A position between two characters, or at either end. */
  predicate Boundary(s: seq<byte>, at: nat) { at == |s| || (at < |s| && !Continuation(s[at])) }

  lemma {:induction false} SplitAt(x: seq<byte>, y: seq<byte>)
    requires Valid(x + y) && (y == [] || !Continuation(y[0]))
    ensures Valid(x) && Valid(y)
    decreases |x|
  {
    var s := x + y;
    if x == [] {
      assert s == y;
    } else {
      var w := Width(s[0]);
      assert forall k :: 1 <= k < w ==> s[..w][k] == s[k] && Continuation(s[k]);
      assert y != [] ==> s[|x|] == y[0];
      assert s[..w] == x[..w] && s[w..] == x[w..] + y;
      SplitAt(x[w..], y);
    }
  }

  /** A valid string is a character and a valid string. */
  lemma FirstCharacter(s: seq<byte>)
    requires Valid(s) && s != []
    ensures var w := Width(s[0]); 0 < w <= |s| && Character(s[..w]) && Valid(s[..w]) && Valid(s[w..]) && Valid([])
  {
    var w := Width(s[0]);
    assert s[..w][..w] == s[..w] && s[..w][w..] == [];
  }

  lemma CharacterJoined(c: seq<byte>, rest: seq<byte>)
    requires Character(c) && Valid(rest)
    ensures Valid(c + rest)
  {
    hide SecondByte, Continuation;
    assert (c + rest)[..|c|] == c && (c + rest)[|c|..] == rest;
  }

  lemma {:induction false} Joined(x: seq<byte>, y: seq<byte>)
    requires Valid(x) && Valid(y)
    ensures Valid(x + y)
    decreases |x|
  {
    hide *;
    if x == [] {
      assert x + y == y;
    } else {
      FirstCharacter(x);
      var w := Width(x[0]);
      Joined(x[w..], y);
      CharacterJoined(x[..w], x[w..] + y);
      assert x + y == x[..w] + (x[w..] + y);
    }
  }

  lemma Slice(s: seq<byte>, lo: nat, hi: nat)
    requires Valid(s) && lo <= hi <= |s| && Boundary(s, lo) && Boundary(s, hi)
    ensures Valid(s[lo..hi])
  {
    hide Valid, Continuation;
    assert s == s[..lo] + s[lo..];
    SplitAt(s[..lo], s[lo..]);
    assert s[lo..] == s[lo..hi] + s[hi..];
    SplitAt(s[lo..hi], s[hi..]);
  }

  /** After a whole character comes another one. */
  lemma AfterFirst(s: seq<byte>, at: nat)
    requires Valid(s) && at < |s| && Boundary(s, at)
    ensures at + Width(s[at]) <= |s| && Boundary(s, at + Width(s[at]))
  {
    var rest := s[at..];
    assert s == s[..at] + rest;
    SplitAt(s[..at], rest);
    var more := rest[Width(rest[0])..];
    if more != [] {
      assert more[0] == s[at + Width(s[at])] && Width(more[0]) > 0;
    }
  }

  lemma AfterAscii(s: seq<byte>, at: nat)
    requires Valid(s) && at < |s| && s[at] < 0x80
    ensures Boundary(s, at) && Boundary(s, at + 1)
  {
    AfterFirst(s, at);
  }

  // ----- Trimming -----

  /** The UTF-8 spelling of a character with the Unicode White_Space property. */
  predicate WhiteSpace(c: seq<byte>) {
    || (|c| == 1 && (9 <= c[0] <= 13 || c[0] == 32))
    || (|c| == 2 && c[0] == 0xC2 && (c[1] == 0x85 || c[1] == 0xA0))
    || (|c| == 3 && c[0] == 0xE1 && c[1] == 0x9A && c[2] == 0x80)
    || (|c| == 3 && c[0] == 0xE2 && c[1] == 0x80 && (0x80 <= c[2] <= 0x8A || c[2] == 0xA8 || c[2] == 0xA9 || c[2] == 0xAF))
    || (|c| == 3 && c[0] == 0xE2 && c[1] == 0x81 && c[2] == 0x9F)
    || (|c| == 3 && c[0] == 0xE3 && c[1] == 0x80 && c[2] == 0x80)
  }

  /** The width of the white-space character at the front of `s[lo..hi]`, or 0. */
  function Leading(s: seq<byte>, lo: nat, hi: nat): (w: nat)
    requires lo <= hi <= |s|
    ensures w <= hi - lo && (w > 0 ==> WhiteSpace(s[lo..lo + w]))
  {
    if lo + 1 <= hi && WhiteSpace(s[lo..lo + 1]) then 1
    else if lo + 2 <= hi && WhiteSpace(s[lo..lo + 2]) then 2
    else if lo + 3 <= hi && WhiteSpace(s[lo..lo + 3]) then 3
    else 0
  }

  /** The width of the white-space character at the back of `s[lo..hi]`, or 0. */
  function Trailing(s: seq<byte>, lo: nat, hi: nat): (w: nat)
    requires lo <= hi <= |s|
    ensures w <= hi - lo && (w > 0 ==> WhiteSpace(s[hi - w..hi]))
  {
    if lo + 1 <= hi && WhiteSpace(s[hi - 1..hi]) then 1
    else if lo + 2 <= hi && WhiteSpace(s[hi - 2..hi]) then 2
    else if lo + 3 <= hi && WhiteSpace(s[hi - 3..hi]) then 3
    else 0
  }

  function TrimStart(s: seq<byte>, lo: nat, hi: nat): (from: nat)
    requires lo <= hi <= |s|
    ensures lo <= from <= hi && Leading(s, from, hi) == 0
    decreases hi - lo
  {
    if Leading(s, lo, hi) == 0 then lo else TrimStart(s, lo + Leading(s, lo, hi), hi)
  }

  function TrimEnd(s: seq<byte>, lo: nat, hi: nat): (to: nat)
    requires lo <= hi <= |s|
    ensures lo <= to <= hi && Trailing(s, lo, to) == 0
    decreases hi - lo
  {
    if Trailing(s, lo, hi) == 0 then hi else TrimEnd(s, lo, hi - Trailing(s, lo, hi))
  }

  lemma {:induction false} TrimStartOnBoundary(s: seq<byte>, lo: nat, hi: nat)
    requires Valid(s) && lo <= hi <= |s| && Boundary(s, lo) && Boundary(s, hi)
    ensures Boundary(s, TrimStart(s, lo, hi))
    decreases hi - lo
  {
    var w := Leading(s, lo, hi);
    if w > 0 {
      var c := s[lo..lo + w];
      assert c[0] == s[lo] && Width(s[lo]) == w;
      AfterFirst(s, lo);
      TrimStartOnBoundary(s, lo + w, hi);
    }
  }

  lemma {:induction false} TrimEndOnBoundary(s: seq<byte>, lo: nat, hi: nat)
    requires lo <= hi <= |s| && Boundary(s, lo) && Boundary(s, hi)
    ensures Boundary(s, TrimEnd(s, lo, hi))
    decreases hi - lo
  {
    var w := Trailing(s, lo, hi);
    if w > 0 {
      assert s[hi - w..hi][0] == s[hi - w];
      TrimEndOnBoundary(s, lo, hi - w);
    }
  }
}
