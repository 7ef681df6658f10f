/**
 * The inline projection told position by position: which stretches of the text
 * are jumped over, and which of the other bytes survive.
 */
module MarkdownRegions {
  import opened Common
  import opened MarkdownTables
  import Utf8

  // ----- Runs and pairs, by their neighbours -----

  /** A backslash ahead hides the byte, unless it is hidden itself. */
  predicate Shielded(text: seq<byte>, p: nat)
    requires p <= |text|
  {
    p > 0 && text[p - 1] == 92 && !Shielded(text, p - 1)
  }

  /** A maximal run of `n` backticks, none of them hidden by a backslash. */
  ghost predicate IsRun(text: seq<byte>, a: nat, n: nat) {
    && 0 < n && a + n <= |text| && (forall k :: a <= k < a + n ==> text[k] == 96)
    && !Shielded(text, a) && (a > 0 && text[a - 1] == 96 ==> Shielded(text, a - 1))
    && (a + n < |text| ==> text[a + n] != 96)
  }

  /** Not inside a run that began earlier, and not behind a backslash. */
  predicate Fresh(text: seq<byte>, i: nat)
    requires i <= |text|
  {
    !Shielded(text, i) && (0 < i < |text| && text[i] == 96 && text[i - 1] == 96 ==> Shielded(text, i - 1))
  }

  lemma AfterRun(text: seq<byte>, i: nat)
    requires i < |text| && text[i] == 96 && Fresh(text, i)
    ensures var end := RunEnd(text, i, TICK);
            && i < end && IsRun(text, i, end - i) && Fresh(text, end)
            && (forall a, n :: i < a < end ==> !IsRun(text, a, n))
  {
    var end := RunEnd(text, i, TICK);
    forall a | i < a <= end ensures text[a - 1] == 96 && !Shielded(text, a) {}
  }

  /** The scan lists exactly the maximal runs. */
  lemma {:induction false} RunsListed(text: seq<byte>, i: nat, a: nat, n: nat)
    requires i >= |text| || Fresh(text, i)
    ensures i <= a && IsRun(text, a, n) <==> TickRun(a, n) in Runs(text, i)
    decreases |text| - i
  {
    if i < |text| {
      if text[i] == BACKSLASH {
        if i + 2 <= |text| { assert Shielded(text, i + 1) && !Shielded(text, i + 2); }
        RunsListed(text, i + 2, a, n);
        assert a == i || a == i + 1 ==> !IsRun(text, a, n);
      } else if text[i] == TICK {
        var end := RunEnd(text, i, TICK);
        AfterRun(text, i);
        RunsListed(text, end, a, n);
        OneRun(text, i, n);
        assert i < a < end ==> !IsRun(text, a, n);
      } else {
        assert !Shielded(text, i + 1);
        RunsListed(text, i + 1, a, n);
      }
    }
  }

  /** A place begins at most one run. */
  lemma OneRun(text: seq<byte>, a: nat, n: nat)
    requires a < |text| && text[a] == 96 && Fresh(text, a)
    ensures IsRun(text, a, n) <==> n == RunEnd(text, a, TICK) - a
  {
    AfterRun(text, a);
  }

  /** The run at `a` and the nearest later one of its length, which ends at `end`. */
  ghost predicate Paired(text: seq<byte>, a: nat, end: nat) {
    exists n :: PairedBy(text, a, n, end)
  }

  ghost predicate PairedBy(text: seq<byte>, a: nat, n: nat, end: nat) {
    && n <= end && a < end - n && IsRun(text, a, n) && IsRun(text, end - n, n)
    && forall c :: a < c < end - n ==> !IsRun(text, c, n)
  }

  // ----- Doubled bytes -----

  /** Where the run of equal bytes around `p` begins. */
  function Leftmost(text: seq<byte>, p: nat): (a: nat)
    requires p < |text|
    ensures a <= p && forall k :: a <= k <= p ==> text[k] == text[p]
    ensures a > 0 ==> text[a - 1] != text[p]
  {
    if p > 0 && text[p - 1] == text[p] then Leftmost(text, p - 1) else p
  }

  predicate Twice(text: seq<byte>, p: nat, b: byte) { p + 1 < |text| && text[p] == b && text[p + 1] == b }

  /** Pairs are counted off from the left end of a run. */
  predicate Counted(text: seq<byte>, p: nat, b: byte) { Twice(text, p, b) && (p - Leftmost(text, p)) % 2 == 0 }

  /** Nothing is pending at `i`: it is not the second byte of a pair. */
  predicate Even(text: seq<byte>, i: nat, b: byte) { i < |text| && text[i] == b ==> (i - Leftmost(text, i)) % 2 == 0 }

  lemma LeftmostSteps(text: seq<byte>, i: nat)
    requires i + 1 < |text|
    ensures Leftmost(text, i + 1) == if text[i] == text[i + 1] then Leftmost(text, i) else i + 1
  {
  }

  lemma PairStep(text: seq<byte>, b: byte, i: nat)
    requires i + 1 < |text| && Even(text, i, b)
    ensures At(text, i, b, b) ==> Even(text, i + 2, b) && Counted(text, i, b) && !Counted(text, i + 1, b)
    ensures !At(text, i, b, b) ==> Even(text, i + 1, b) && !Counted(text, i, b)
  {
    hide Leftmost;
    LeftmostSteps(text, i);
    if i + 2 < |text| { LeftmostSteps(text, i + 1); }
  }

  lemma NextPosition(text: seq<byte>, b: byte, i: nat, p: nat)
    requires i + 1 < |text|
    ensures p in Positions(text, b, b, i) <==>
              if At(text, i, b, b) then p == i || p in Positions(text, b, b, i + 2) else p in Positions(text, b, b, i + 1)
  {
    PositionsFrom(text, b, b, i);
    hide Positions;
  }

  /** The greedy search finds exactly the pairs so counted. */
  lemma {:induction false} PairsFound(text: seq<byte>, b: byte, i: nat, p: nat)
    requires Even(text, i, b)
    ensures p in Positions(text, b, b, i) <==> i <= p && Counted(text, p, b)
    decreases |text| - i
  {
    hide *;
    if i + 1 < |text| {
      PairStep(text, b, i);
      NextPosition(text, b, i, p);
      if At(text, i, b, b) { PairsFound(text, b, i + 2, p); } else { PairsFound(text, b, i + 1, p); }
    } else {
      NoPairLeft(text, b, i, p);
    }
  }

  lemma NoPairLeft(text: seq<byte>, b: byte, i: nat, p: nat)
    requires i + 1 >= |text|
    ensures p !in Positions(text, b, b, i) && !(i <= p && Counted(text, p, b))
  {
    hide Leftmost;
  }

  /** The nearest pair at or after `i`. */
  ghost predicate NearestTwice(text: seq<byte>, b: byte, i: nat, c: nat) {
    i <= c && Twice(text, c, b) && forall d :: i <= d < c ==> !Twice(text, d, b)
  }

  /** Behind a counted pair the nearest pair of bytes is a counted one. */
  lemma NearestIsCounted(text: seq<byte>, b: byte, i: nat, c: nat)
    requires Counted(text, i, b) && NearestTwice(text, b, i + 2, c)
    ensures Counted(text, c, b)
  {
    LeftmostSteps(text, i);
    LeftmostSteps(text, c - 1);
    if c == i + 2 {
      LeftmostSteps(text, i + 1);
    } else {
      assert !Twice(text, c - 1, b);
    }
  }

  // ----- The stretches that are jumped over -----

  /** A hidden spoiler, a code span with its delimiters, or a link's `](...)`. */
  datatype Kind = Hidden | Span | Target

  datatype Region = Region(kind: Kind, start: nat, end: nat)

  predicate Inside(r: Region, p: nat) { r.start <= p < r.end }

  ghost predicate Skipped(rs: seq<Region>, p: nat) { exists r :: r in rs && Inside(r, p) }

  ghost predicate Begins(rs: seq<Region>, kind: Kind, p: nat) { exists r :: r in rs && r.kind == kind && r.start == p }

  /** In order, none empty and none overlapping another. */
  ghost predicate Apart(rs: seq<Region>, n: nat) {
    && (forall k :: 0 <= k < |rs| ==> rs[k].start < rs[k].end <= n)
    && (forall j, k :: 0 <= j < k < |rs| ==> rs[j].end <= rs[k].start)
  }

  // ----- The bytes outside them -----

  predicate Word(b: byte) { 48 <= b <= 57 || 65 <= b <= 90 || 97 <= b <= 122 }

  /** ASCII punctuation is what is printed and is neither a space nor alphanumeric. */
  predicate Mark(b: byte) { 33 <= b <= 126 && !Word(b) }

  predicate White(b: byte) { b in {9, 10, 12, 13, 32} }

  /** A backslash that escapes the punctuation after it. */
  ghost predicate Escapes(text: seq<byte>, rs: seq<Region>, p: nat)
    decreases p
  {
    && p + 1 < |text| && text[p] == 92 && Mark(text[p + 1]) && !Skipped(rs, p)
    && !(p > 0 && Escapes(text, rs, p - 1))
  }

  ghost predicate Escaped(text: seq<byte>, rs: seq<Region>, p: nat) { p > 0 && Escapes(text, rs, p - 1) }

  /** Neither jumped over nor part of an escape. */
  ghost predicate Free(text: seq<byte>, rs: seq<Region>, p: nat) {
    p < |text| && !Skipped(rs, p) && !Escapes(text, rs, p) && !Escaped(text, rs, p)
  }

  /** Where the run of equal free bytes that ends at `p` begins. */
  ghost function RunStart(text: seq<byte>, rs: seq<Region>, p: nat): (a: nat)
    requires p < |text|
    ensures a <= p
  {
    if p > 0 && text[p - 1] == text[p] && Free(text, rs, p - 1) then RunStart(text, rs, p - 1) else p
  }

  /** The trimmed content of a code span. */
  ghost predicate Shows(text: seq<byte>, r: Region, p: nat) {
    exists n :: ShowsBy(text, r, n, p)
  }

  ghost predicate ShowsBy(text: seq<byte>, r: Region, n: nat, p: nat) {
    && PairedBy(text, r.start, n, r.end) && r.start + n <= r.end - n <= |text|
    && var lo := Utf8.TrimStart(text, r.start + n, r.end - n); lo <= p < Utf8.TrimEnd(text, lo, r.end - n)
  }

  /** The underscores from `p` on end at a word. */
  predicate WordEnds(text: seq<byte>, p: nat, e: nat) {
    p < e < |text| && Word(text[e]) && forall k :: p <= k < e ==> text[k] == 95
  }

  /** The asterisks from `p` on end at a blank, or with the text. */
  predicate BlankEnds(text: seq<byte>, p: nat, e: nat) {
    p < e <= |text| && (e == |text| || White(text[e])) && forall k :: p <= k < e ==> text[k] == 42
  }

  /**
   * The byte is copied: the content of a code span; whatever is escaped; no
   * backtick; of doubled pipes and tildes the odd one out; underscores inside a
   * word; asterisks between blanks or the ends; everything else.
   */
  ghost predicate Copied(text: seq<byte>, rs: seq<Region>, p: nat)
    requires p < |text|
  {
    if Skipped(rs, p) then exists r :: r in rs && r.kind == Span && Inside(r, p) && Shows(text, r, p)
    else if Escapes(text, rs, p) then false
    else if Escaped(text, rs, p) then true
    else
      var b, a := text[p], RunStart(text, rs, p);
      if b == 96 then false
      else if b == 124 || b == 126 then (p - a) % 2 == 0 && !(p + 1 < |text| && text[p + 1] == b)
      else if b == 95 then
        a > 0 && Word(text[a - 1]) && exists e :: WordEnds(text, p, e)
      else if b == 42 then
        (a == 0 || White(text[a - 1])) && exists e :: BlankEnds(text, p, e)
      else true
  }

  /** The opening brackets before `i` that no link has closed yet. */
  ghost function Opens(text: seq<byte>, rs: seq<Region>, i: nat): (opens: seq<nat>)
    requires i <= |text|
    ensures forall k :: 0 <= k < |opens| ==> opens[k] < i && text[opens[k]] == 91
  {
    if i == 0 then []
    else
      var before := Opens(text, rs, i - 1);
      if text[i - 1] == 91 && Free(text, rs, i - 1) then before + [i - 1]
      else if Begins(rs, Target, i - 1) && before != [] then before[..|before| - 1]
      else before
  }

  /** The bracket is closed by a link whose target begins before `n`. */
  ghost predicate LinkedBy(text: seq<byte>, rs: seq<Region>, n: nat, p: nat)
    requires n <= |text|
  {
    exists i :: 0 <= i < n && LinkedAt(text, rs, i, p)
  }

  ghost predicate LinkedAt(text: seq<byte>, rs: seq<Region>, i: nat, p: nat)
    requires i <= |text|
  {
    Begins(rs, Target, i) && Opens(text, rs, i) != [] && Opens(text, rs, i)[|Opens(text, rs, i)| - 1] == p
  }

  /** A link loses its opening bracket, and the bang right before it. */
  ghost predicate Dropped(text: seq<byte>, rs: seq<Region>, n: nat, p: nat)
    requires p < |text| && n <= |text|
  {
    LinkedBy(text, rs, n, p) || (text[p] == 33 && LinkedBy(text, rs, n, p + 1))
  }

  ghost predicate Survives(text: seq<byte>, rs: seq<Region>, p: nat)
    requires p < |text|
  {
    Copied(text, rs, p) && !Dropped(text, rs, |text|, p)
  }

  /** A marker where a hidden spoiler begins, and every surviving byte in its place. */
  ghost function Rendered(text: seq<byte>, rs: seq<Region>, n: nat): seq<byte>
    requires n <= |text|
  {
    if n == 0 then []
    else Rendered(text, rs, n - 1)
         + if Begins(rs, Hidden, n - 1) then [91, 83, 112, 111, 105, 108, 101, 114, 93]
           else if Survives(text, rs, n - 1) then [text[n - 1]] else []
  }

  // ----- Which stretches these are -----

  ghost predicate NearestAt(text: seq<byte>, p: byte, q: byte, i: nat, c: nat) {
    i <= c && At(text, c, p, q) && forall d :: i <= d < c ==> !At(text, d, p, q)
  }

  /**
   * What a stretch of each kind is made of: `||` to the next `||`, both counted
   * off in pairs, or `>!` to the next `!<`; a backtick run to the next one of its
   * length; `](` to the next `)` behind an open bracket.
   */
  ghost predicate Fits(text: seq<byte>, rs: seq<Region>, r: Region) {
    && r.start < r.end <= |text|
    && match r.kind
       case Hidden =>
         && r.start + 4 <= r.end
         && if text[r.start] == 124 then
              && Counted(text, r.start, 124) && (r.start - RunStart(text, rs, r.start)) % 2 == 0
              && NearestTwice(text, 124, r.start + 2, r.end - 2)
            else At(text, r.start, 62, 33) && NearestAt(text, 33, 60, r.start + 2, r.end - 2)
       case Span => Paired(text, r.start, r.end)
       case Target =>
         && At(text, r.start, 93, 40) && r.start + 2 < r.end && text[r.end - 1] == 41
         && (forall d :: r.start + 2 <= d < r.end - 1 ==> text[d] != 41)
         && Opens(text, rs, r.start) != []
  }

  /** The stretches fit, none begins on an escaped byte, and no free byte begins one that is missing. */
  ghost predicate Laid(text: seq<byte>, rs: seq<Region>) {
    && Apart(rs, |text|)
    && (forall r :: r in rs ==> Fits(text, rs, r) && !Escaped(text, rs, r.start))
    && (forall r: Region :: Free(text, rs, r.start) ==> !Fits(text, rs, r))
  }
}
