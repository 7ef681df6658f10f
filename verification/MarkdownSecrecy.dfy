/** What a spoiler hides stays hidden: the projection does not depend on it. */
module MarkdownSecrecy {
  import opened Common
  import opened MarkdownTables
  import opened Markdown
  import opened MarkdownProvenance
  import Utf8

  /** A byte that opens, closes or escapes nothing that reaches across a spoiler. */
  predicate Harmless(b: byte) { b !in {BACKSLASH, TICK, CLOSE_PAREN, PIPE, BANG, LESS} }

  /** Only harmless bytes are changed, into harmless ones. */
  ghost predicate Alike(x: seq<byte>, y: seq<byte>) {
    |x| == |y| && forall k :: 0 <= k < |x| ==> x[k] == y[k] || (Harmless(x[k]) && Harmless(y[k]))
  }

  /** The two texts agree on the bytes from `lo` up to `hi`, as far as there are any. */
  ghost predicate Agree(x: seq<byte>, y: seq<byte>, lo: int, hi: int) {
    |x| == |y| && forall k :: lo <= k < hi && 0 <= k < |x| ==> x[k] == y[k]
  }

  // ----- The tables -----

  lemma {:induction false} SameEnd(x: seq<byte>, y: seq<byte>, i: nat, b: byte)
    requires |x| == |y| && i <= |x| && Agree(x, y, i, RunEnd(x, i, b) + 1)
    ensures RunEnd(x, i, b) == RunEnd(y, i, b)
    decreases |x| - i
  {
    if i < |x| && x[i] == b { SameEnd(x, y, i + 1, b); }
  }

  lemma {:induction false} SameTicks(x: seq<byte>, y: seq<byte>, i: nat)
    requires Alike(x, y) && i <= |x|
    ensures RunEnd(x, i, TICK) == RunEnd(y, i, TICK)
    decreases |x| - i
  {
    if i < |x| && x[i] == TICK { SameTicks(x, y, i + 1); }
  }

  lemma {:induction false} SameRuns(x: seq<byte>, y: seq<byte>, i: nat)
    requires Alike(x, y)
    ensures Runs(x, i) == Runs(y, i)
    decreases |x| - i
  {
    if i < |x| {
      if x[i] == BACKSLASH {
        SameRuns(x, y, i + 2);
      } else if x[i] == TICK {
        SameTicks(x, y, i);
        SameRuns(x, y, RunEnd(x, i, TICK));
      } else {
        SameRuns(x, y, i + 1);
      }
    }
  }

  lemma {:induction false} SameParen(x: seq<byte>, y: seq<byte>, j: nat)
    requires Alike(x, y)
    ensures NextParen(x, j) == NextParen(y, j)
    decreases |x| - j
  {
    if j < |x| && x[j] != CLOSE_PAREN { SameParen(x, y, j + 1); }
  }

  lemma {:induction false} SamePositions(x: seq<byte>, y: seq<byte>, p: byte, q: byte, i: nat)
    requires Alike(x, y) && !Harmless(p) && !Harmless(q)
    ensures Positions(x, p, q, i) == Positions(y, p, q, i)
    decreases |x| - i
  {
    if i + 1 < |x| {
      if At(x, i, p, q) { SamePositions(x, y, p, q, i + 2); } else { SamePositions(x, y, p, q, i + 1); }
    }
  }

  // ----- Trimming -----

  lemma SameLeading(x: seq<byte>, y: seq<byte>, lo: nat, hi: nat)
    requires lo <= hi <= |x| && Agree(x, y, lo, hi)
    ensures Utf8.Leading(x, lo, hi) == Utf8.Leading(y, lo, hi)
  {
    hide Utf8.WhiteSpace;
    forall n | lo <= n <= hi ensures x[lo..n] == y[lo..n] {}
  }

  lemma SameTrailing(x: seq<byte>, y: seq<byte>, lo: nat, hi: nat)
    requires lo <= hi <= |x| && Agree(x, y, lo, hi)
    ensures Utf8.Trailing(x, lo, hi) == Utf8.Trailing(y, lo, hi)
  {
    hide Utf8.WhiteSpace;
    forall n | lo <= n <= hi ensures x[n..hi] == y[n..hi] {}
  }

  lemma {:induction false} SameTrimStart(x: seq<byte>, y: seq<byte>, lo: nat, hi: nat)
    requires lo <= hi <= |x| && Agree(x, y, lo, hi)
    ensures Utf8.TrimStart(x, lo, hi) == Utf8.TrimStart(y, lo, hi)
    decreases hi - lo
  {
    hide Utf8.Leading;
    SameLeading(x, y, lo, hi);
    var w := Utf8.Leading(x, lo, hi);
    if w > 0 { SameTrimStart(x, y, lo + w, hi); }
  }

  lemma {:induction false} SameTrimEnd(x: seq<byte>, y: seq<byte>, lo: nat, hi: nat)
    requires lo <= hi <= |x| && Agree(x, y, lo, hi)
    ensures Utf8.TrimEnd(x, lo, hi) == Utf8.TrimEnd(y, lo, hi)
    decreases hi - lo
  {
    hide Utf8.Trailing;
    SameTrailing(x, y, lo, hi);
    var w := Utf8.Trailing(x, lo, hi);
    if w > 0 { SameTrimEnd(x, y, lo, hi - w); }
  }

  // ----- One step -----

  /** The bytes a step reads besides the tables: its neighbours, and what it passes unless it hides that. */
  ghost predicate AgreeAround(x: seq<byte>, y: seq<byte>, at: nat, m: Move) {
    Agree(x, y, at - 1, at + 2) && (m.Hide? || Agree(x, y, at - 1, Landing(at, m) + 1))
  }

  lemma SameInside(x: seq<byte>, y: seq<byte>, i: nat, end: nat, len: nat)
    requires Agree(x, y, i, end + len) && i + len <= end <= |x|
    ensures end <= |y| && SpanMove(x, i, end, len) == SpanMove(y, i, end, len)
  {
    hide Utf8.TrimStart, Utf8.TrimEnd, Utf8.Leading, Utf8.Trailing;
    SameTrimStart(x, y, i + len, end);
    SameTrimEnd(x, y, Utf8.TrimStart(x, i + len, end), end);
  }

  lemma SameClosed(x: seq<byte>, y: seq<byte>, i: nat, k: nat, e: nat)
    requires i < |x| == |y| && x[i] == TICK && y[i] == TICK && Closes(x, i, k, e) && Closes(y, i, k, e)
    requires Runs(x, 0) == Runs(y, 0) && Agree(x, y, i, CodeMove(x, i).next)
    ensures CodeMove(x, i) == CodeMove(y, i)
  {
    CodeIs(x, i, k, e);
    CodeIs(y, i, k, e);
    hide Agree, Runs, Closes, CodeMove, Utf8.TrimStart, Utf8.TrimEnd;
    SameInside(x, y, i, Runs(x, 0)[e].start, Runs(x, 0)[k].len);
  }

  lemma SameCode(x: seq<byte>, y: seq<byte>, i: nat)
    requires Alike(x, y) && i < |x| == |y| && x[i] == TICK && y[i] == TICK
    requires Agree(x, y, i, CodeMove(x, i).next)
    ensures CodeMove(x, i) == CodeMove(y, i)
  {
    SameRuns(x, y, 0);
    var runs := Runs(x, 0);
    var k := FirstFrom(Starts(runs), i, 0);
    hide Alike, Agree, Runs, Utf8.TrimStart, Utf8.TrimEnd, Utf8.Leading, Utf8.Trailing, NextOfLength, FirstFrom;
    if k < |runs| && runs[k].start == i {
      NearestOfLength(runs, k + 1, runs[k].len);
      var close := NextOfLength(runs, k + 1, runs[k].len);
      if close.Some? {
        hide CodeMove;
        SameClosed(x, y, i, k, close.value);
      }
    }
  }

  lemma SameSpoilers(x: seq<byte>, y: seq<byte>, i: nat)
    requires Alike(x, y)
    ensures PipeMove(x, i) == PipeMove(y, i) && AngleMove(x, i) == AngleMove(y, i)
  {
    SamePositions(x, y, PIPE, PIPE, 0);
    SamePositions(x, y, BANG, LESS, 0);
  }

  lemma SameEmphasis(x: seq<byte>, y: seq<byte>, i: nat)
    requires i < |x| && x[i] != PIPE && Agree(x, y, i - 1, EmphasisMove(x, i).next + 1)
    ensures EmphasisMove(x, i) == EmphasisMove(y, i)
  {
    SameEnd(x, y, i, x[i]);
  }

  lemma AgreeNear(x: seq<byte>, y: seq<byte>, at: nat, m: Move)
    requires AgreeAround(x, y, at, m) && at < |x|
    ensures |x| == |y| && x[at] == y[at] && (at > 0 ==> x[at - 1] == y[at - 1]) && (at + 1 < |x| ==> x[at + 1] == y[at + 1])
    ensures !m.Hide? ==> Agree(x, y, at - 1, Landing(at, m) + 1) && Agree(x, y, at, Landing(at, m))
  {
  }

  lemma CodeCopies(text: seq<byte>, i: nat)
    requires i < |text|
    ensures (text[i] == TICK ==> CodeMove(text, i).Copy?) && EmphasisMove(text, i).Copy?
  {
    hide Runs, NextOfLength, FirstFrom, Literal, Utf8.TrimStart, Utf8.TrimEnd;
  }

  lemma DecidesSame(x: seq<byte>, y: seq<byte>, s: Scan)
    requires Alike(x, y) && s.at < |x| && AgreeAround(x, y, s.at, Decide(x, s))
    ensures Decide(x, s) == Decide(y, s)
  {
    hide Alike, AgreeAround, Agree, CodeMove, PipeMove, AngleMove, EmphasisMove, NextParen;
    var i := s.at;
    DecidesInBounds(x, s);
    AgreeNear(x, y, i, Decide(x, s));
    SameSpoilers(x, y, i);
    SameParen(x, y, i + 2);
    CodeCopies(x, i);
    if x[i] == TICK {
      SameCode(x, y, i);
    } else if x[i] == STAR || x[i] == UNDERSCORE {
      SameEmphasis(x, y, i);
    }
  }

  lemma StepsSame(x: seq<byte>, y: seq<byte>, s: Scan)
    requires Alike(x, y) && s.at < |x| && AgreeAround(x, y, s.at, Decide(x, s))
    ensures Step(x, s) == Step(y, s)
  {
    DecidesSame(x, y, s);
    DecidesInBounds(x, s);
    var m := Decide(x, s);
    hide Decide, Alike;
    if m.Copy? { assert x[m.lo..m.hi] == y[m.lo..m.hi]; }
  }

  // ----- The whole scan -----

  /** Position `k` lies strictly inside a hidden span: between its two marks. */
  predicate Between(span: (nat, nat), k: int) { span.0 + 2 <= k < span.1 - 2 }

  ghost predicate Secret(hidden: seq<(nat, nat)>, k: nat) {
    exists h :: 0 <= h < |hidden| && Between(hidden[h], k)
  }

  /** The texts differ only by harmless bytes inside the spoilers that the scanner hides in the first. */
  ghost predicate Redacts(x: seq<byte>, y: seq<byte>) {
    && Alike(x, y)
    && forall k :: 0 <= k < |x| && x[k] != y[k] ==> Secret(Finish(x, START).hidden, k)
  }

  /** Every span the scan lists is behind it, hidden by this very step, or still ahead of it. */
  lemma SpanIsApart(text: seq<byte>, s: Scan, h: nat)
    requires s.at < |text| && Concealed(text, s.hidden, s.at) && h < |Finish(text, s).hidden|
    ensures var span := Finish(text, s).hidden[h];
            span.1 <= s.at || Hides(text, s, span) || Step(text, s).at <= span.0
  {
    HiddenGrows(text, s);
    if h < |s.hidden| {
      assert Finish(text, s).hidden[h] == s.hidden[h];
    } else if h < |Step(text, s).hidden| {
      ListedNow(text, s, h);
    } else {
      hide Step, Decide;
      var n := EveryListedIsDecided(text, Step(text, s), h);
      AfterFinishes(text, Step(text, s), n);
    }
  }

  lemma SecretIsApart(text: seq<byte>, s: Scan, k: nat)
    requires s.at < |text| && Concealed(text, s.hidden, s.at) && Secret(Finish(text, s).hidden, k)
    ensures k < s.at - 1 || s.at + 2 <= k
    ensures Decide(text, s).Hide? || k < s.at - 1 || Step(text, s).at < k
  {
    var h :| 0 <= h < |Finish(text, s).hidden| && Between(Finish(text, s).hidden[h], k);
    SpanIsApart(text, s, h);
    hide Step, Decide, Finish;
    assert s.at < Step(text, s).at;
  }

  lemma LandsAt(text: seq<byte>, s: Scan)
    requires s.at < |text|
    ensures Step(text, s).at == Landing(s.at, Decide(text, s))
  {
    DecidesInBounds(text, s);
    hide Decide;
  }

  lemma RedactedAgree(x: seq<byte>, y: seq<byte>, s: Scan)
    requires Redacts(x, y) && s.at < |x| && Concealed(x, s.hidden, s.at) && Finish(x, s) == Finish(x, START)
    ensures AgreeAround(x, y, s.at, Decide(x, s))
  {
    LandsAt(x, s);
    hide Step, Decide, Finish, Secret, Concealed, Landing;
    forall k | 0 <= k < |x| && x[k] != y[k]
      ensures k < s.at - 1 || s.at + 2 <= k
      ensures Decide(x, s).Hide? || k < s.at - 1 || Step(x, s).at < k
    {
      SecretIsApart(x, s, k);
    }
  }

  lemma {:induction false} FinishesSame(x: seq<byte>, y: seq<byte>, s: Scan)
    requires Redacts(x, y) && Traced(x, s) && Finish(x, s) == Finish(x, START)
    ensures Finish(x, s) == Finish(y, s)
    decreases |x| - s.at
  {
    if s.at < |x| {
      RedactedAgree(x, y, s);
      StepsSame(x, y, s);
      StepTraces(x, s);
      hide Step, Decide, Traced;
      FinishesSame(x, y, Step(x, s));
    }
  }

  /** Whatever a spoiler says, the projection is the same: it cannot be learnt from the plain text. */
  lemma SpoilersStaySecret(x: seq<byte>, y: seq<byte>)
    requires Redacts(x, y)
    ensures Project(x) == Project(y) && Finish(x, START) == Finish(y, START)
  {
    StartTraced(x);
    FinishesSame(x, y, START);
  }

  // ----- Delimiters are another matter -----

  /** A pipe put inside `||a||` ends that spoiler one byte early. */
  lemma DelimitersMatter()
    ensures var x, y: seq<byte> := [PIPE, PIPE, 97, PIPE, PIPE], [PIPE, PIPE, PIPE, PIPE, PIPE];
            Secret(Finish(x, START).hidden, 2) && Project(x) == SPOILER && Project(y) == SPOILER + [PIPE]
  {
    var x, y: seq<byte> := [PIPE, PIPE, 97, PIPE, PIPE], [PIPE, PIPE, PIPE, PIPE, PIPE];
    HidesAtOnce(x, 3);
    HidesAtOnce(y, 2);
    var s := Step(x, START);
    assert Finish(x, START) == Finish(x, s) == s;
    assert Between(s.hidden[0], 2);
    KeepAll(s.buf);
    var t := Step(y, START);
    assert Decide(y, t) == Copy(4, 5, 5);
    var u := Step(y, t);
    assert Finish(y, START) == Finish(y, t) == Finish(y, u) == u;
    assert y[4..5] == [PIPE];
    KeepAll(u.buf);
  }

  lemma HidesAtOnce(text: seq<byte>, close: nat)
    requires At(text, 0, PIPE, PIPE) && 2 <= close && At(text, close, PIPE, PIPE)
    requires close == 2 || (close == 3 && text[2] != PIPE)
    ensures Decide(text, START) == Hide(close + 2)
    ensures Step(text, START) == Scan(close + 2, SPOILER, Marked(), [(0, close + 2)], [], [])
  {
    assert Positions(text, PIPE, PIPE, 0) == [0] + Positions(text, PIPE, PIPE, 2);
    assert Positions(text, PIPE, PIPE, 2) == Positions(text, PIPE, PIPE, close);
    assert Positions(text, PIPE, PIPE, close)[0] == close;
    assert [] + SPOILER == SPOILER;
  }

  lemma {:induction false} KeepAll<T>(s: seq<T>)
    ensures Keep(s, []) == s
  {
    if s != [] { KeepAll(s[..|s| - 1]); }
  }
}
