/** The text alone decides its regions, and with them its rendering. */
module MarkdownLayout {
  import opened Common
  import opened Markdown
  import opened MarkdownTables
  import opened MarkdownRegions
  import opened MarkdownReference
  import opened MarkdownRendering
  import opened MarkdownProvenance

  /** Two layouts with the same stretches before `p`. */
  ghost predicate Same(a: seq<Region>, b: seq<Region>, p: nat) {
    forall r: Region :: r.start < p ==> (r in a <==> r in b)
  }

  lemma SkippedSame(a: seq<Region>, b: seq<Region>, p: nat, q: nat)
    requires Same(a, b, p) && q < p
    ensures Skipped(a, q) <==> Skipped(b, q)
    ensures forall kind :: Begins(a, kind, q) <==> Begins(b, kind, q)
  {
    forall kind ensures Begins(a, kind, q) <==> Begins(b, kind, q) {
      if r :| r in a && r.kind == kind && r.start == q { assert r in b; }
      if r :| r in b && r.kind == kind && r.start == q { assert r in a; }
    }
  }

  lemma {:induction false} EscapesSame(text: seq<byte>, a: seq<Region>, b: seq<Region>, p: nat, q: nat)
    requires Same(a, b, p) && q < p
    ensures Escapes(text, a, q) <==> Escapes(text, b, q)
    ensures Free(text, a, q) <==> Free(text, b, q)
    decreases q
  {
    hide Same, Skipped, Mark;
    SkippedSame(a, b, p, q);
    if q > 0 { EscapesSame(text, a, b, p, q - 1); }
  }

  lemma {:induction false} RunStartSame(text: seq<byte>, a: seq<Region>, b: seq<Region>, p: nat, q: nat)
    requires Same(a, b, p) && q <= p && q < |text|
    ensures RunStart(text, a, q) == RunStart(text, b, q)
    decreases q
  {
    hide Same, Free;
    if q > 0 {
      EscapesSame(text, a, b, p, q - 1);
      RunStartSame(text, a, b, p, q - 1);
    }
  }

  lemma {:induction false} OpensSame(text: seq<byte>, a: seq<Region>, b: seq<Region>, p: nat, q: nat)
    requires Same(a, b, p) && q <= p && q <= |text|
    ensures Opens(text, a, q) == Opens(text, b, q)
    decreases q
  {
    hide Same, Free, Begins;
    if q > 0 {
      EscapesSame(text, a, b, p, q - 1);
      SkippedSame(a, b, p, q - 1);
      OpensSame(text, a, b, p, q - 1);
    }
  }

  lemma FitsSame(text: seq<byte>, a: seq<Region>, b: seq<Region>, r: Region)
    requires Same(a, b, r.start)
    ensures Fits(text, a, r) <==> Fits(text, b, r)
  {
    hide Same, RunStart, Opens, Paired, Counted, NearestTwice, NearestAt;
    if r.start < |text| {
      RunStartSame(text, a, b, r.start, r.start);
      OpensSame(text, a, b, r.start, r.start);
    }
  }

  lemma StartsByte(text: seq<byte>, rs: seq<Region>, r: Region)
    requires Fits(text, rs, r)
    ensures r.start < r.end <= |text|
    ensures match r.kind
            case Hidden => text[r.start] in {124, 62}
            case Span => text[r.start] == 96
            case Target => text[r.start] == 93
  {
    PairedAreTicks(text, r.start, r.end);
    hide Paired;
  }

  lemma SpanEnds(text: seq<byte>, a: nat, e: nat, f: nat)
    requires Paired(text, a, e) && Paired(text, a, f)
    ensures e == f
  {
    var n :| PairedBy(text, a, n, e);
    var k :| PairedBy(text, a, k, f);
    RunLength(text, a, n, k);
  }

  /** A place begins at most one stretch. */
  lemma FitsOnce(text: seq<byte>, rs: seq<Region>, a: Region, b: Region)
    requires Fits(text, rs, a) && Fits(text, rs, b) && a.start == b.start
    ensures a == b
  {
    StartsByte(text, rs, a);
    StartsByte(text, rs, b);
    hide RunStart, Opens, Counted;
    if a.kind == Span { SpanEnds(text, a.start, a.end, b.end); }
    hide Paired;
  }

  /** One that begins at `p` in the first layout begins there in the second. */
  lemma AlsoBegins(text: seq<byte>, a: seq<Region>, b: seq<Region>, r: Region)
    requires Laid(text, a) && Laid(text, b) && Same(a, b, r.start) && r in a
    ensures r in b
  {
    var p := r.start;
    FitsSame(text, a, b, r);
    StartsByte(text, a, r);
    if p > 0 { EscapesSame(text, a, b, p, p - 1); }
    NoneOverlaps(a, b, |text|, r);
    if q :| q in b && Inside(q, p) {
      FitsOnce(text, b, q, r);
    } else {
      StartIsFree(text, b, r);
    }
  }

  lemma StartIsFree(text: seq<byte>, rs: seq<Region>, r: Region)
    requires r.start < |text| && !Skipped(rs, r.start) && !Escaped(text, rs, r.start) && text[r.start] != 92
    ensures Free(text, rs, r.start)
  {
  }

  lemma NoneOverlaps(a: seq<Region>, b: seq<Region>, n: nat, r: Region)
    requires Apart(a, n) && Same(a, b, r.start) && r in a
    ensures forall q :: q in b && q.start < r.start ==> !Inside(q, r.start)
  {
    forall q | q in b && q.start < r.start ensures !Inside(q, r.start) { Overlap(a, n, q, r); }
  }

  lemma Overlap(rs: seq<Region>, n: nat, q: Region, r: Region)
    requires Apart(rs, n) && q in rs && r in rs && q.start < r.start
    ensures !Inside(q, r.start)
  {
    var j :| 0 <= j < |rs| && rs[j] == q;
    var k :| 0 <= k < |rs| && rs[k] == r;
    assert j < k;
  }

  lemma {:induction false} SameThroughout(text: seq<byte>, a: seq<Region>, b: seq<Region>, p: nat)
    requires Laid(text, a) && Laid(text, b)
    ensures Same(a, b, p)
    decreases p
  {
    if p > 0 {
      SameThroughout(text, a, b, p - 1);
      hide Laid;
      forall r: Region | r.start < p ensures r in a <==> r in b {
        if r.start == p - 1 {
          if r in a { AlsoBegins(text, a, b, r); }
          if r in b { AlsoBegins(text, b, a, r); }
        }
      }
    }
  }

  lemma {:induction false} ApartOnce(a: seq<Region>, b: seq<Region>, n: nat)
    requires Apart(a, n) && Apart(b, n) && forall r :: r in a <==> r in b
    ensures a == b
  {
    FirstIsIn(a);
    FirstIsIn(b);
    if a != [] {
      assert a[0] == b[0];
      forall r ensures r in a[1..] <==> r in b[1..] {
        if r in a[1..] { assert r in a && r.start >= a[0].end > a[0].start; }
        if r in b[1..] { assert r in b && r.start >= b[0].end > b[0].start; }
      }
      ApartOnce(a[1..], b[1..], n);
      assert a == [a[0]] + a[1..] && b == [b[0]] + b[1..];
    }
  }

  lemma FirstIsIn(a: seq<Region>)
    ensures a == [] || a[0] in a
  {
  }

  /** There is one layout, so the projection of a text is the rendering of whatever fits it. */
  lemma TheProjection(text: seq<byte>, rs: seq<Region>)
    requires Laid(text, rs)
    ensures Project(text) == Rendered(text, rs, |text|)
  {
    var found := ProjectionIsRendering(text);
    OneLayout(text, found, rs);
  }

  lemma OneLayout(text: seq<byte>, a: seq<Region>, b: seq<Region>)
    requires Laid(text, a) && Laid(text, b)
    ensures a == b
  {
    forall r ensures r in a <==> r in b { SameThroughout(text, a, b, r.start + 1); }
    ApartOnce(a, b, |text|);
  }

  // ----- What an escape does not protect -----

  /** An escaped byte survives unless it is a bang right before a link's bracket. */
  lemma EscapedSurvivesIff(text: seq<byte>, rs: seq<Region>, p: nat)
    requires Laid(text, rs) && p < |text| && Escaped(text, rs, p)
    ensures Survives(text, rs, p) <==> !(text[p] == 33 && LinkedBy(text, rs, |text|, p + 1))
  {
    EscapedIsCopied(text, rs, p);
    hide Laid, Copied, LinkedBy, Skipped;
    if LinkedBy(text, rs, |text|, p) { LinkedIsFree(text, rs, p); }
  }

  lemma EscapedIsCopied(text: seq<byte>, rs: seq<Region>, p: nat)
    requires Laid(text, rs) && p < |text| && Escaped(text, rs, p)
    ensures Copied(text, rs, p) && !Free(text, rs, p)
  {
    hide Fits, Shows;
    assert forall r :: r in rs && Inside(r, p) ==> r.start == p || Inside(r, p - 1);
  }

  lemma {:induction false} OpensAreFree(text: seq<byte>, rs: seq<Region>, i: nat)
    requires i <= |text|
    ensures forall k :: 0 <= k < |Opens(text, rs, i)| ==> Free(text, rs, Opens(text, rs, i)[k])
  {
    hide Free, Begins;
    if i > 0 { OpensAreFree(text, rs, i - 1); }
  }

  lemma LinkedIsFree(text: seq<byte>, rs: seq<Region>, p: nat)
    requires LinkedBy(text, rs, |text|, p)
    ensures Free(text, rs, p)
  {
    hide Free, Opens, Begins;
    var i :| 0 <= i < |text| && LinkedAt(text, rs, i, p);
    OpensAreFree(text, rs, i);
  }

  const ESCAPED_BANG: seq<byte> := [92, 33, 91, 97, 93, 40, 98, 41]

  const BEGUN: Scan := Scan(3, [33, 91], [1, 2], [], [0, 1], [])

  const LINKED: Scan := Scan(8, [33, 91, 97], [1, 2, 3], [], [], [1, 0])

  lemma BangAndBracket()
    ensures Finish(ESCAPED_BANG, START) == Finish(ESCAPED_BANG, BEGUN)
  {
    hide CodeMove, PipeMove, AngleMove, EmphasisMove, NextParen, Finish;
    var one := Scan(2, [33], [1], [], [], []);
    assert Step(ESCAPED_BANG, START) == one;
    assert Step(ESCAPED_BANG, one) == BEGUN;
    AfterFinishes(ESCAPED_BANG, START, 2);
  }

  lemma TextAndTarget()
    ensures Finish(ESCAPED_BANG, BEGUN) == LINKED
  {
    assert NextParen(ESCAPED_BANG, 6) == Some(7);
    hide CodeMove, PipeMove, AngleMove, EmphasisMove, NextParen;
    var one := Scan(4, [33, 91, 97], [1, 2, 3], [], [0, 1], []);
    assert Step(ESCAPED_BANG, BEGUN) == one;
    assert Step(ESCAPED_BANG, one) == LINKED;
    AfterFinishes(ESCAPED_BANG, BEGUN, 2);
  }

  /** A concrete text: of an escaped bang and a link with the text `a`, only the `a` is left. */
  lemma EscapedBangGoes()
    ensures Project(ESCAPED_BANG) == [97]
  {
    hide Finish, Step;
    BangAndBracket();
    TextAndTarget();
    assert LINKED.buf == [33, 91] + [97] && [33, 91] == [33] + [91] && [33] == [] + [33];
    KeepAlive([33, 91], [97], [1, 0]);
    KeepDead([33], 91, [1, 0]);
    KeepDead([], 33, [1, 0]);
  }
}
