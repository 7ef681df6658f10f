/** The scanner computes the projection that the regions describe. */
module MarkdownReference {
  import opened Common
  import opened MarkdownTables
  import opened Markdown
  import opened MarkdownRegions
  import opened MarkdownProvenance
  import Utf8

  // ----- The special moves, by their neighbours -----

  lemma {:induction false} FirstTwice(text: seq<byte>, b: byte, i: nat, c: nat) returns (first: nat)
    requires i <= c && Twice(text, c, b)
    ensures NearestTwice(text, b, i, first) && first <= c
    decreases c - i
  {
    if Twice(text, i, b) { first := i; } else { first := FirstTwice(text, b, i + 1, c); }
  }

  /** A `||` hides exactly when it is counted off in pairs and another one follows; it hides up to the next one. */
  lemma PipeIs(text: seq<byte>, i: nat)
    requires Twice(text, i, 124)
    ensures PipeMove(text, i).Hide? <==> Counted(text, i, 124) && exists c :: i + 2 <= c && Twice(text, c, 124)
    ensures PipeMove(text, i).Hide? ==> NearestTwice(text, 124, i + 2, PipeMove(text, i).next - 2)
    ensures !PipeMove(text, i).Hide? ==> PipeMove(text, i) == Copy(i, i, i + 2)
  {
    hide Counted, Twice, Positions, FirstFrom, At, NearestTwice;
    var pipes := Positions(text, PIPE, PIPE, 0);
    var p := FirstFrom(pipes, i, 0);
    if Counted(text, i, 124) {
      var j := PairIndex(text, 124, i);
      assert p == j;
      if c :| i + 2 <= c && Twice(text, c, 124) {
        var first := FirstTwice(text, 124, i + 2, c);
        NearestIsCounted(text, 124, i, first);
        var f := PairIndex(text, 124, first);
        assert p < f && pipes[p + 1] <= first;
      }
    }
    if p < |pipes| { PairAt(text, 124, p); }
    if p + 1 < |pipes| {
      PairAt(text, 124, p + 1);
      if Counted(text, i, 124) { NearestNext(text, i, p); }
    }
  }

  lemma PairIndex(text: seq<byte>, b: byte, c: nat) returns (j: nat)
    requires Counted(text, c, b)
    ensures j < |Positions(text, b, b, 0)| && Positions(text, b, b, 0)[j] == c
  {
    PairsFound(text, b, 0, c);
    j :| 0 <= j < |Positions(text, b, b, 0)| && Positions(text, b, b, 0)[j] == c;
  }

  lemma PairAt(text: seq<byte>, b: byte, j: nat)
    requires j < |Positions(text, b, b, 0)|
    ensures Counted(text, Positions(text, b, b, 0)[j], b) && Twice(text, Positions(text, b, b, 0)[j], b)
  {
    PairsFound(text, b, 0, Positions(text, b, b, 0)[j]);
  }

  lemma NearestNext(text: seq<byte>, i: nat, p: nat)
    requires Counted(text, i, 124) && p + 1 < |Positions(text, 124, 124, 0)| && Positions(text, 124, 124, 0)[p] == i
    ensures NearestTwice(text, 124, i + 2, Positions(text, 124, 124, 0)[p + 1])
  {
    hide Counted, Twice, Positions, At;
    var pipes := Positions(text, 124, 124, 0);
    PairAt(text, 124, p + 1);
    var first := FirstTwice(text, 124, i + 2, pipes[p + 1]);
    NearestIsCounted(text, 124, i, first);
    var f := PairIndex(text, 124, first);
    assert f == p + 1;
  }

  lemma RunLength(text: seq<byte>, a: nat, n: nat, m: nat)
    requires IsRun(text, a, n) && IsRun(text, a, m)
    ensures n == m
  {
    OneRun(text, a, n);
    OneRun(text, a, m);
  }

  lemma RunIndex(text: seq<byte>, a: nat, n: nat) returns (k: nat)
    requires IsRun(text, a, n)
    ensures k < |Runs(text, 0)| && Runs(text, 0)[k] == TickRun(a, n)
  {
    RunsListed(text, 0, a, n);
    k :| 0 <= k < |Runs(text, 0)| && Runs(text, 0)[k] == TickRun(a, n);
  }

  lemma RunAt(text: seq<byte>, k: nat)
    requires k < |Runs(text, 0)|
    ensures IsRun(text, Runs(text, 0)[k].start, Runs(text, 0)[k].len)
  {
    var r := Runs(text, 0)[k];
    RunsListed(text, 0, r.start, r.len);
  }

  lemma RunOrder(text: seq<byte>, j: nat, k: nat)
    requires j < |Runs(text, 0)| && k < |Runs(text, 0)|
    ensures Runs(text, 0)[j].start < Runs(text, 0)[k].start <==> j < k
  {
    RunsAreApart(text, 0);
  }

  /** The nearest later run of the same length is the one that the table finds. */
  lemma TableFinds(text: seq<byte>, k: nat, e: Option<nat>)
    requires k < |Runs(text, 0)| && e == NextOfLength(Runs(text, 0), k + 1, Runs(text, 0)[k].len)
    ensures var r := Runs(text, 0)[k];
            && (e.None? ==> forall end :: !PairedBy(text, r.start, r.len, end))
            && (e.Some? ==> e.value < |Runs(text, 0)| && Runs(text, 0)[e.value].len == r.len
                            && PairedBy(text, r.start, r.len, Runs(text, 0)[e.value].start + r.len))
  {
    hide IsRun, Runs, NextOfLength;
    var runs := Runs(text, 0);
    var r := runs[k];
    NearestOfLength(runs, k + 1, r.len);
    RunAt(text, k);
    forall c | c > r.start && IsRun(text, c, r.len)
      ensures e.Some? && runs[e.value].start <= c
    {
      var m := RunIndex(text, c, r.len);
      RunOrder(text, k, m);
      if e.Some? { RunOrder(text, m, e.value); }
    }
    if e.Some? {
      RunAt(text, e.value);
      RunOrder(text, k, e.value);
    }
  }

  /** A backtick run with a partner is passed with its span, and one without is passed alone. */
  lemma CodeIsPaired(text: seq<byte>, i: nat)
    requires i < |text| && text[i] == TICK
    ensures var m, end := CodeMove(text, i), RunEnd(text, i, TICK);
            && m.Copy? && m.next > i
            && (m.next > end ==> PairedBy(text, i, end - i, m.next) && i + (end - i) <= m.next - (end - i)
                                 && m.next <= |text| && m == SpanMove(text, i, m.next - (end - i), end - i))
            && (m.next <= end ==> m == Copy(i, i, m.next) && forall p, e :: i <= p < m.next ==> !Paired(text, p, e))
  {
    var runs := Runs(text, 0);
    var k := FirstFrom(Starts(runs), i, 0);
    if k < |runs| && runs[k].start == i {
      RunAt(text, k);
      RunMove(text, i, k);
    } else {
      hide Runs, FirstFrom, IsRun;
      forall n ensures !IsRun(text, i, n) {
        if IsRun(text, i, n) {
          var m := RunIndex(text, i, n);
          assert Starts(runs)[m] == i;
          RunOrder(text, k, m);
        }
      }
    }
  }

  lemma RunMove(text: seq<byte>, i: nat, k: nat)
    requires i < |text| && text[i] == TICK && k == FirstFrom(Starts(Runs(text, 0)), i, 0)
    requires k < |Runs(text, 0)| && Runs(text, 0)[k].start == i && IsRun(text, i, Runs(text, 0)[k].len)
    ensures var m, end := CodeMove(text, i), RunEnd(text, i, TICK);
            && m.Copy? && m.next >= end > i
            && (m.next > end ==> PairedBy(text, i, end - i, m.next) && i + (end - i) <= m.next - (end - i)
                                 && m.next <= |text| && m == SpanMove(text, i, m.next - (end - i), end - i))
            && (m.next <= end ==> m == Copy(i, i, m.next) && forall p, e :: i <= p < m.next ==> !Paired(text, p, e))
  {
    hide IsRun, Runs, SpanMove, NextOfLength, FirstFrom, PairedBy;
    var runs := Runs(text, 0);
    var len := runs[k].len;
    var e := NextOfLength(runs, k + 1, len);
    OneRunHere(text, i, len);
    TableFinds(text, k, e);
    NearestOfLength(runs, k + 1, len);
    if e.Some? {
      CodeIs(text, i, k, e.value);
      SpanNext(text, i, runs[e.value].start, len);
    } else {
      forall p, end | i <= p < i + len ensures !Paired(text, p, end) { OnlyFirstPairs(text, i, len, p, end); }
    }
  }

  lemma SpanNext(text: seq<byte>, i: nat, end: nat, len: nat)
    requires i + len <= end <= |text|
    ensures SpanMove(text, i, end, len).Copy? && SpanMove(text, i, end, len).next == end + len
  {
  }

  lemma OneRunHere(text: seq<byte>, i: nat, n: nat)
    requires IsRun(text, i, n)
    ensures i < |text| && n == RunEnd(text, i, TICK) - i
  {
    OneRun(text, i, n);
  }

  /** Inside a run nothing else begins, and at its start nothing of another length. */
  lemma OnlyFirstPairs(text: seq<byte>, i: nat, n: nat, p: nat, end: nat)
    requires IsRun(text, i, n) && i <= p < i + n && forall e :: !PairedBy(text, i, n, e)
    ensures !Paired(text, p, end)
  {
    AfterRun(text, i);
    OneRun(text, i, n);
    if m :| PairedBy(text, p, m, end) {
      assert IsRun(text, p, m);
      RunLength(text, i, n, m);
    }
  }

  // ----- What one step does to the positions it passes -----

  /** The stretch that a move jumps over, if it does. */
  function Jumped(text: seq<byte>, i: nat, m: Move): seq<Region>
    requires i < |text|
  {
    match m
    case Hide(next) => [Region(Hidden, i, next)]
    case Link(next) => [Region(Target, i, next)]
    case Copy(_, _, next) => if text[i] == TICK && next > RunEnd(text, i, TICK) then [Region(Span, i, next)] else []
    case Open(_) => []
  }

  /** The scan stands between two things: behind no escape, at the start of a run, at no odd byte of a pair. */
  ghost predicate Poised(text: seq<byte>, rs: seq<Region>, n: nat) {
    && n <= |text| && !Escaped(text, rs, n)
    && (n < |text| && text[n] in {42, 95} ==> RunStart(text, rs, n) == n)
    && (n < |text| && text[n] in {124, 126} ==> (n - RunStart(text, rs, n)) % 2 == 0)
  }

  /** From `i` to `next` nothing is jumped over. */
  ghost predicate Clear(rs: seq<Region>, i: nat, next: nat) {
    && (forall p :: i <= p < next ==> !Skipped(rs, p))
    && forall p, kind :: i <= p < next ==> !Begins(rs, kind, p)
  }

  /** From the start of `r` to its end everything is, and by `r` alone. */
  ghost predicate Filled(rs: seq<Region>, r: Region) {
    && r in rs
    && (forall p :: r.start <= p < r.end ==> Skipped(rs, p) && forall q :: q in rs && Inside(q, p) ==> q == r)
    && (forall p, kind :: r.start <= p < r.end ==> (Begins(rs, kind, p) <==> p == r.start && kind == r.kind))
  }

  ghost predicate Ahead(text: seq<byte>, rs: seq<Region>, i: nat, m: Move)
    requires i < |text|
  {
    if Jumped(text, i, m) == [] then Clear(rs, i, Landing(i, m)) else Filled(rs, Jumped(text, i, m)[0])
  }

  /** Which bytes a step copies, where it puts a marker, and that it misses no stretch. */
  ghost predicate Tells(text: seq<byte>, rs: seq<Region>, i: nat, m: Move)
    requires i < |text|
  {
    var next := Landing(i, m);
    && i < next <= |text| && Poised(text, rs, next)
    && (forall p :: i <= p < next ==> (Copied(text, rs, p) <==> m.Open? || (m.Copy? && m.lo <= p < m.hi)))
    && (forall p :: i <= p < next ==> (Begins(rs, Hidden, p) <==> m.Hide? && p == i))
    && (forall p :: i <= p < next ==> (Begins(rs, Target, p) <==> m.Link? && p == i))
    && (forall p :: i <= p < next ==> (text[p] == 91 && Free(text, rs, p) <==> m.Open?))
    && (forall r: Region :: i <= r.start < next && Free(text, rs, r.start) ==> !Fits(text, rs, r))
    && (text[next - 1] == 33 ==> m.Copy? && m.lo < m.hi == next)
  }

  /** A byte that is neither jumped over nor follows an escape is free, unless it escapes itself. */
  lemma FreeAhead(text: seq<byte>, rs: seq<Region>, i: nat)
    requires i < |text| && !Skipped(rs, i) && !Escaped(text, rs, i)
    ensures Free(text, rs, i) <==> !(text[i] == 92 && i + 1 < |text| && Mark(text[i + 1]))
  {
  }

  /** Behind a byte of another kind, or one that is not free, every run begins afresh. */
  lemma PoisedNext(text: seq<byte>, rs: seq<Region>, n: nat)
    requires 0 < n <= |text| && !Escapes(text, rs, n - 1)
    requires n < |text| && text[n] in {42, 95, 124, 126} ==> text[n - 1] != text[n] || !Free(text, rs, n - 1)
    ensures Poised(text, rs, n)
  {
  }

  lemma MarkIs(b: byte)
    ensures Mark(b) <==> Punctuation(b)
    ensures Word(b) <==> Alphanumeric(b)
    ensures White(b) <==> Blank(b)
  {
  }

  /** Only four bytes can begin a stretch. */
  lemma NothingBegins(text: seq<byte>, rs: seq<Region>, r: Region)
    requires r.start < |text| && text[r.start] !in {124, 62, 96, 93}
    ensures !Fits(text, rs, r)
  {
    PairedAreTicks(text, r.start, r.end);
    hide Paired;
  }

  lemma PairedAreTicks(text: seq<byte>, a: nat, end: nat)
    ensures Paired(text, a, end) ==> a < end <= |text| && text[a] == 96 && text[end - 1] == 96
  {
  }

  lemma CopyTells(text: seq<byte>, rs: seq<Region>, i: nat, m: Move)
    requires m.Copy? && i < m.next <= |text| && Poised(text, rs, m.next) && Clear(rs, i, m.next)
    requires forall p :: i <= p < m.next ==> (Copied(text, rs, p) <==> m.lo <= p < m.hi)
    requires forall p :: i <= p < m.next ==> text[p] != 91 || !Free(text, rs, p)
    requires forall r: Region :: i <= r.start < m.next && Free(text, rs, r.start) ==> !Fits(text, rs, r)
    requires text[m.next - 1] == 33 ==> m.lo < m.hi == m.next
    ensures Tells(text, rs, i, m)
  {
    hide Poised, Copied, Free, Fits, Skipped, Begins;
  }

  lemma EscapeTells(text: seq<byte>, rs: seq<Region>, i: nat)
    requires i + 1 < |text| && Poised(text, rs, i) && Clear(rs, i, i + 2) && text[i] == 92 && Mark(text[i + 1])
    ensures Tells(text, rs, i, Copy(i + 1, i + 2, i + 2))
  {
    assert Escapes(text, rs, i);
    assert Escaped(text, rs, i + 1) && !Escapes(text, rs, i + 1) && !Free(text, rs, i + 1);
    PoisedNext(text, rs, i + 2);
    hide Fits, RunStart, Poised;
    assert !Copied(text, rs, i) && Copied(text, rs, i + 1);
    assert forall p :: i <= p < i + 2 ==> !Free(text, rs, p);
  }

  /** Any single byte that the scan copies without more. */
  lemma PlainTells(text: seq<byte>, rs: seq<Region>, i: nat)
    requires i < |text| && Poised(text, rs, i) && Clear(rs, i, i + 1)
    requires !(text[i] == 92 && i + 1 < |text| && Mark(text[i + 1])) && text[i] !in {96, 42, 95, 91}
    requires text[i] in {124, 126} ==> !(i + 1 < |text| && text[i + 1] == text[i])
    requires forall r: Region :: r.start == i ==> !Fits(text, rs, r)
    ensures Tells(text, rs, i, Copy(i, i + 1, i + 1))
  {
    FreeAhead(text, rs, i);
    PoisedNext(text, rs, i + 1);
    hide Fits, Poised;
  }

  lemma OpenTells(text: seq<byte>, rs: seq<Region>, i: nat, image: bool)
    requires i < |text| && Poised(text, rs, i) && Clear(rs, i, i + 1) && text[i] == 91
    ensures Tells(text, rs, i, Open(image))
  {
    FreeAhead(text, rs, i);
    PoisedNext(text, rs, i + 1);
    forall r: Region | r.start == i ensures !Fits(text, rs, r) { NothingBegins(text, rs, r); }
    hide Fits, Poised;
  }

  lemma LiteralTells(text: seq<byte>, rs: seq<Region>, i: nat)
    requires At(text, i, 62, 33) && Poised(text, rs, i) && Clear(rs, i, i + 2)
    requires forall r: Region :: r.start == i ==> !Fits(text, rs, r)
    ensures Tells(text, rs, i, Copy(i, i + 2, i + 2))
  {
    FreeAhead(text, rs, i);
    FreeAhead(text, rs, i + 1);
    PoisedNext(text, rs, i + 2);
    forall r: Region | r.start == i + 1 ensures !Fits(text, rs, r) { NothingBegins(text, rs, r); }
    hide Fits, Poised;
    assert Copied(text, rs, i) && Copied(text, rs, i + 1);
  }

  /** Two doubled bytes that hide nothing. */
  lemma PairTells(text: seq<byte>, rs: seq<Region>, i: nat)
    requires i + 1 < |text| && text[i] in {124, 126} && text[i + 1] == text[i] && Poised(text, rs, i) && Clear(rs, i, i + 2)
    requires forall r: Region :: r.start == i ==> !Fits(text, rs, r)
    ensures Tells(text, rs, i, Copy(i, i, i + 2))
  {
    FreeAhead(text, rs, i);
    FreeAhead(text, rs, i + 1);
    var a := RunStart(text, rs, i);
    assert RunStart(text, rs, i + 1) == a;
    if i + 2 < |text| && text[i + 2] == text[i] {
      assert RunStart(text, rs, i + 2) == a;
    } else {
      PoisedNext(text, rs, i + 2);
    }
    forall r: Region | r.start == i + 1 ensures !Fits(text, rs, r) {
      if text[i] == 126 { NothingBegins(text, rs, r); }
    }
    hide Fits, RunStart;
    assert !Copied(text, rs, i) && !Copied(text, rs, i + 1);
  }

  /** Backticks without a partner. */
  lemma TicksTell(text: seq<byte>, rs: seq<Region>, i: nat, next: nat)
    requires i < next <= |text| && Poised(text, rs, i) && Clear(rs, i, next) && forall k :: i <= k < next ==> text[k] == 96
    requires forall p, e :: i <= p < next ==> !Paired(text, p, e)
    ensures Tells(text, rs, i, Copy(i, i, next))
  {
    forall p | i <= p < next ensures Free(text, rs, p) && !Copied(text, rs, p) {
      assert p > i ==> text[p - 1] == 96;
      FreeAhead(text, rs, p);
    }
    PoisedNext(text, rs, next);
    forall r: Region | i <= r.start < next ensures !Fits(text, rs, r) { assert text[r.start] == 96; }
    hide *;
    CopyTells(text, rs, i, Copy(i, i, next));
  }

  /** A run of asterisks or underscores stays or goes as one, by the bytes on either side. */
  lemma EmphasisTells(text: seq<byte>, rs: seq<Region>, i: nat)
    requires i < |text| && text[i] in {42, 95} && Poised(text, rs, i)
    requires Clear(rs, i, RunEnd(text, i, text[i]))
    ensures Tells(text, rs, i, EmphasisMove(text, i))
  {
    hide Poised, Free, Copied, Fits, Literal, Clear;
    var b, end := text[i], RunEnd(text, i, text[i]);
    forall p | i <= p < end ensures Free(text, rs, p) && RunStart(text, rs, p) == i { InRun(text, rs, i, end, p); }
    forall p | i <= p < end ensures Copied(text, rs, p) <==> Literal(text, i, end) { FlankedRun(text, rs, i, end, p); }
    PoisedNext(text, rs, end);
    forall r: Region | i <= r.start < end ensures !Fits(text, rs, r) { NothingBegins(text, rs, r); }
    CopyTells(text, rs, i, EmphasisMove(text, i));
  }

  lemma {:induction false} InRun(text: seq<byte>, rs: seq<Region>, i: nat, end: nat, p: nat)
    requires i <= p < end <= |text| && Poised(text, rs, i) && Clear(rs, i, end)
    requires text[i] in {42, 95} && forall k :: i <= k < end ==> text[k] == text[i]
    ensures Free(text, rs, p) && RunStart(text, rs, p) == i
  {
    FreeAhead(text, rs, p);
    if p > i { InRun(text, rs, i, end, p - 1); }
  }

  /** A run has one end. */
  lemma SameEnd(text: seq<byte>, p: nat, a: nat, e: nat, b: byte)
    requires p < a <= |text| && (forall k :: p <= k < a ==> text[k] == b) && (a < |text| ==> text[a] != b)
    requires p < e <= |text| && (forall k :: p <= k < e ==> text[k] == b) && (e < |text| ==> text[e] != b)
    ensures a == e
  {
  }

  lemma WordAfter(text: seq<byte>, p: nat, end: nat)
    requires p < end <= |text| && (forall k :: p <= k < end ==> text[k] == 95) && (end < |text| ==> text[end] != 95)
    ensures (exists e :: WordEnds(text, p, e)) <==> end < |text| && Word(text[end])
  {
    assert !Word(95);
    if e: nat :| WordEnds(text, p, e) {
      assert text[e] != 95;
      SameEnd(text, p, e, end, 95);
    }
    if end < |text| && Word(text[end]) { assert WordEnds(text, p, end); }
  }

  lemma BlankAfter(text: seq<byte>, p: nat, end: nat)
    requires p < end <= |text| && (forall k :: p <= k < end ==> text[k] == 42) && (end < |text| ==> text[end] != 42)
    ensures (exists e :: BlankEnds(text, p, e)) <==> end == |text| || White(text[end])
  {
    assert !White(42);
    if e: nat :| BlankEnds(text, p, e) {
      assert e < |text| ==> text[e] != 42;
      SameEnd(text, p, e, end, 42);
    }
    if end == |text| || White(text[end]) { assert BlankEnds(text, p, end); }
  }

  lemma FlankedRun(text: seq<byte>, rs: seq<Region>, i: nat, end: nat, p: nat)
    requires i <= p < end <= |text| && Free(text, rs, p) && RunStart(text, rs, p) == i
    requires text[i] in {42, 95} && (forall k :: i <= k < end ==> text[k] == text[i]) && (end < |text| ==> text[end] != text[i])
    ensures Copied(text, rs, p) <==> Literal(text, i, end)
  {
    if i > 0 { MarkIs(text[i - 1]); }
    if end < |text| { MarkIs(text[end]); }
    if text[i] == 95 { WordAfter(text, p, end); } else { BlankAfter(text, p, end); }
    hide Word, White, Alphanumeric, Blank, RunStart, WordEnds, BlankEnds;
    assert text[p] == text[i];
    assert !Skipped(rs, p) && !Escapes(text, rs, p) && !Escaped(text, rs, p);
    hide Skipped, Escapes, Escaped;
  }

  // ----- Stretches that are jumped over -----

  lemma JumpTells(text: seq<byte>, rs: seq<Region>, r: Region, m: Move)
    requires r.start < r.end <= |text| && Filled(rs, r) && text[r.end - 1] != 33
    requires m == (if r.kind == Hidden then Hide(r.end) else Link(r.end)) && r.kind != Span
    ensures Tells(text, rs, r.start, m)
  {
    PoisedNext(text, rs, r.end);
    hide Poised, Fits, Shows;
  }

  lemma SpanTells(text: seq<byte>, rs: seq<Region>, r: Region, n: nat)
    requires r.start < r.end <= |text| && Filled(rs, r) && r.kind == Span && PairedBy(text, r.start, n, r.end)
    requires r.start + n <= r.end - n
    ensures Tells(text, rs, r.start, SpanMove(text, r.start, r.end - n, n))
  {
    hide Poised, Fits, Copied, Shows, PairedBy, Free, Escapes, SpanMove;
    var m := SpanMove(text, r.start, r.end - n, n);
    SpanNext(text, r.start, r.end - n, n);
    RegionIsPassed(text, rs, r);
    forall p: nat | r.start <= p < r.end ensures Copied(text, rs, p) <==> m.lo <= p < m.hi {
      SpanShows(text, r, n, p);
      SpanCopies(text, rs, r, p);
    }
    LastTick(text, r.start, n, r.end);
  }

  lemma LastTick(text: seq<byte>, a: nat, n: nat, end: nat)
    requires PairedBy(text, a, n, end)
    ensures a < end <= |text| && text[end - 1] == 96
  {
  }

  lemma RegionIsPassed(text: seq<byte>, rs: seq<Region>, r: Region)
    requires r.start < r.end <= |text| && Filled(rs, r)
    ensures Poised(text, rs, r.end) && forall p: nat :: r.start <= p < r.end ==> !Free(text, rs, p)
  {
    PoisedNext(text, rs, r.end);
  }

  lemma PairedLength(text: seq<byte>, a: nat, n: nat, k: nat, end: nat)
    requires PairedBy(text, a, n, end) && PairedBy(text, a, k, end)
    ensures n == k
  {
    RunLength(text, a, n, k);
  }

  lemma ShowsByMove(text: seq<byte>, r: Region, n: nat, p: nat)
    requires PairedBy(text, r.start, n, r.end) && r.start + n <= r.end - n <= |text|
    ensures var m := SpanMove(text, r.start, r.end - n, n); ShowsBy(text, r, n, p) <==> m.lo <= p < m.hi
  {
    hide PairedBy, Utf8.TrimStart, Utf8.TrimEnd;
  }

  lemma ShowsByPair(text: seq<byte>, r: Region, n: nat, k: nat, p: nat)
    requires PairedBy(text, r.start, n, r.end) && ShowsBy(text, r, k, p)
    ensures n == k
  {
    hide PairedBy, Utf8.TrimStart, Utf8.TrimEnd;
    PairedLength(text, r.start, n, k, r.end);
  }

  lemma SpanShows(text: seq<byte>, r: Region, n: nat, p: nat)
    requires PairedBy(text, r.start, n, r.end) && r.start + n <= r.end - n <= |text|
    ensures var m := SpanMove(text, r.start, r.end - n, n); Shows(text, r, p) <==> m.lo <= p < m.hi
  {
    hide PairedBy, ShowsBy, SpanMove;
    ShowsByMove(text, r, n, p);
    if k: nat :| ShowsBy(text, r, k, p) { ShowsByPair(text, r, n, k, p); }
  }

  lemma SpanCopies(text: seq<byte>, rs: seq<Region>, r: Region, p: nat)
    requires Filled(rs, r) && r.kind == Span && r.start <= p < r.end <= |text|
    ensures Copied(text, rs, p) <==> Shows(text, r, p)
  {
    hide Shows, Escapes, Escaped;
  }

  // ----- Every step -----

  /** What the scan needs to know of the brackets: whether one is open. */
  ghost predicate Agrees(text: seq<byte>, rs: seq<Region>, s: Scan) {
    && s.at < |text| && Poised(text, rs, s.at) && Ahead(text, rs, s.at, Decide(text, s))
    && (s.brackets == [] <==> Opens(text, rs, s.at) == [])
  }

  ghost predicate Told(text: seq<byte>, rs: seq<Region>, s: Scan)
    requires s.at < |text|
  {
    var m := Decide(text, s);
    Tells(text, rs, s.at, m) && forall r :: r in Jumped(text, s.at, m) ==> Fits(text, rs, r)
  }

  lemma TickStep(text: seq<byte>, rs: seq<Region>, s: Scan)
    requires Agrees(text, rs, s) && text[s.at] == 96
    ensures Told(text, rs, s)
  {
    hide CodeMove, SpanMove, PairedBy, IsRun, Tells, Poised, Clear, Filled, Decide, Opens;
    var i, m, end := s.at, Decide(text, s), RunEnd(text, s.at, TICK);
    TickDecides(text, s);
    CodeIsPaired(text, i);
    if m.next > end {
      SpanTells(text, rs, Region(Span, i, m.next), end - i);
    } else {
      TicksTell(text, rs, i, m.next);
    }
  }

  lemma TickDecides(text: seq<byte>, s: Scan)
    requires s.at < |text| && text[s.at] == 96
    ensures Decide(text, s) == CodeMove(text, s.at)
  {
    hide CodeMove;
  }

  lemma PipeStep(text: seq<byte>, rs: seq<Region>, s: Scan)
    requires Agrees(text, rs, s) && At(text, s.at, 124, 124)
    ensures Told(text, rs, s)
  {
    var i, m := s.at, Decide(text, s);
    assert m == PipeMove(text, i);
    PipeIs(text, i);
    hide PipeMove, Tells, Clear, Filled, Counted;
    if m.Hide? {
      JumpTells(text, rs, Region(Hidden, i, m.next), m);
    } else {
      forall r: Region | r.start == i ensures !Fits(text, rs, r) {
        PairedAreTicks(text, i, r.end);
        hide Paired;
      }
      PairTells(text, rs, i);
    }
  }

  lemma AngleStep(text: seq<byte>, rs: seq<Region>, s: Scan)
    requires Agrees(text, rs, s) && At(text, s.at, 62, 33)
    ensures Told(text, rs, s)
  {
    var i, m := s.at, Decide(text, s);
    assert m == AngleMove(text, i);
    NearestClose(text, i);
    AngleCopies(text, i);
    hide AngleMove, Tells, Clear, Filled, Poised;
    if m.Hide? {
      JumpTells(text, rs, Region(Hidden, i, m.next), m);
    } else {
      forall r: Region | r.start == i ensures !Fits(text, rs, r) {
        PairedAreTicks(text, i, r.end);
        hide Paired;
      }
      LiteralTells(text, rs, i);
    }
  }

  lemma AngleCopies(text: seq<byte>, i: nat)
    ensures !AngleMove(text, i).Hide? ==> AngleMove(text, i) == Copy(i, i + 2, i + 2)
  {
  }

  lemma TildeStep(text: seq<byte>, rs: seq<Region>, s: Scan)
    requires Agrees(text, rs, s) && At(text, s.at, 126, 126)
    ensures Told(text, rs, s)
  {
    hide Tells, Clear, Filled, Poised, Fits;
    forall r: Region | r.start == s.at ensures !Fits(text, rs, r) { NothingBegins(text, rs, r); }
    PairTells(text, rs, s.at);
  }

  lemma LinkStep(text: seq<byte>, rs: seq<Region>, s: Scan)
    requires Agrees(text, rs, s) && Decide(text, s).Link?
    ensures Told(text, rs, s)
  {
    var i, m := s.at, Decide(text, s);
    LinkIs(text, s);
    hide Tells, Filled, Decide;
    JumpTells(text, rs, Region(Target, i, m.next), m);
  }

  lemma LinkIs(text: seq<byte>, s: Scan)
    requires s.at < |text|
    ensures Decide(text, s).Link? <==>
              At(text, s.at, 93, 40) && s.brackets != [] && exists c :: s.at + 2 <= c < |text| && text[c] == 41
    ensures Decide(text, s).Link? ==>
              var end := Decide(text, s).next;
              && s.at + 2 < end <= |text| && text[end - 1] == 41
              && forall d :: s.at + 2 <= d < end - 1 ==> text[d] != 41
  {
    OnlyBracketsLink(text, s);
    hide CodeMove, PipeMove, AngleMove, EmphasisMove;
  }

  lemma OnlyBracketsLink(text: seq<byte>, s: Scan)
    requires s.at < |text|
    ensures Decide(text, s).Link? ==> text[s.at] == 93
  {
    if text[s.at] == 96 {
      TickDecides(text, s);
      CodeIsPaired(text, s.at);
      hide Decide, CodeMove;
    }
    hide CodeMove, Positions, FirstFrom, Literal, RunEnd;
  }

  /** A byte that none of the special cases takes. */
  lemma OtherStep(text: seq<byte>, rs: seq<Region>, s: Scan)
    requires Agrees(text, rs, s) && Decide(text, s) == Copy(s.at, s.at + 1, s.at + 1)
    requires text[s.at] !in {96, 42, 95, 91} && !At(text, s.at, 62, 33) && !At(text, s.at, 124, 124) && !At(text, s.at, 126, 126)
    requires !(text[s.at] == 92 && s.at + 1 < |text| && Mark(text[s.at + 1]))
    ensures Told(text, rs, s)
  {
    LinkIs(text, s);
    hide Tells, Filled, Decide, Poised;
    forall r: Region | r.start == s.at ensures !Fits(text, rs, r) {
      PairedAreTicks(text, s.at, r.end);
      hide Paired;
    }
    PlainTells(text, rs, s.at);
  }

  lemma StepIsTold(text: seq<byte>, rs: seq<Region>, s: Scan)
    requires Agrees(text, rs, s)
    ensures Told(text, rs, s)
  {
    var i, m := s.at, Decide(text, s);
    if i + 1 < |text| { MarkIs(text[i + 1]); }
    LinkIs(text, s);
    hide CodeMove, PipeMove, AngleMove, EmphasisMove, Tells, Fits, Mark, Punctuation, Opens, Clear, Filled, Poised;
    if text[i] == 92 && i + 1 < |text| && Mark(text[i + 1]) {
      EscapeTells(text, rs, i);
    } else if text[i] == 96 {
      TickStep(text, rs, s);
    } else if At(text, i, 124, 124) {
      PipeStep(text, rs, s);
    } else if At(text, i, 62, 33) {
      AngleStep(text, rs, s);
    } else if At(text, i, 126, 126) {
      TildeStep(text, rs, s);
    } else if text[i] == 42 || text[i] == 95 {
      EmphasisTells(text, rs, i);
    } else if text[i] == 91 {
      OpenTells(text, rs, i, m.image);
    } else if m.Link? {
      LinkStep(text, rs, s);
    } else {
      OtherStep(text, rs, s);
    }
  }
}
