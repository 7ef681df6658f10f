/** The one-pass scanner: tables, cursors and a deletion stack compute the projection. */
module MarkdownScanner {
  import opened Common
  import opened MarkdownTables
  import opened Markdown
  import opened MarkdownProvenance
  import Utf8

  datatype Tables = Tables(
    runs: seq<TickRun>,
    starts: seq<nat>,
    codeClose: seq<Option<nat>>,
    nextParen: seq<Option<nat>>,
    pipes: seq<nat>,
    closes: seq<nat>
  )

  ghost predicate TablesOf(text: seq<byte>, t: Tables) {
    && t.runs == Runs(text, 0) && t.starts == Starts(t.runs)
    && |t.codeClose| == |t.runs|
    && (forall k :: 0 <= k < |t.runs| ==> t.codeClose[k] == NextOfLength(t.runs, k + 1, t.runs[k].len))
    && |t.nextParen| == |text| + 1
    && (forall j :: 0 <= j <= |text| ==> t.nextParen[j] == NextParen(text, j))
    && t.pipes == Positions(text, PIPE, PIPE, 0) && t.closes == Positions(text, BANG, LESS, 0)
  }

  method BuildTables(text: seq<byte>) returns (t: Tables)
    ensures TablesOf(text, t)
  {
    var runs := ScanRuns(text);
    var codeClose := CloseTable(runs);
    var nextParen := ParenTable(text);
    var pipes := FindPositions(text, PIPE, PIPE);
    var closes := FindPositions(text, BANG, LESS);
    t := Tables(runs, Starts(runs), codeClose, nextParen, pipes, closes);
  }

  // ----- Cursors -----

  datatype Cursors = Cursors(run: nat, pipe: nat, close: nat)

  ghost predicate Passed(list: seq<nat>, cursor: nat, x: nat) {
    cursor <= |list| && forall m :: 0 <= m < cursor ==> list[m] < x
  }

  ghost predicate Behind(t: Tables, c: Cursors, at: nat) {
    Passed(t.starts, c.run, at) && Passed(t.pipes, c.pipe, at) && Passed(t.closes, c.close, at)
  }

  function Walked(c: Cursors): nat { c.run + c.pipe + c.close }

  /** Where the cursors stand once the move at `i` is chosen: only the one that is asked has advanced. */
  function Moved(text: seq<byte>, c: Cursors, i: nat): Cursors
    requires i < |text|
  {
    if text[i] == BACKSLASH && i + 1 < |text| && Punctuation(text[i + 1]) then c
    else if text[i] == TICK then c.(run := FirstFrom(Starts(Runs(text, 0)), i, 0))
    else if At(text, i, PIPE, PIPE) then c.(pipe := FirstFrom(Positions(text, PIPE, PIPE, 0), i, 0))
    else if At(text, i, GREATER, BANG) then c.(close := FirstFrom(Positions(text, BANG, LESS, 0), i + 2, 0))
    else c
  }

  function Distance(a: nat, b: nat): nat { if a <= b then b - a else a - b }

  /** How many places the cursors move over, in either direction. */
  function Travel(c: Cursors, d: Cursors): nat {
    Distance(c.run, d.run) + Distance(c.pipe, d.pipe) + Distance(c.close, d.close)
  }

  /** The steps of the scan from here on, and every place the cursors move over. */
  function Work(text: seq<byte>, s: Scan, c: Cursors): nat
    decreases |text| - s.at
  {
    if s.at >= |text| then 0
    else
      var d := Moved(text, c, s.at);
      1 + Travel(c, d) + Work(text, Step(text, s), d)
  }

  const FRONT: Cursors := Cursors(0, 0, 0)

  lemma CodeTables(text: seq<byte>, t: Tables)
    requires TablesOf(text, t)
    ensures t.runs == Runs(text, 0) && t.starts == Starts(t.runs) && |t.codeClose| == |t.runs|
  {
  }

  lemma CloseEntry(text: seq<byte>, t: Tables, k: nat)
    requires TablesOf(text, t) && k < |t.runs|
    ensures |t.codeClose| == |t.runs| && t.codeClose[k] == NextOfLength(t.runs, k + 1, t.runs[k].len)
  {
  }

  lemma RunPassed(t: Tables, c: Cursors, at: nat, run: nat)
    requires Behind(t, c, at) && c.run <= run == FirstFrom(t.starts, at, 0)
    ensures Behind(t, c.(run := run), at)
  {
  }

  lemma BehindRun(t: Tables, c: Cursors, at: nat)
    requires Behind(t, c, at)
    ensures c.run <= |t.starts| && forall m :: 0 <= m < c.run ==> t.starts[m] < at
  {
  }

  method ChooseCode(text: seq<byte>, t: Tables, c: Cursors, i: nat) returns (m: Move, d: Cursors)
    requires TablesOf(text, t) && Behind(t, c, i) && i < |text| && text[i] == TICK
    ensures m == CodeMove(text, i) && d == c.(run := FirstFrom(Starts(Runs(text, 0)), i, 0)) && Behind(t, d, i)
  {
    hide TablesOf, Behind, Runs, NextOfLength, FirstFrom, Utf8.TrimStart, Utf8.TrimEnd, Utf8.Leading, Utf8.Trailing;
    CodeTables(text, t);
    BehindRun(t, c, i);
    var run := Advance(t.starts, c.run, i);
    RunPassed(t, c, i, run);
    d := c.(run := run);
    if run == |t.runs| || t.runs[run].start != i {
      return Copy(i, i, i + 1), d;
    }
    RunAlone(text, run);
    CloseEntry(text, t, run);
    var len := t.runs[run].len;
    match t.codeClose[run] {
      case None => m := Copy(i, i, i + len);
      case Some(end) =>
        NearestOfLength(t.runs, run + 1, len);
        RunPair(text, run, end);
        var lo := Utf8.TrimStart(text, i + len, t.runs[end].start);
        m := Copy(lo, Utf8.TrimEnd(text, lo, t.runs[end].start), t.runs[end].start + len);
    }
  }

  method ChoosePipe(text: seq<byte>, t: Tables, c: Cursors, i: nat) returns (m: Move, d: Cursors)
    requires TablesOf(text, t) && Behind(t, c, i)
    ensures m == PipeMove(text, i) && d == c.(pipe := FirstFrom(Positions(text, PIPE, PIPE, 0), i, 0)) && Behind(t, d, i)
  {
    var pipe := Advance(t.pipes, c.pipe, i);
    d := c.(pipe := pipe);
    if pipe + 1 < |t.pipes| && t.pipes[pipe] == i {
      return Hide(t.pipes[pipe + 1] + 2), d;
    }
    return Copy(i, i, i + 2), d;
  }

  method ChooseAngle(text: seq<byte>, t: Tables, c: Cursors, i: nat) returns (m: Move, d: Cursors)
    requires TablesOf(text, t) && Behind(t, c, i)
    ensures m == AngleMove(text, i) && d == c.(close := FirstFrom(Positions(text, BANG, LESS, 0), i + 2, 0))
    ensures Behind(t, d, Landing(i, m))
  {
    var close := Advance(t.closes, c.close, i + 2);
    d := c.(close := close);
    if close < |t.closes| {
      return Hide(t.closes[close] + 2), d;
    }
    return Copy(i, i + 2, i + 2), d;
  }

  method ChooseEmphasis(text: seq<byte>, i: nat) returns (m: Move)
    requires i < |text|
    ensures m == EmphasisMove(text, i)
  {
    var end := SkipRun(text, i, text[i]);
    if Literal(text, i, end) {
      return Copy(i, end, end);
    }
    return Copy(i, i, end);
  }

  method Choose(text: seq<byte>, t: Tables, c: Cursors, i: nat, buf: seq<byte>, brackets: seq<nat>, ghost s: Scan)
    returns (m: Move, d: Cursors)
    requires TablesOf(text, t) && Behind(t, c, i) && i < |text|
    requires s.at == i && s.buf == buf && s.brackets == brackets
    ensures m == Decide(text, s) && InBounds(text, s.at, m)
    ensures Behind(t, d, Landing(s.at, m)) && d == Moved(text, c, i)
  {
    hide Behind, TablesOf, CodeMove, PipeMove, AngleMove, EmphasisMove, Runs, FirstFrom, Positions;
    d := c;
    DecidesInBounds(text, s);
    if text[i] == BACKSLASH && i + 1 < |text| && Punctuation(text[i + 1]) {
      m := Copy(i + 1, i + 2, i + 2);
    } else if text[i] == TICK {
      m, d := ChooseCode(text, t, c, i);
    } else if text[i] == PIPE && i + 1 < |text| && text[i + 1] == PIPE {
      m, d := ChoosePipe(text, t, c, i);
    } else if text[i] == GREATER && i + 1 < |text| && text[i + 1] == BANG {
      m, d := ChooseAngle(text, t, c, i);
      return;
    } else if text[i] == TILDE && i + 1 < |text| && text[i + 1] == TILDE {
      m := Copy(i, i, i + 2);
    } else if text[i] == STAR || text[i] == UNDERSCORE {
      m := ChooseEmphasis(text, i);
    } else if text[i] == OPEN_BRACKET {
      m := Open(i > 0 && text[i - 1] == BANG && buf != [] && buf[|buf| - 1] == BANG);
    } else {
      m := ChooseRest(text, t, i, brackets);
    }
    BehindLater(t, d, i, Landing(i, m));
  }

  method ChooseRest(text: seq<byte>, t: Tables, i: nat, brackets: seq<nat>) returns (m: Move)
    requires TablesOf(text, t) && i < |text|
    ensures m == if At(text, i, CLOSE_BRACKET, OPEN_PAREN) && brackets != [] && NextParen(text, i + 2).Some?
                 then Link(NextParen(text, i + 2).value + 1) else Copy(i, i + 1, i + 1)
  {
    if text[i] == CLOSE_BRACKET && i + 1 < |text| && text[i + 1] == OPEN_PAREN && brackets != [] {
      match t.nextParen[i + 2]
      case Some(end) => return Link(end + 1);
      case None =>
    }
    return Copy(i, i + 1, i + 1);
  }

  lemma BehindLater(t: Tables, c: Cursors, x: nat, y: nat)
    requires Behind(t, c, x) && x <= y
    ensures Behind(t, c, y)
  {
  }

  lemma {:induction false} FewRuns(text: seq<byte>, i: nat)
    ensures |Runs(text, i)| <= if i <= |text| then |text| - i else 0
    decreases |text| - i
  {
    if i < |text| {
      if text[i] == BACKSLASH { FewRuns(text, i + 2); }
      else if text[i] == TICK { FewRuns(text, RunEnd(text, i, TICK)); }
      else { FewRuns(text, i + 1); }
    }
  }

  lemma {:induction false} FewPositions(text: seq<byte>, p: byte, q: byte, i: nat)
    ensures |Positions(text, p, q, i)| <= if i <= |text| then |text| - i else 0
    decreases |text| - i
  {
    if i + 1 < |text| {
      if At(text, i, p, q) { FewPositions(text, p, q, i + 2); } else { FewPositions(text, p, q, i + 1); }
    }
  }

  /** Every cursor has passed only entries before `at`. */
  ghost predicate Trails(text: seq<byte>, c: Cursors, at: nat) {
    && Passed(Starts(Runs(text, 0)), c.run, at)
    && Passed(Positions(text, PIPE, PIPE, 0), c.pipe, at) && Passed(Positions(text, BANG, LESS, 0), c.close, at)
  }

  lemma TrailsWithin(text: seq<byte>, c: Cursors, at: nat)
    requires Trails(text, c, at)
    ensures Walked(c) <= 3 * |text|
  {
    FewRuns(text, 0);
    FewPositions(text, PIPE, PIPE, 0);
    FewPositions(text, BANG, LESS, 0);
  }

  lemma PassesOn(list: seq<nat>, cursor: nat, x: nat, y: nat, z: nat)
    requires Passed(list, cursor, x) && x <= y <= z
    ensures Passed(list, cursor, z) && cursor <= FirstFrom(list, y, 0) && Passed(list, FirstFrom(list, y, 0), z)
  {
  }

  /** The cursors only move forward, and stay behind the next step. */
  lemma MovesForward(text: seq<byte>, s: Scan, c: Cursors)
    requires s.at < |text| && Trails(text, c, s.at)
    ensures var d := Moved(text, c, s.at); Trails(text, d, Step(text, s).at) && Travel(c, d) == Walked(d) - Walked(c)
  {
    var i := s.at;
    LandsPast(text, s);
    var next := Step(text, s).at;
    hide Step, Decide, Passed, FirstFrom, Runs, Positions;
    PassesOn(Starts(Runs(text, 0)), c.run, i, i, next);
    PassesOn(Positions(text, PIPE, PIPE, 0), c.pipe, i, i, next);
    if At(text, i, GREATER, BANG) {
      PassesOn(Positions(text, BANG, LESS, 0), c.close, i, i + 2, next);
    } else {
      PassesOn(Positions(text, BANG, LESS, 0), c.close, i, i, next);
    }
  }

  /** An inline spoiler mark is never split. */
  lemma LandsPast(text: seq<byte>, s: Scan)
    requires s.at < |text|
    ensures s.at < Step(text, s).at && (At(text, s.at, GREATER, BANG) ==> s.at + 2 <= Step(text, s).at)
  {
    DecidesInBounds(text, s);
  }

  /** One pass: at most one step for every byte, and three lists walked once. */
  lemma {:induction false} WorkIsShort(text: seq<byte>, s: Scan, c: Cursors)
    requires s.at <= |text| && Trails(text, c, s.at)
    ensures Work(text, s, c) <= |text| - s.at + 3 * |text| - Walked(c)
    decreases |text| - s.at
  {
    if s.at < |text| {
      MovesForward(text, s, c);
      hide Step, Moved, Trails, Travel, Walked;
      WorkIsShort(text, Step(text, s), Moved(text, c, s.at));
    } else {
      TrailsWithin(text, c, s.at);
    }
  }

  lemma WorkIsLinear(text: seq<byte>)
    ensures Work(text, START, FRONT) <= 4 * |text|
  {
    WorkIsShort(text, START, FRONT);
  }

  // ----- The deleted indices, in order -----

  ghost predicate Ascending(s: seq<nat>) { forall i, j :: 0 <= i < j < |s| ==> s[i] < s[j] }

  method InsertInOrder(sorted: seq<nat>, x: nat) returns (r: seq<nat>)
    requires Ascending(sorted) && x !in sorted
    ensures Ascending(r) && forall y :: y in r <==> y == x || y in sorted
  {
    var at := |sorted|;
    while at > 0 && sorted[at - 1] > x
      invariant 0 <= at <= |sorted| && forall k :: at <= k < |sorted| ==> sorted[k] > x
    {
      at := at - 1;
    }
    assert forall k :: 0 <= k < at ==> sorted[k] in sorted && sorted[k] < x;
    r := sorted[..at] + [x] + sorted[at..];
  }

  method SortDeleted(deleted: seq<nat>) returns (sorted: seq<nat>)
    requires forall i, j :: 0 <= i < j < |deleted| ==> deleted[i] != deleted[j]
    ensures Ascending(sorted) && forall y :: y in sorted <==> y in deleted
  {
    sorted := [];
    var i := 0;
    while i < |deleted|
      invariant 0 <= i <= |deleted| && Ascending(sorted)
      invariant forall y :: y in sorted <==> y in deleted[..i]
    {
      assert deleted[..i + 1] == deleted[..i] + [deleted[i]];
      sorted := InsertInOrder(sorted, deleted[i]);
      i := i + 1;
    }
    assert deleted[..i] == deleted;
  }

  /** Walking the buffer beside the sorted indices drops exactly those. */
  method DropDeleted(buf: seq<byte>, deleted: seq<nat>) returns (kept: seq<byte>)
    requires forall i, j :: 0 <= i < j < |deleted| ==> deleted[i] != deleted[j]
    ensures kept == Keep(buf, deleted)
  {
    var skip := SortDeleted(deleted);
    kept := [];
    var index, peek := 0, 0;
    while index < |buf|
      invariant 0 <= index <= |buf| && peek <= |skip|
      invariant kept == Keep(buf[..index], deleted)
      invariant forall k :: 0 <= k < peek ==> skip[k] < index
      invariant forall k :: peek <= k < |skip| ==> skip[k] >= index
    {
      assert buf[..index + 1][..index] == buf[..index];
      assert index in skip <==> peek < |skip| && skip[peek] == index;
      if peek < |skip| && skip[peek] == index {
        peek := peek + 1;
      } else {
        kept := kept + [buf[index]];
      }
      index := index + 1;
    }
    assert buf[..index] == buf;
  }

  // ----- The scan -----

  method Write(text: seq<byte>, i: nat, buf: seq<byte>, brackets: seq<nat>, deleted: seq<nat>, m: Move, ghost s: Scan)
    returns (next: nat, wider: seq<byte>, open: seq<nat>, gone: seq<nat>)
    requires i < |text| && InBounds(text, i, m) && (m.Link? ==> brackets != []) && (m.Open? && m.image ==> buf != [])
    requires s.at == i && s.buf == buf && s.brackets == brackets && s.deleted == deleted
    ensures var u := Apply(text, s, m); u.at == next && u.buf == wider && u.brackets == open && u.deleted == gone
  {
    wider, open, gone := buf, brackets, deleted;
    match m {
      case Copy(lo, hi, after) =>
        wider := buf + text[lo..hi];
        next := after;
      case Hide(after) =>
        wider := buf + SPOILER;
        next := after;
      case Open(image) =>
        if image {
          open := open + [|buf| - 1];
        }
        open := open + [|buf|];
        wider := buf + [text[i]];
        next := i + 1;
      case Link(after) =>
        var n := |open|;
        var bracket := open[n - 1];
        gone := gone + [bracket];
        if n > 1 && open[n - 2] + 1 == bracket && open[n - 2] < |buf| && buf[open[n - 2]] == BANG {
          gone := gone + [open[n - 2]];
          open := open[..n - 2];
        } else {
          open := open[..n - 1];
        }
        next := after;
    }
  }

  ghost predicate Scanning(text: seq<byte>, t: Tables, c: Cursors, s: Scan, work: nat) {
    && s.at <= |text| && Traced(text, s) && Stacked(s) && Finish(text, s) == Finish(text, START)
    && Behind(t, c, s.at) && work + Work(text, s, c) == Work(text, START, FRONT)
  }

  lemma ScanStarts(text: seq<byte>, t: Tables)
    ensures Scanning(text, t, FRONT, START, 0)
  {
    StartTraced(text);
  }

  lemma ScanContinues(text: seq<byte>, t: Tables, c: Cursors, d: Cursors, s: Scan, work: nat)
    requires Scanning(text, t, c, s, work) && s.at < |text|
    requires Behind(t, d, Landing(s.at, Decide(text, s))) && d == Moved(text, c, s.at)
    ensures Scanning(text, t, d, Step(text, s), work + 1 + Travel(c, d))
  {
    WorkUnfolds(text, s, c);
    DecidesInBounds(text, s);
    hide Moved, Work, Decide;
    StepTraces(text, s);
    StepStacks(text, s);
  }

  lemma WorkUnfolds(text: seq<byte>, s: Scan, c: Cursors)
    requires s.at < |text|
    ensures var d := Moved(text, c, s.at);
            Work(text, s, c) == 1 + Travel(c, d) + Work(text, Step(text, s), d)
  {
  }

  lemma ScanEnds(text: seq<byte>, t: Tables, c: Cursors, s: Scan, work: nat)
    requires TablesOf(text, t) && Scanning(text, t, c, s, work) && s.at >= |text|
    ensures s == Finish(text, START) && work == Work(text, START, FRONT)
    ensures forall i, j :: 0 <= i < j < |s.deleted| ==> s.deleted[i] != s.deleted[j]
  {
  }

  /** One pass over the text; `work` counts its steps and every cursor movement. */
  method PushInline(out: seq<byte>, text: seq<byte>) returns (result: seq<byte>, ghost work: nat)
    ensures result == out + Project(text)
    ensures work == Work(text, START, FRONT) <= 4 * |text|
  {
    hide Scanning, TablesOf, Finish, Keep, Work;
    var t := BuildTables(text);
    var i, buf, brackets, deleted, c := 0, [], [], [], FRONT;
    ghost var s := START;
    work := 0;
    ScanStarts(text, t);
    while i < |text|
      invariant Scanning(text, t, c, s, work)
      invariant s.at == i && s.buf == buf && s.brackets == brackets && s.deleted == deleted
      decreases |text| - i
    {
      i, buf, brackets, deleted, c, s, work := ScanOne(text, t, i, buf, brackets, deleted, c, s, work);
    }
    ScanEnds(text, t, c, s, work);
    WorkIsLinear(text);
    var kept := DropDeleted(buf, deleted);
    result := out + kept;
    ProjectIs(text);
  }

  lemma ProjectIs(text: seq<byte>)
    ensures Project(text) == Keep(Finish(text, START).buf, Finish(text, START).deleted)
  {
  }

  method ScanOne(
    text: seq<byte>, t: Tables, i: nat, buf: seq<byte>, brackets: seq<nat>, deleted: seq<nat>, c: Cursors,
    ghost s: Scan, ghost work: nat)
    returns (next: nat, wider: seq<byte>, open: seq<nat>, gone: seq<nat>, d: Cursors, ghost u: Scan, ghost done: nat)
    requires TablesOf(text, t) && Scanning(text, t, c, s, work) && i < |text|
    requires s.at == i && s.buf == buf && s.brackets == brackets && s.deleted == deleted
    ensures i < next && Scanning(text, t, d, u, done)
    ensures u.at == next && u.buf == wider && u.brackets == open && u.deleted == gone
  {
    hide TablesOf, Traced, Stacked, Finish;
    var m;
    m, d := Choose(text, t, c, i, buf, brackets, s);
    done := work + 1 + Travel(c, d);
    ScanContinues(text, t, c, d, s, work);
    u := Step(text, s);
    next, wider, open, gone := Write(text, i, buf, brackets, deleted, m, s);
  }
}
