/** The inline Markdown scanner: what it decides at each position, and what its output is made of. */
module Markdown {
  import opened Common
  import opened MarkdownTables
  import Utf8

  const BANG: byte := 33
  const STAR: byte := 42
  const OPEN_PAREN: byte := 40
  const LESS: byte := 60
  const GREATER: byte := 62
  const OPEN_BRACKET: byte := 91
  const CLOSE_BRACKET: byte := 93
  const UNDERSCORE: byte := 95
  const PIPE: byte := 124
  const TILDE: byte := 126

  /** The bytes of "[Spoiler]". */
  const SPOILER: seq<byte> := [91, 83, 112, 111, 105, 108, 101, 114, 93]

  predicate Punctuation(b: byte) { 33 <= b <= 47 || 58 <= b <= 64 || 91 <= b <= 96 || 123 <= b <= 126 }

  predicate Alphanumeric(b: byte) { 48 <= b <= 57 || 65 <= b <= 90 || 97 <= b <= 122 }

  predicate Blank(b: byte) { b == 32 || b == 9 || b == 10 || b == 12 || b == 13 }

  // ----- One step -----

  /**
   * The scanner between two steps. `from` says for every byte of `buf` which
   * input byte it is, or `-1 - j` for byte `j` of an inserted marker; `hidden`
   * lists the spans replaced by a marker.
   */
  datatype Scan = Scan(
    at: nat,
    buf: seq<byte>,
    from: seq<int>,
    hidden: seq<(nat, nat)>,
    brackets: seq<nat>,
    deleted: seq<nat>
  )

  const START: Scan := Scan(0, [], [], [], [], [])

  /** Copy a stretch of input, hide one, open a bracket (perhaps with its bang), or drop a link target. */
  datatype Move = Copy(lo: nat, hi: nat, next: nat) | Hide(next: nat) | Open(image: bool) | Link(next: nat)

  /** Where the scanner goes on. */
  function Landing(at: nat, m: Move): nat { if m.Open? then at + 1 else m.next }

  /** What stands between two runs of `len` backticks, trimmed. */
  function SpanMove(text: seq<byte>, i: nat, end: nat, len: nat): Move
    requires i + len <= end <= |text|
  {
    var lo := Utf8.TrimStart(text, i + len, end);
    Copy(lo, Utf8.TrimEnd(text, lo, end), end + len)
  }

  /** A code span loses its delimiters and the white space inside them. */
  function CodeMove(text: seq<byte>, i: nat): Move
    requires i < |text| && text[i] == TICK
  {
    var runs := Runs(text, 0);
    RunsAreApart(text, 0);
    var k := FirstFrom(Starts(runs), i, 0);
    if k == |runs| || runs[k].start != i then Copy(i, i, i + 1)
    else
      var len := runs[k].len;
      NearestOfLength(runs, k + 1, len);
      match NextOfLength(runs, k + 1, len)
      case None => Copy(i, i, i + len)
      case Some(e) => SpanMove(text, i, runs[e].start, len)
  }

  /** The run at `i` and the one that closes it, when there are both. */
  ghost predicate Closes(text: seq<byte>, i: nat, k: nat, e: nat) {
    && k == FirstFrom(Starts(Runs(text, 0)), i, 0) && k < e < |Runs(text, 0)| && Runs(text, 0)[k].start == i
    && NextOfLength(Runs(text, 0), k + 1, Runs(text, 0)[k].len) == Some(e)
  }

  lemma CodeIs(text: seq<byte>, i: nat, k: nat, e: nat)
    requires i < |text| && text[i] == TICK && Closes(text, i, k, e)
    ensures k < e < |Runs(text, 0)|
    ensures var r, q := Runs(text, 0)[k], Runs(text, 0)[e];
            && r.start == i && 0 < r.len == q.len && i + r.len <= q.start && q.start + r.len <= |text|
            && text[i + r.len - 1] == text[q.start] == text[q.start + r.len - 1] == TICK
            && CodeMove(text, i) == SpanMove(text, i, q.start, r.len)
  {
    RunPair(text, k, e);
    NearestOfLength(Runs(text, 0), k + 1, Runs(text, 0)[k].len);
    hide Runs, SpanMove, NextOfLength, FirstFrom;
  }

  function PipeMove(text: seq<byte>, i: nat): Move {
    var pipes := Positions(text, PIPE, PIPE, 0);
    var p := FirstFrom(pipes, i, 0);
    if p + 1 < |pipes| && pipes[p] == i then Hide(pipes[p + 1] + 2) else Copy(i, i, i + 2)
  }

  function AngleMove(text: seq<byte>, i: nat): Move {
    var closes := Positions(text, BANG, LESS, 0);
    var c := FirstFrom(closes, i + 2, 0);
    if c < |closes| then Hide(closes[c] + 2) else Copy(i, i + 2, i + 2)
  }

  /** An inline `>!` spoiler ends at the nearest `!<`, and is literal only when there is none. */
  lemma NearestClose(text: seq<byte>, i: nat)
    ensures AngleMove(text, i).Hide? <==> exists c :: i + 2 <= c && At(text, c, BANG, LESS)
    ensures AngleMove(text, i).Hide? ==>
              var end := AngleMove(text, i).next - 2;
              i + 2 <= end && At(text, end, BANG, LESS) && forall c :: i + 2 <= c < end ==> !At(text, c, BANG, LESS)
  {
    var closes := Positions(text, BANG, LESS, 0);
    var first := FirstFrom(closes, i + 2, 0);
    forall c | i + 2 <= c && At(text, c, BANG, LESS)
      ensures first < |closes| && closes[first] <= c
    {
      EveryOccurrenceFound(text, BANG, LESS, 0, c);
      var k :| 0 <= k < |closes| && closes[k] == c;
      assert k >= first;
    }
  }

  /** Emphasis stays when it stands inside a word (`_`) or alone between blanks (`*`). */
  predicate Literal(text: seq<byte>, start: nat, end: nat)
    requires start < end <= |text|
  {
    if text[start] == UNDERSCORE then
      start > 0 && Alphanumeric(text[start - 1]) && end < |text| && Alphanumeric(text[end])
    else
      !(start > 0 && !Blank(text[start - 1])) && !(end < |text| && !Blank(text[end]))
  }

  function EmphasisMove(text: seq<byte>, i: nat): Move
    requires i < |text|
  {
    var end := RunEnd(text, i, text[i]);
    Copy(i, if Literal(text, i, end) then end else i, end)
  }

  function Decide(text: seq<byte>, s: Scan): Move
    requires s.at < |text|
  {
    var i := s.at;
    if text[i] == BACKSLASH && i + 1 < |text| && Punctuation(text[i + 1]) then Copy(i + 1, i + 2, i + 2)
    else if text[i] == TICK then CodeMove(text, i)
    else if At(text, i, PIPE, PIPE) then PipeMove(text, i)
    else if At(text, i, GREATER, BANG) then AngleMove(text, i)
    else if At(text, i, TILDE, TILDE) then Copy(i, i, i + 2)
    else if text[i] == STAR || text[i] == UNDERSCORE then EmphasisMove(text, i)
    else if text[i] == OPEN_BRACKET then
      Open(i > 0 && text[i - 1] == BANG && s.buf != [] && s.buf[|s.buf| - 1] == BANG)
    else if At(text, i, CLOSE_BRACKET, OPEN_PAREN) && s.brackets != [] && NextParen(text, i + 2).Some? then
      Link(NextParen(text, i + 2).value + 1)
    else Copy(i, i + 1, i + 1)
  }

  predicate InBounds(text: seq<byte>, at: nat, m: Move) {
    match m
    case Copy(lo, hi, next) => at <= lo <= hi <= next <= |text| && at < next
    case Hide(next) => at + 4 <= next <= |text|
    case Open(_) => at < |text|
    case Link(next) => at < next <= |text|
  }

  /** Every slice the scanner takes lies inside the input, ahead of what it has read. */
  lemma DecidesInBounds(text: seq<byte>, s: Scan)
    requires s.at < |text|
    ensures InBounds(text, s.at, Decide(text, s))
  {
    var i := s.at;
    if text[i] == TICK {
      var runs := Runs(text, 0);
      var k := FirstFrom(Starts(runs), i, 0);
      if k < |runs| {
        RunAlone(text, k);
        NearestOfLength(runs, k + 1, runs[k].len);
        var close := NextOfLength(runs, k + 1, runs[k].len);
        if close.Some? { RunPair(text, k, close.value); }
      }
    }
  }

  function Offsets(lo: nat, hi: nat): (r: seq<int>)
    requires lo <= hi
    ensures |r| == hi - lo && forall k :: 0 <= k < hi - lo ==> r[k] == lo + k
  {
    seq(hi - lo, k requires 0 <= k < hi - lo => lo + k)
  }

  function Marked(): (r: seq<int>)
    ensures |r| == |SPOILER| && forall k :: 0 <= k < |r| ==> r[k] == -1 - k
  {
    seq(|SPOILER|, k => -1 - k)
  }

  /** The indices a closing bracket deletes: its opening bracket, and the bang right before it. */
  function Closing(s: Scan): seq<nat>
    requires s.brackets != []
  {
    var n := |s.brackets|;
    var open := s.brackets[n - 1];
    if n > 1 && s.brackets[n - 2] + 1 == open && s.brackets[n - 2] < |s.buf| && s.buf[s.brackets[n - 2]] == BANG
    then [open, s.brackets[n - 2]] else [open]
  }

  function Apply(text: seq<byte>, s: Scan, m: Move): Scan
    requires s.at < |text| && InBounds(text, s.at, m) && (m.Link? ==> s.brackets != [])
    requires m.Open? && m.image ==> s.buf != []
  {
    match m
    case Copy(lo, hi, next) => s.(at := next, buf := s.buf + text[lo..hi], from := s.from + Offsets(lo, hi))
    case Hide(next) =>
      s.(at := next, buf := s.buf + SPOILER, from := s.from + Marked(), hidden := s.hidden + [(s.at, next)])
    case Open(image) =>
      s.(at := s.at + 1, buf := s.buf + [text[s.at]], from := s.from + [s.at],
         brackets := s.brackets + (if image then [|s.buf| - 1] else []) + [|s.buf|])
    case Link(next) =>
      var gone := Closing(s);
      s.(at := next, brackets := s.brackets[..|s.brackets| - |gone|], deleted := s.deleted + gone)
  }

  function Step(text: seq<byte>, s: Scan): (t: Scan)
    requires s.at < |text|
    ensures s.at < t.at <= |text|
  {
    DecidesInBounds(text, s);
    Apply(text, s, Decide(text, s))
  }

  function Finish(text: seq<byte>, s: Scan): Scan
    decreases |text| - s.at
  {
    if s.at >= |text| then s else Finish(text, Step(text, s))
  }

  /** What is left once the bytes at the dead indices are dropped. */
  function Keep<T>(s: seq<T>, dead: seq<nat>): seq<T> {
    if s == [] then []
    else Keep(s[..|s| - 1], dead) + if |s| - 1 in dead then [] else [s[|s| - 1]]
  }

  function Project(text: seq<byte>): seq<byte> {
    var s := Finish(text, START);
    Keep(s.buf, s.deleted)
  }
}
