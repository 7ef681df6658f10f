/** The line loop around the inline scanner: fences, block spoilers, quotes, headings and bullets. */
module MarkdownLines {
  import opened Common
  import opened Markdown
  import MarkdownScanner
  import MarkdownUtf8
  import Utf8

  type Line = seq<byte>

  const LINE_FEED: byte := 10
  const CARRIAGE_RETURN: byte := 13
  const HASH: byte := 35

  /** A bullet and a space, in UTF-8. */
  const BULLET: seq<byte> := [0xE2, 0x80, 0xA2, 0x20]

  // ----- Lines of the input -----

  function EndOfLine(s: seq<byte>, i: nat): (end: nat)
    requires i <= |s|
    ensures i <= end <= |s| && (end < |s| ==> s[end] == LINE_FEED)
    ensures forall k :: i <= k < end ==> s[k] != LINE_FEED
    decreases |s| - i
  {
    if i < |s| && s[i] != LINE_FEED then EndOfLine(s, i + 1) else i
  }

  /** A line ends at a line feed, which takes a carriage return before it along. */
  function Lines(s: seq<byte>): seq<Line>
    decreases |s|
  {
    if s == [] then []
    else
      var end := EndOfLine(s, 0);
      if end == |s| then [s]
      else if end > 0 && s[end - 1] == CARRIAGE_RETURN then [s[..end - 1]] + Lines(s[end + 1..])
      else [s[..end]] + Lines(s[end + 1..])
  }

  // ----- One line -----

  function Trimmed(s: seq<byte>): seq<byte> { s[Utf8.TrimStart(s, 0, |s|)..] }

  function TrimmedBoth(s: seq<byte>): seq<byte> {
    var lo := Utf8.TrimStart(s, 0, |s|);
    s[lo..Utf8.TrimEnd(s, lo, |s|)]
  }

  function FenceMarker(line: Line): Option<byte> {
    if |line| >= 3 && (line[0] == 96 || line[0] == TILDE) && line[1] == line[0] && line[2] == line[0]
    then Some(line[0]) else None
  }

  /** Starts with `>!` and has no inline close: the whole line is a spoiler. */
  ghost predicate BlockSpoiler(line: Line) {
    && |line| >= 2 && line[0] == GREATER && line[1] == BANG
    && forall i :: 0 <= i < |line| - 1 ==> !(line[i] == BANG && line[i + 1] == LESS)
  }

  method IsBlockSpoiler(line: Line) returns (yes: bool)
    ensures yes <==> BlockSpoiler(line)
  {
    if |line| < 2 || line[0] != GREATER || line[1] != BANG {
      return false;
    }
    for i := 0 to |line| - 1
      invariant forall k :: 0 <= k < i ==> !(line[k] == BANG && line[k + 1] == LESS)
    {
      if line[i] == BANG && line[i + 1] == LESS {
        return false;
      }
    }
    return true;
  }

  predicate Rule(b: byte) { b == 45 || b == STAR || b == UNDERSCORE }

  function CountOf(line: Line, b: byte): nat {
    if line == [] then 0 else CountOf(line[..|line| - 1], b) + if line[|line| - 1] == b then 1 else 0
  }

  /** At least three of one rule character, and otherwise only spaces and tabs. */
  ghost predicate ThematicBreak(line: Line) {
    exists m: byte :: Rule(m) && CountOf(line, m) >= 3 && forall k :: 0 <= k < |line| ==> line[k] in {m, 32, 9}
  }

  method IsThematicBreak(line: Line) returns (yes: bool)
    ensures yes <==> ThematicBreak(line)
  {
    var marker: Option<byte> := None;
    var count := 0;
    for i := 0 to |line|
      invariant marker.None? ==> count == 0 && forall k :: 0 <= k < i ==> line[k] in {32, 9}
      invariant marker.Some? ==>
                  && Rule(marker.value) && (exists k :: 0 <= k < i && line[k] == marker.value)
                  && count == CountOf(line[..i], marker.value)
                  && forall k :: 0 <= k < i ==> line[k] in {marker.value, 32, 9}
    {
      assert line[..i + 1][..i] == line[..i];
      var b := line[i];
      if b == 32 || b == 9 {
      } else if Rule(b) && (marker.None? || marker.value == b) {
        if marker.None? { NoneCounted(line[..i], b); }
        marker := Some(b);
        count := count + 1;
      } else {
        return false;
      }
    }
    assert line[..|line|] == line;
    yes := count >= 3;
    if marker.None? {
      forall m: byte | Rule(m) ensures CountOf(line, m) == 0 { NoneCounted(line, m); }
    }
  }

  lemma {:induction false} NoneCounted(line: Line, b: byte)
    requires forall k :: 0 <= k < |line| ==> line[k] != b
    ensures CountOf(line, b) == 0
  {
    if line != [] { NoneCounted(line[..|line| - 1], b); }
  }

  /** Quote marks go, except in front of an inline spoiler. */
  function Unquoted(text: seq<byte>): seq<byte>
    decreases |text|
  {
    if text != [] && text[0] == GREATER && (|text| == 1 || text[1] != BANG) then Unquoted(Trimmed(text[1..])) else text
  }

  function Hashes(text: seq<byte>): (n: nat)
    ensures n <= |text| && forall k :: 0 <= k < n ==> text[k] == HASH
  {
    if text != [] && text[0] == HASH then 1 + Hashes(text[1..]) else 0
  }

  /** One to six hashes, then white space or the end. */
  function Heading(text: seq<byte>): seq<byte> {
    var n := Hashes(text);
    if 1 <= n <= 6 && (n == |text| || Utf8.Leading(text, n, |text|) > 0) then TrimmedBoth(text[n..]) else text
  }

  predicate Item(text: seq<byte>) { |text| >= 2 && (text[0] == 45 || text[0] == STAR || text[0] == 43) && text[1] == 32 }

  function Plain(line: Line): Line {
    var text := Heading(Unquoted(line));
    if Item(text) then BULLET + Project(Trimmed(text[2..])) else Project(text)
  }

  // ----- The loop -----

  datatype State = State(out: seq<byte>, fence: Option<byte>, spoiler: bool)

  const BEGIN: State := State([], None, false)

  function Pushed(out: seq<byte>, line: Line): seq<byte> { (if out == [] then [] else out + [LINE_FEED]) + line }

  ghost function Next(s: State, raw: Line): State {
    var line := Trimmed(raw);
    if s.fence.Some? then
      if FenceMarker(line) == s.fence then s.(fence := None) else s.(out := Pushed(s.out, raw))
    else if FenceMarker(line).Some? then State(s.out, FenceMarker(line), false)
    else if BlockSpoiler(line) then
      State(if s.spoiler then s.out else Pushed(s.out, SPOILER), None, true)
    else if ThematicBreak(line) then s.(spoiler := false)
    else State(Pushed(s.out, Plain(line)), None, false)
  }

  ghost function Run(s: State, lines: seq<Line>): State {
    if lines == [] then s else Next(Run(s, lines[..|lines| - 1]), lines[|lines| - 1])
  }

  method PlainLine(line: Line) returns (plain: Line)
    ensures plain == Plain(line)
  {
    var text := line;
    while text != [] && text[0] == GREATER && (|text| == 1 || text[1] != BANG)
      invariant Unquoted(text) == Unquoted(line)
      decreases |text|
    {
      text := Trimmed(text[1..]);
    }
    text := Heading(text);
    plain := [];
    if Item(text) {
      plain := BULLET;
      text := Trimmed(text[2..]);
    }
    ghost var work;
    plain, work := MarkdownScanner.PushInline(plain, text);
  }

  method MarkdownToPlainText(input: seq<byte>) returns (out: seq<byte>)
    ensures out == Run(BEGIN, Lines(input)).out
  {
    hide Plain, Trimmed, BlockSpoiler, ThematicBreak, Project;
    var lines := Lines(input);
    var fence: Option<byte>, spoiler := None, false;
    out := [];
    for i := 0 to |lines|
      invariant State(out, fence, spoiler) == Run(BEGIN, lines[..i])
    {
      assert lines[..i + 1][..i] == lines[..i];
      var raw := lines[i];
      var line := Trimmed(raw);
      var marker := FenceMarker(line);
      if fence.Some? {
        if marker == fence {
          fence := None;
        } else {
          out := Pushed(out, raw);
        }
        continue;
      }
      if marker.Some? {
        fence, spoiler := marker, false;
        continue;
      }
      var hidden := IsBlockSpoiler(line);
      if hidden {
        if !spoiler {
          out := Pushed(out, SPOILER);
        }
        spoiler := true;
        continue;
      }
      spoiler := false;
      var rule := IsThematicBreak(line);
      if rule {
        continue;
      }
      var plain := PlainLine(line);
      out := Pushed(out, plain);
    }
    assert lines[..|lines|] == lines;
  }

  // ----- What the loop promises -----

  lemma {:induction false} RunInTwo(s: State, a: seq<Line>, b: seq<Line>)
    ensures Run(s, a + b) == Run(Run(s, a), b)
    decreases |b|
  {
    hide Next;
    if b == [] {
      assert a + b == a;
    } else {
      RunInTwo(s, a, b[..|b| - 1]);
      assert (a + b)[..|a + b| - 1] == a + b[..|b| - 1];
    }
  }

  lemma RunThrough(s: State, a: seq<Line>, x: Line, b: seq<Line>)
    ensures Run(s, a + [x] + b) == Run(Next(Run(s, a), x), b)
  {
    hide Next;
    RunInTwo(s, a + [x], b);
    assert (a + [x])[..|a|] == a;
  }

  lemma Around(lines: seq<Line>, k: nat, other: Line)
    requires k < |lines|
    ensures lines == lines[..k] + [lines[k]] + lines[k + 1..]
    ensures lines[k := other] == lines[..k] + [other] + lines[k + 1..]
  {
  }

  /** Outside a fence, what a spoiler line says makes no difference to the projection. */
  lemma SpoilerLinesRevealNothing(lines: seq<Line>, k: nat, other: Line)
    requires k < |lines| && Run(BEGIN, lines[..k]).fence.None?
    requires BlockSpoiler(Trimmed(lines[k])) && BlockSpoiler(Trimmed(other))
    ensures Run(BEGIN, lines[k := other]) == Run(BEGIN, lines)
  {
    SameStep(Run(BEGIN, lines[..k]), lines[k], other);
    hide Next, BlockSpoiler, Trimmed, Run;
    Around(lines, k, other);
    RunThrough(BEGIN, lines[..k], lines[k], lines[k + 1..]);
    RunThrough(BEGIN, lines[..k], other, lines[k + 1..]);
  }

  lemma SameStep(s: State, raw: Line, other: Line)
    requires s.fence.None? && BlockSpoiler(Trimmed(raw)) && BlockSpoiler(Trimmed(other))
    ensures Next(s, raw) == Next(s, other)
  {
    hide Trimmed, Plain;
  }

  /** A block of spoiler lines becomes one marker, however long it is. */
  lemma {:induction false} OneMarkerPerBlock(s: State, block: seq<Line>)
    requires s.fence.None? && !s.spoiler && block != []
    requires forall k :: 0 <= k < |block| ==> BlockSpoiler(Trimmed(block[k]))
    ensures Run(s, block) == State(Pushed(s.out, SPOILER), None, true)
  {
    var n := |block| - 1;
    if n == 0 {
      assert block[..0] == [];
    } else {
      OneMarkerPerBlock(s, block[..n]);
    }
    assert BlockSpoiler(Trimmed(block[n]));
  }

  // ----- Valid UTF-8 stays valid -----

  lemma TrimmedIsValid(s: seq<byte>)
    requires Utf8.Valid(s)
    ensures Utf8.Valid(Trimmed(s)) && Utf8.Valid(TrimmedBoth(s))
  {
    StartIsBoundary(s);
    hide Utf8.Valid;
    var lo := Utf8.TrimStart(s, 0, |s|);
    Utf8.TrimStartOnBoundary(s, 0, |s|);
    Utf8.TrimEndOnBoundary(s, lo, |s|);
    Utf8.Slice(s, lo, |s|);
    assert s[lo..|s|] == s[lo..];
    Utf8.Slice(s, lo, Utf8.TrimEnd(s, lo, |s|));
  }

  lemma StartIsBoundary(s: seq<byte>)
    requires Utf8.Valid(s)
    ensures Utf8.Boundary(s, 0) && Utf8.Boundary(s, |s|)
  {
  }

  lemma CutAfterAscii(s: seq<byte>, n: nat)
    requires Utf8.Valid(s) && 0 < n <= |s| && s[n - 1] < 0x80
    ensures Utf8.Valid(s[n..])
  {
    hide Utf8.Valid;
    Utf8.AfterAscii(s, n - 1);
    Utf8.Slice(s, n, |s|);
    assert s[n..|s|] == s[n..];
  }

  lemma {:induction false} UnquotedIsValid(text: seq<byte>)
    requires Utf8.Valid(text)
    ensures Utf8.Valid(Unquoted(text))
    decreases |text|
  {
    hide Utf8.Valid;
    if text != [] && text[0] == GREATER && (|text| == 1 || text[1] != BANG) {
      CutAfterAscii(text, 1);
      TrimmedIsValid(text[1..]);
      UnquotedIsValid(Trimmed(text[1..]));
    }
  }

  lemma HeadingIsValid(text: seq<byte>)
    requires Utf8.Valid(text)
    ensures Utf8.Valid(Heading(text))
  {
    hide Utf8.Valid;
    var n := Hashes(text);
    if n > 0 {
      CutAfterAscii(text, n);
      TrimmedIsValid(text[n..]);
    }
  }

  lemma BulletIsValid()
    ensures Utf8.Valid(BULLET)
  {
    assert BULLET[3..] == [0x20] && [0x20][..1] == [0x20] && [0x20][1..] == [];
    assert Utf8.Valid([0x20]);
    assert Utf8.Character(BULLET[..3]);
  }

  lemma PlainIsValid(line: Line)
    requires Utf8.Valid(line)
    ensures Utf8.Valid(Plain(line))
  {
    BulletIsValid();
    hide Utf8.Valid, Project;
    UnquotedIsValid(line);
    HeadingIsValid(Unquoted(line));
    var text := Heading(Unquoted(line));
    if Item(text) {
      CutAfterAscii(text, 2);
      TrimmedIsValid(text[2..]);
      MarkdownUtf8.ProjectsValidUtf8(Trimmed(text[2..]));
      Utf8.Joined(BULLET, Project(Trimmed(text[2..])));
    } else {
      MarkdownUtf8.ProjectsValidUtf8(text);
    }
  }

  lemma PushedIsValid(out: seq<byte>, line: Line)
    requires Utf8.Valid(out) && Utf8.Valid(line)
    ensures Utf8.Valid(Pushed(out, line))
  {
    assert Utf8.Valid([LINE_FEED]) by { assert [LINE_FEED][..1] == [LINE_FEED] && [LINE_FEED][1..] == []; }
    hide Utf8.Valid;
    if out == [] {
      assert [] + line == line;
    } else {
      Utf8.Joined(out, [LINE_FEED]);
      Utf8.Joined(out + [LINE_FEED], line);
    }
  }

  lemma {:induction false} LinesAreValid(s: seq<byte>)
    requires Utf8.Valid(s)
    ensures forall k :: 0 <= k < |Lines(s)| ==> Utf8.Valid(Lines(s)[k])
    decreases |s|
  {
    hide Utf8.Valid;
    var end := EndOfLine(s, 0);
    if s != [] && end < |s| {
      var cut := if end > 0 && s[end - 1] == CARRIAGE_RETURN then end - 1 else end;
      CutAfterAscii(s, end + 1);
      LinesAreValid(s[end + 1..]);
      HeadIsValid(s, cut);
    }
  }

  lemma HeadIsValid(s: seq<byte>, cut: nat)
    requires Utf8.Valid(s) && cut < |s| && s[cut] < 0x80
    ensures Utf8.Valid(s[..cut])
  {
    StartIsBoundary(s);
    hide Utf8.Valid;
    Utf8.AfterAscii(s, cut);
    Utf8.Slice(s, 0, cut);
    assert s[0..cut] == s[..cut];
  }

  lemma NextIsValid(s: State, raw: Line)
    requires Utf8.Valid(s.out) && Utf8.Valid(raw)
    ensures Utf8.Valid(Next(s, raw).out)
  {
    MarkdownUtf8.MarkerIsValid();
    hide Utf8.Valid, Plain, BlockSpoiler, ThematicBreak, FenceMarker, Trimmed, Pushed;
    TrimmedIsValid(raw);
    PlainIsValid(Trimmed(raw));
    PushedIsValid(s.out, raw);
    PushedIsValid(s.out, SPOILER);
    PushedIsValid(s.out, Plain(Trimmed(raw)));
  }

  lemma {:induction false} RunIsValid(s: State, lines: seq<Line>)
    requires Utf8.Valid(s.out) && forall k :: 0 <= k < |lines| ==> Utf8.Valid(lines[k])
    ensures Utf8.Valid(Run(s, lines).out)
  {
    hide Utf8.Valid, Next;
    if lines != [] {
      var n := |lines| - 1;
      RunIsValid(s, lines[..n]);
      NextIsValid(Run(s, lines[..n]), lines[n]);
    }
  }

  /** The whole notification text of valid UTF-8 input is valid UTF-8. */
  lemma TextIsValidUtf8(input: seq<byte>)
    requires Utf8.Valid(input)
    ensures Utf8.Valid(Run(BEGIN, Lines(input)).out)
  {
    LinesAreValid(input);
    assert Utf8.Valid([]);
    RunIsValid(BEGIN, Lines(input));
  }
}
