/** What becomes of each line of a message, in terms of its bytes. */
module MarkdownText {
  import opened Common
  import opened Markdown
  import opened MarkdownLines
  import opened Utf8Scalars
  import Utf8

  // ----- Lines -----

  predicate Ending(end: seq<byte>) { end == [10] || end == [13, 10] }

  /** The lines with what ends them, put together again. */
  function Woven(lines: seq<Line>, ends: seq<seq<byte>>): seq<byte>
    requires |ends| == |lines|
  {
    if lines == [] then [] else lines[0] + ends[0] + Woven(lines[1..], ends[1..])
  }

  /** Every line ends with the next line feed and the carriage return before it, or with the text. */
  ghost predicate Ends(lines: seq<Line>, ends: seq<seq<byte>>) {
    && |ends| == |lines|
    && (forall i :: 0 <= i < |lines| ==> 10 !in lines[i])
    && (forall i :: 0 <= i < |ends| ==> Ending(ends[i]) || (i == |ends| - 1 && ends[i] == [] && lines[i] != []))
    && (forall i :: 0 <= i < |ends| && ends[i] == [10] && lines[i] != [] ==> lines[i][|lines[i]| - 1] != 13)
  }

  lemma {:induction false} LinesAreWoven(s: seq<byte>) returns (ends: seq<seq<byte>>)
    ensures Ends(Lines(s), ends) && Woven(Lines(s), ends) == s
    decreases |s|
  {
    if s == [] {
      ends := [];
    } else {
      var end := EndOfLine(s, 0);
      if end == |s| {
        ends := [[]];
        assert Lines(s) == [s] && Lines(s)[1..] == [] && ends[1..] == [];
      } else {
        var more := LinesAreWoven(s[end + 1..]);
        var cut := if end > 0 && s[end - 1] == CARRIAGE_RETURN then end - 1 else end;
        var first := s[cut..end + 1];
        ends := [first] + more;
        assert Lines(s) == [s[..cut]] + Lines(s[end + 1..]);
        WeaveOne(s, cut, end, Lines(s[end + 1..]), more);
      }
    }
  }

  lemma WeaveOne(s: seq<byte>, cut: nat, end: nat, lines: seq<Line>, ends: seq<seq<byte>>)
    requires end < |s| && s[end] == 10 && (forall k :: 0 <= k < end ==> s[k] != 10)
    requires cut == if end > 0 && s[end - 1] == 13 then end - 1 else end
    requires Ends(lines, ends) && Woven(lines, ends) == s[end + 1..]
    ensures Ends([s[..cut]] + lines, [s[cut..end + 1]] + ends)
    ensures Woven([s[..cut]] + lines, [s[cut..end + 1]] + ends) == s
  {
    hide Woven, Ends;
    assert s[cut..end + 1] == if cut < end then [13, 10] else [10];
    EndsOne(s[..cut], s[cut..end + 1], lines, ends);
    WovenOne(s[..cut], s[cut..end + 1], lines, ends);
    assert s[..cut] + s[cut..end + 1] + s[end + 1..] == s;
  }

  lemma EndsOne(line: Line, end: seq<byte>, lines: seq<Line>, ends: seq<seq<byte>>)
    requires Ends(lines, ends) && Ending(end) && 10 !in line && (end == [10] && line != [] ==> line[|line| - 1] != 13)
    ensures Ends([line] + lines, [end] + ends)
  {
  }

  lemma WovenOne(line: Line, end: seq<byte>, lines: seq<Line>, ends: seq<seq<byte>>)
    requires |ends| == |lines|
    ensures Woven([line] + lines, [end] + ends) == line + end + Woven(lines, ends)
  {
    assert ([line] + lines)[1..] == lines && ([end] + ends)[1..] == ends;
  }

  // ----- White space -----

  /** The white space in front goes, and no more. */
  ghost predicate Front(s: seq<byte>, k: nat) { k <= |s| && AllWhite(s[..k]) && Fronted(s, k, |s|) }

  /** The white space at both ends goes, and no more. */
  ghost predicate Stripped(s: seq<byte>, lo: nat, hi: nat) {
    && lo <= hi <= |s| && AllWhite(s[..lo]) && Fronted(s, lo, |s|)
    && AllWhite(s[hi..]) && Backed(s, lo, hi)
  }

  lemma TrimmedIs(s: seq<byte>) returns (k: nat)
    ensures Front(s, k) && Trimmed(s) == s[k..]
  {
    hide AllWhite, Fronted, Utf8.TrimStart;
    k := Utf8.TrimStart(s, 0, |s|);
    TrimStartIs(s, 0, |s|);
    assert s[0..k] == s[..k];
  }

  lemma TrimmedBothIs(s: seq<byte>) returns (lo: nat, hi: nat)
    ensures Stripped(s, lo, hi) && TrimmedBoth(s) == s[lo..hi]
  {
    hide AllWhite, Fronted, Backed, Utf8.TrimStart, Utf8.TrimEnd;
    lo := Utf8.TrimStart(s, 0, |s|);
    TrimStartIs(s, 0, |s|);
    hi := Utf8.TrimEnd(s, lo, |s|);
    TrimEndIs(s, lo, |s|);
    assert s[0..lo] == s[..lo] && s[hi..|s|] == s[hi..];
  }

  // ----- Quotes, headings and items -----

  /** A quote mark that opens no inline spoiler goes with the white space behind it, and so on. */
  ghost predicate Unwraps(line: Line, text: seq<byte>)
    decreases |line|
  {
    if line != [] && line[0] == 62 && !(|line| > 1 && line[1] == 33) then
      exists k: nat :: Front(line[1..], k) && Unwraps(line[1..][k..], text)
    else text == line
  }

  lemma {:induction false} UnquotedIs(line: Line)
    ensures Unwraps(line, Unquoted(line))
    decreases |line|
  {
    hide Front, Trimmed;
    if line != [] && line[0] == 62 && !(|line| > 1 && line[1] == 33) {
      var k := TrimmedIs(line[1..]);
      FrontIsShort(line[1..], k);
      UnquotedIs(line[1..][k..]);
    }
  }

  lemma FrontIsShort(s: seq<byte>, k: nat)
    requires Front(s, k)
    ensures k <= |s|
  {
  }

  /** One to six hashes, with the end or white space behind them. */
  ghost predicate Titled(text: seq<byte>, n: nat) {
    && 1 <= n <= 6 && n <= |text| && (forall k :: 0 <= k < n ==> text[k] == 35)
    && (n == |text| || !Fronted(text, n, |text|))
  }

  /** The hashes of a heading go with the white space around its words; other text stays. */
  ghost predicate Titles(text: seq<byte>, words: seq<byte>) {
    if exists n: nat :: Titled(text, n) then
      exists n: nat, lo: nat, hi: nat :: Titled(text, n) && Stripped(text[n..], lo, hi) && words == text[n..][lo..hi]
    else words == text
  }

  lemma {:induction false} HashesAre(text: seq<byte>, n: nat)
    requires n <= |text| && (forall k :: 0 <= k < n ==> text[k] == 35) && (n == |text| || text[n] != 35)
    ensures Hashes(text) == n
  {
    if n > 0 { HashesAre(text[1..], n - 1); }
  }

  lemma HashIsNoSpace(text: seq<byte>, n: nat)
    requires n < |text| && text[n] == 35
    ensures Fronted(text, n, |text|)
  {
    NoneLeading(text, n, |text|);
    forall e | n < e <= |text| ensures !Utf8.WhiteSpace(text[n..e]) { assert text[n..e][0] == 35; }
  }

  lemma TitledIff(text: seq<byte>, n: nat)
    ensures Titled(text, n) <==> n == Hashes(text) && 1 <= n <= 6 && (n == |text| || Utf8.Leading(text, n, |text|) > 0)
  {
    hide Fronted;
    if Titled(text, n) {
      if n < |text| && text[n] == 35 { HashIsNoSpace(text, n); }
      HashesAre(text, n);
    }
    if n <= |text| { NoneLeading(text, n, |text|); }
  }

  lemma HeadingIs(text: seq<byte>)
    ensures Titles(text, Heading(text))
  {
    var m := Hashes(text);
    forall n: nat ensures Titled(text, n) <==> n == m && 1 <= n <= 6 && (n == |text| || Utf8.Leading(text, n, |text|) > 0) {
      TitledIff(text, n);
    }
    hide Titled, Stripped, TrimmedBoth;
    var lo, hi := TrimmedBothIs(text[m..]);
    if Titled(text, m) {
      assert Titled(text, m) && Stripped(text[m..], lo, hi) && Heading(text) == text[m..][lo..hi];
    }
  }

  /** A bullet stands for the mark of an item, and the scanner projects the rest. */
  ghost predicate Reads(words: seq<byte>, plain: Line) {
    if |words| >= 2 && (words[0] == 45 || words[0] == 42 || words[0] == 43) && words[1] == 32 then
      exists k: nat :: Front(words[2..], k) && plain == [0xE2, 0x80, 0xA2, 0x20] + Project(words[2..][k..])
    else plain == Project(words)
  }

  lemma ReadsIs(words: seq<byte>)
    ensures Reads(words, if Item(words) then BULLET + Project(Trimmed(words[2..])) else Project(words))
  {
    hide Front, Trimmed, Project;
    if Item(words) { var k := TrimmedIs(words[2..]); }
  }

  /** Quote marks, then a heading's hashes, then an item's mark, then what stands inside the line. */
  ghost predicate Flattens(line: Line, plain: Line) {
    exists text: seq<byte>, words: seq<byte> :: Unwraps(line, text) && Titles(text, words) && Reads(words, plain)
  }

  lemma PlainIs(line: Line)
    ensures Flattens(line, Plain(line))
  {
    hide Unwraps, Titles, Reads, Unquoted, Heading, Project, Trimmed;
    UnquotedIs(line);
    HeadingIs(Unquoted(line));
    ReadsIs(Heading(Unquoted(line)));
  }

  // ----- Fences, spoilers and rules -----

  predicate Fence(line: Line, b: byte) { |line| >= 3 && line[0] == b && line[1] == b && line[2] == b }

  /** `>!` in front and no `!<` behind. */
  ghost predicate Secret(line: Line) {
    && |line| >= 2 && line[0] == 62 && line[1] == 33
    && !exists i :: 0 <= i < |line| - 1 && line[i] == 33 && line[i + 1] == 60
  }

  /** At least three of one of `-`, `*` and `_`, and otherwise only spaces and tabs. */
  ghost predicate Divides(line: Line, m: byte) {
    && m in {45, 42, 95}
    && (exists a, b, c :: 0 <= a < b < c < |line| && line[a] == m && line[b] == m && line[c] == m)
    && forall k :: 0 <= k < |line| ==> line[k] in {m, 32, 9}
  }

  ghost predicate Several(line: Line, m: byte, n: nat, places: seq<nat>) {
    && |places| == n
    && (forall i :: 0 <= i < n ==> places[i] < |line| && line[places[i]] == m)
    && (forall i, j :: 0 <= i < j < n ==> places[i] < places[j])
  }

  lemma {:induction false} CountedPlaces(line: Line, m: byte) returns (places: seq<nat>)
    ensures Several(line, m, CountOf(line, m), places)
  {
    if line == [] {
      places := [];
    } else {
      var last := |line| - 1;
      places := CountedPlaces(line[..last], m);
      if line[last] == m { places := places + [last]; }
    }
  }

  lemma {:induction false} PlacesCounted(line: Line, m: byte, n: nat, places: seq<nat>)
    requires Several(line, m, n, places)
    ensures CountOf(line, m) >= n
  {
    if n > 0 {
      assert places[0] < |line|;
      var last := |line| - 1;
      if places[n - 1] == last {
        PlacesCounted(line[..last], m, n - 1, places[..n - 1]);
      } else {
        forall i | 0 <= i < n ensures places[i] < last { if i < n - 1 { assert places[i] < places[n - 1]; } }
        PlacesCounted(line[..last], m, n, places);
      }
    }
  }

  lemma CountsThree(line: Line, m: byte)
    ensures CountOf(line, m) >= 3 <==> exists a, b, c :: 0 <= a < b < c < |line| && line[a] == m && line[b] == m && line[c] == m
  {
    if a, b, c :| 0 <= a < b < c < |line| && line[a] == m && line[b] == m && line[c] == m {
      PlacesCounted(line, m, 3, [a, b, c]);
    }
    var places := CountedPlaces(line, m);
    if CountOf(line, m) >= 3 {
      assert line[places[0]] == m && line[places[1]] == m && line[places[2]] == m;
    }
  }

  lemma BreakIff(line: Line)
    ensures ThematicBreak(line) <==> exists m: byte :: Divides(line, m)
  {
    forall m: byte ensures Divides(line, m) <==> Rule(m) && CountOf(line, m) >= 3 && forall k :: 0 <= k < |line| ==> line[k] in {m, 32, 9} {
      CountsThree(line, m);
    }
  }

  // ----- One line -----

  /** The text with one more line. */
  predicate Gains(out: seq<byte>, line: Line, more: seq<byte>) {
    (out == [] ==> more == line) && (out != [] ==> more == out + [10] + line)
  }

  /**
   * What a line does. Inside a fence it is copied, unless it closes the fence. Outside one, a fence
   * opens, hidden lines leave one marker, a rule leaves nothing, and every other line is flattened.
   */
  ghost predicate Becomes(s: State, raw: Line, line: Line, t: State) {
    if s.fence.Some? then
      if Fence(line, s.fence.value) then t.out == s.out && t.fence.None? && t.spoiler == s.spoiler
      else Gains(s.out, raw, t.out) && t.fence == s.fence && t.spoiler == s.spoiler
    else if Fence(line, 96) || Fence(line, 126) then t.out == s.out && t.fence == Some(line[0]) && !t.spoiler
    else if Secret(line) then
      (if s.spoiler then t.out == s.out else Gains(s.out, [91, 83, 112, 111, 105, 108, 101, 114, 93], t.out)) && t.fence.None? && t.spoiler
    else if exists m: byte :: Divides(line, m) then t.out == s.out && t.fence.None? && !t.spoiler
    else (exists plain: Line :: Flattens(line, plain) && Gains(s.out, plain, t.out)) && t.fence.None? && !t.spoiler
  }

  /** Only backticks and tildes make fences. */
  predicate Sound(s: State) { s.fence.Some? ==> s.fence.value == 96 || s.fence.value == 126 }

  lemma FenceMarkerIs(line: Line)
    ensures FenceMarker(line) == if Fence(line, 96) then Some(96) else if Fence(line, 126) then Some(126) else None
  {
  }

  lemma SecretIff(line: Line)
    ensures Secret(line) <==> BlockSpoiler(line)
  {
  }

  lemma NextIs(s: State, raw: Line) returns (k: nat)
    requires Sound(s)
    ensures Front(raw, k) && Becomes(s, raw, raw[k..], Next(s, raw)) && Sound(Next(s, raw))
  {
    hide Front, Trimmed, Secret, BlockSpoiler, ThematicBreak, Divides, Flattens, Plain, FenceMarker;
    k := TrimmedIs(raw);
    FrontIsShort(raw, k);
    var line := raw[k..];
    FenceMarkerIs(line);
    SecretIff(line);
    BreakIff(line);
    PlainIs(line);
    var t := Next(s, raw);
    assert Flattens(line, Plain(line));
  }

  lemma {:induction false} RunIsSound(lines: seq<Line>)
    ensures Sound(Run(BEGIN, lines))
  {
    hide Next;
    if lines != [] {
      RunIsSound(lines[..|lines| - 1]);
      var k := NextIs(Run(BEGIN, lines[..|lines| - 1]), lines[|lines| - 1]);
    }
  }

  /** Every line of a message does what it must, whatever the lines before it were. */
  lemma EveryLineBecomes(lines: seq<Line>, n: nat)
    requires n < |lines|
    ensures exists k: nat ::
              && Front(lines[n], k)
              && Becomes(Run(BEGIN, lines[..n]), lines[n], lines[n][k..], Run(BEGIN, lines[..n + 1]))
  {
    hide Next, Front, Becomes;
    RunIsSound(lines[..n]);
    var k := NextIs(Run(BEGIN, lines[..n]), lines[n]);
    assert lines[..n + 1][..n] == lines[..n];
  }
}
