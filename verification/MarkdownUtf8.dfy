/** The projection of valid UTF-8 is valid UTF-8, so decoding it loses nothing. */
module MarkdownUtf8 {
  import opened Common
  import opened MarkdownTables
  import opened Markdown
  import opened MarkdownProvenance
  import Utf8

  /** Either nothing is skipped, or the input is cut between characters only. */
  predicate Clean(text: seq<byte>, at: nat, m: Move)
    requires InBounds(text, at, m)
  {
    match m
    case Copy(lo, hi, next) =>
      || (lo == at && hi == next)
      || (Utf8.Boundary(text, at) && Utf8.Boundary(text, lo) && Utf8.Boundary(text, hi) && Utf8.Boundary(text, next))
    case Hide(next) => Utf8.Boundary(text, at) && Utf8.Boundary(text, next)
    case Open(_) => true
    case Link(next) => Utf8.Boundary(text, at) && Utf8.Boundary(text, next)
  }

  lemma DecidesClean(text: seq<byte>, s: Scan)
    requires Utf8.Valid(text) && s.at < |text| && InBounds(text, s.at, Decide(text, s))
    ensures Clean(text, s.at, Decide(text, s))
  {
    hide Utf8.Valid, Runs, CodeMove, FirstFrom;
    var i, m := s.at, Decide(text, s);
    if text[i] == TICK {
      CodeIsClean(text, i);
    } else if text[i] < 0x80 {
      Utf8.AfterAscii(text, i);
      if i + 1 < |text| && text[i + 1] < 0x80 { Utf8.AfterAscii(text, i + 1); }
      if m.Hide? {
        DecidesToHideSpoilers(text, s);
        Utf8.AfterAscii(text, m.next - 1);
      }
      if m.Link? { Utf8.AfterAscii(text, m.next - 1); }
      if text[i] == STAR || text[i] == UNDERSCORE { Utf8.AfterAscii(text, RunEnd(text, i, text[i]) - 1); }
    }
  }

  /** A code span is cut at its delimiters, and trimmed by whole characters. */
  lemma SpanIsClean(text: seq<byte>, i: nat, end: nat, len: nat)
    requires Utf8.Valid(text) && 0 < len && i + len <= end && end + len <= |text|
    requires text[i] == text[i + len - 1] == text[end] == text[end + len - 1] == TICK
    ensures InBounds(text, i, SpanMove(text, i, end, len)) && Clean(text, i, SpanMove(text, i, end, len))
  {
    hide Utf8.Valid, Utf8.Leading, Utf8.Trailing, Utf8.TrimStart, Utf8.TrimEnd, Utf8.Boundary;
    Utf8.AfterAscii(text, i);
    Utf8.AfterAscii(text, i + len - 1);
    Utf8.AfterAscii(text, end);
    Utf8.AfterAscii(text, end + len - 1);
    Utf8.TrimStartOnBoundary(text, i + len, end);
    Utf8.TrimEndOnBoundary(text, Utf8.TrimStart(text, i + len, end), end);
  }

  lemma ClosedIsClean(text: seq<byte>, i: nat, k: nat, e: nat)
    requires Utf8.Valid(text) && i < |text| && text[i] == TICK && Closes(text, i, k, e)
    ensures InBounds(text, i, CodeMove(text, i)) && Clean(text, i, CodeMove(text, i))
  {
    hide *;
    CodeIs(text, i, k, e);
    SpanIsClean(text, i, Runs(text, 0)[e].start, Runs(text, 0)[k].len);
  }

  lemma CodeIsClean(text: seq<byte>, i: nat)
    requires Utf8.Valid(text) && i < |text| && text[i] == TICK
    ensures InBounds(text, i, CodeMove(text, i)) && Clean(text, i, CodeMove(text, i))
  {
    hide Utf8.Valid, Utf8.Boundary, Runs, FirstFrom, NextOfLength, Utf8.TrimStart, Utf8.TrimEnd;
    var runs := Runs(text, 0);
    var k := FirstFrom(Starts(runs), i, 0);
    Utf8.AfterAscii(text, i);
    if k < |runs| && runs[k].start == i {
      var len := runs[k].len;
      RunAlone(text, k);
      NearestOfLength(runs, k + 1, len);
      Utf8.AfterAscii(text, i + len - 1);
      var close := NextOfLength(runs, k + 1, len);
      if close.Some? {
        hide CodeMove;
        ClosedIsClean(text, i, k, close.value);
      }
    }
  }

  /** What is written so far continues validly with what is still to be read. */
  predicate Readable(text: seq<byte>, s: Scan) { s.at <= |text| && Utf8.Valid(s.buf + text[s.at..]) }

  lemma CutKeepsReadable(text: seq<byte>, buf: seq<byte>, at: nat, more: seq<byte>, next: nat)
    requires Utf8.Valid(text) && at <= next <= |text| && Utf8.Boundary(text, at) && Utf8.Boundary(text, next)
    requires Utf8.Valid(buf + text[at..]) && Utf8.Valid(more)
    ensures Utf8.Valid(buf + more + text[next..])
  {
    Utf8.SplitAt(buf, text[at..]);
    Utf8.Slice(text, next, |text|);
    assert text[next..|text|] == text[next..];
    Utf8.Joined(buf, more);
    Utf8.Joined(buf + more, text[next..]);
  }

  lemma MarkerIsValid()
    ensures Utf8.Valid(SPOILER)
  {
    hide Utf8.Valid;
    AsciiIsValid(SPOILER);
  }

  lemma {:induction false} AsciiIsValid(s: seq<byte>)
    requires forall k :: 0 <= k < |s| ==> s[k] < 0x80
    ensures Utf8.Valid(s)
  {
    if s != [] { AsciiIsValid(s[1..]); }
  }

  lemma CopyKeepsReadable(text: seq<byte>, s: Scan, lo: nat, hi: nat, next: nat)
    requires Utf8.Valid(text) && s.at < |text| && Readable(text, s)
    requires InBounds(text, s.at, Copy(lo, hi, next)) && Clean(text, s.at, Copy(lo, hi, next))
    ensures Readable(text, Apply(text, s, Copy(lo, hi, next)))
  {
    hide Utf8.Valid;
    if lo == s.at && hi == next {
      assert s.buf + text[lo..hi] + text[next..] == s.buf + text[s.at..];
    } else {
      Utf8.Slice(text, lo, hi);
      CutKeepsReadable(text, s.buf, s.at, text[lo..hi], next);
    }
  }

  lemma HideKeepsReadable(text: seq<byte>, s: Scan, next: nat)
    requires Utf8.Valid(text) && s.at < |text| && Readable(text, s)
    requires InBounds(text, s.at, Hide(next)) && Clean(text, s.at, Hide(next))
    ensures Readable(text, Apply(text, s, Hide(next)))
  {
    MarkerIsValid();
    hide Utf8.Valid;
    CutKeepsReadable(text, s.buf, s.at, SPOILER, next);
  }

  lemma OpenKeepsReadable(text: seq<byte>, s: Scan, image: bool)
    requires s.at < |text| && Readable(text, s) && (image ==> s.buf != [])
    ensures Readable(text, Apply(text, s, Open(image)))
  {
    hide Utf8.Valid;
    assert s.buf + [text[s.at]] + text[s.at + 1..] == s.buf + text[s.at..];
  }

  lemma LinkKeepsReadable(text: seq<byte>, s: Scan, next: nat)
    requires Utf8.Valid(text) && s.at < |text| && Readable(text, s) && s.brackets != []
    requires InBounds(text, s.at, Link(next)) && Clean(text, s.at, Link(next))
    ensures Readable(text, Apply(text, s, Link(next)))
  {
    hide Utf8.Valid;
    assert s.buf + text[s.at..s.at] == s.buf;
    CopyKeepsReadable(text, s, s.at, s.at, next);
  }

  lemma DecidesSafely(text: seq<byte>, s: Scan)
    requires Utf8.Valid(text) && s.at < |text|
    ensures var m := Decide(text, s);
            && InBounds(text, s.at, m) && Clean(text, s.at, m)
            && (m.Link? ==> s.brackets != []) && (m.Open? && m.image ==> s.buf != [])
  {
    hide Utf8.Valid;
    DecidesInBounds(text, s);
    DecidesClean(text, s);
  }

  lemma StepKeepsReadable(text: seq<byte>, s: Scan)
    requires Utf8.Valid(text) && s.at < |text| && Readable(text, s)
    ensures Readable(text, Step(text, s))
  {
    hide Decide, Utf8.Valid, Utf8.Boundary, Readable, Apply, Clean, InBounds;
    DecidesSafely(text, s);
    var m := Decide(text, s);
    match m {
      case Copy(lo, hi, next) => CopyKeepsReadable(text, s, lo, hi, next);
      case Hide(next) => HideKeepsReadable(text, s, next);
      case Open(image) => OpenKeepsReadable(text, s, image);
      case Link(next) => LinkKeepsReadable(text, s, next);
    }
  }

  lemma {:induction false} FinishKeepsReadable(text: seq<byte>, s: Scan)
    requires Utf8.Valid(text) && Readable(text, s)
    ensures Readable(text, Finish(text, s))
    decreases |text| - s.at
  {
    if s.at < |text| {
      StepKeepsReadable(text, s);
      FinishKeepsReadable(text, Step(text, s));
    }
  }

  // ----- Dropping brackets and bangs -----

  lemma CutTwice(s: seq<byte>, w: nat, q: nat)
    requires w + q <= |s|
    ensures s[w + q..] == s[w..][q..] && s[..w + q] == s[..w] + s[w..][..q]
  {
    assert s[..w + q] == s[..w] + s[w..w + q] && s[w..w + q] == s[w..][..q];
  }

  lemma {:induction false} LastCharacter(s: seq<byte>) returns (p: nat)
    requires Utf8.Valid(s) && s != []
    ensures p < |s| && Utf8.Valid(s[..p]) && Utf8.Character(s[p..])
  {
    var w := Utf8.Width(s[0]);
    Utf8.FirstCharacter(s);
    hide Utf8.Valid, Utf8.Character, Utf8.Width;
    if w == |s| {
      p := 0;
      assert s[0..] == s[..w] && s[..0] == [];
    } else {
      var q := LastCharacter(s[w..]);
      p := w + q;
      CutTwice(s, w, q);
      Utf8.Joined(s[..w], s[w..][..q]);
    }
  }

  lemma {:induction false} KeepTail(s: seq<byte>, p: nat, dead: seq<nat>)
    requires p <= |s| && forall k :: p <= k < |s| ==> k !in dead
    ensures Keep(s, dead) == Keep(s[..p], dead) + s[p..]
    decreases |s|
  {
    var n := |s| - 1;
    if p == |s| {
      assert s[..p] == s && s[p..] == [];
    } else {
      KeepTail(s[..n], p, dead);
      assert s[..n][..p] == s[..p] && s[..n][p..] + [s[n]] == s[p..];
    }
  }

  predicate AsciiAt(s: seq<byte>, dead: seq<nat>) { forall d :: d in dead && d < |s| ==> s[d] < 0x80 }

  /** The last character is dropped as a whole or kept as a whole. */
  lemma KeepLast(s: seq<byte>, p: nat, dead: seq<nat>)
    requires p < |s| && Utf8.Character(s[p..]) && AsciiAt(s, dead)
    ensures Keep(s, dead) == Keep(s[..p], dead) + if p in dead then [] else s[p..]
  {
    hide Utf8.Valid;
    var last := s[p..];
    if p in dead {
      assert last[0] < 0x80 && |last| == 1;
    } else {
      forall k | p <= k < |s| ensures k !in dead { assert s[k] == last[k - p]; }
      KeepTail(s, p, dead);
    }
  }

  lemma {:induction false} KeepIsValid(s: seq<byte>, dead: seq<nat>)
    requires Utf8.Valid(s) && AsciiAt(s, dead)
    ensures Utf8.Valid(Keep(s, dead))
    decreases |s|
  {
    if s != [] {
      var p := LastCharacter(s);
      var last := s[p..];
      assert Utf8.Valid(last) by { assert last[..|last|] == last && last[|last|..] == []; }
      assert AsciiAt(s[..p], dead) && Utf8.Valid([]);
      hide Utf8.Valid, Utf8.Character, Keep, AsciiAt;
      KeepIsValid(s[..p], dead);
      KeepLast(s, p, dead);
      Utf8.Joined(Keep(s[..p], dead), if p in dead then [] else last);
    }
  }

  lemma StartIsReadable(text: seq<byte>)
    requires Utf8.Valid(text)
    ensures Readable(text, START)
  {
    hide Utf8.Valid;
    assert [] + text[0..] == text;
  }

  lemma EndIsValid(text: seq<byte>, s: Scan)
    requires Readable(text, s) && s.at == |text|
    ensures Utf8.Valid(s.buf)
  {
    hide Utf8.Valid;
    assert s.buf + text[|text|..] == s.buf;
  }

  lemma DeletedAreAscii(s: Scan)
    requires Stacked(s)
    ensures AsciiAt(s.buf, s.deleted)
  {
  }

  /** Valid UTF-8 in, valid UTF-8 out. */
  lemma ProjectsValidUtf8(text: seq<byte>)
    requires Utf8.Valid(text)
    ensures Utf8.Valid(Project(text))
  {
    hide Utf8.Valid, Traced, Stacked, Readable, Finish, Keep, AsciiAt;
    var s := Finish(text, START);
    StartIsReadable(text);
    StartTraced(text);
    FinishKeepsReadable(text, START);
    FinishTraces(text, START);
    ReadsToEnd(text, START);
    EndIsValid(text, s);
    DeletedAreAscii(s);
    KeepIsValid(s.buf, s.deleted);
  }
}
