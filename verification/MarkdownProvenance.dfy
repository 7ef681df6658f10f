/** Where the bytes of a projection come from. */
module MarkdownProvenance {
  import opened Common
  import opened MarkdownTables
  import opened Markdown

  // ----- Statements about a buffer and the origin of its bytes -----

  /** Every byte is the input byte it is said to be, or the said byte of a marker. */
  ghost predicate Sourced(text: seq<byte>, buf: seq<byte>, from: seq<int>) {
    && |buf| == |from|
    && (forall k :: 0 <= k < |from| && from[k] >= 0 ==> from[k] < |text| && buf[k] == text[from[k]])
    && (forall k :: 0 <= k < |from| && from[k] < 0 ==> from[k] >= -9 && buf[k] == SPOILER[-1 - from[k]])
  }

  /** Input positions only grow. */
  ghost predicate Ordered(from: seq<int>) {
    forall j, k :: 0 <= j < k < |from| && from[j] >= 0 && from[k] >= 0 ==> from[j] < from[k]
  }

  predicate Inner(origin: int) { -9 < origin < 0 }

  predicate Follows(a: int, b: int) { (Inner(a) ==> b == a - 1) && (b < -1 ==> a == b + 1) }

  /** Neighbours inside a marker follow each other. */
  ghost predicate Linked(from: seq<int>) {
    forall k :: 0 < k < |from| ==> Follows(from[k - 1], from[k])
  }

  /** Markers are never cut. */
  ghost predicate Whole(from: seq<int>) {
    Linked(from) && (from != [] ==> from[0] >= -1 && !Inner(from[|from| - 1]))
  }

  /** No byte of a hidden span. */
  ghost predicate Unseen(from: seq<int>, hidden: seq<(nat, nat)>) {
    forall k, h :: 0 <= k < |from| && 0 <= h < |hidden| ==> !(hidden[h].0 <= from[k] < hidden[h].1)
  }

  function Markers(from: seq<int>): nat {
    if from == [] then 0 else Markers(from[..|from| - 1]) + if from[|from| - 1] == -1 then 1 else 0
  }

  /** A hidden span runs from an opening mark to a closing mark. */
  predicate Spoiler(text: seq<byte>, span: (nat, nat)) {
    && span.0 + 4 <= span.1 <= |text|
    && ((At(text, span.0, PIPE, PIPE) && At(text, span.1 - 2, PIPE, PIPE))
        || (At(text, span.0, GREATER, BANG) && At(text, span.1 - 2, BANG, LESS)))
  }

  /** Hidden spans are spoilers of the input, in order and apart. */
  ghost predicate Concealed(text: seq<byte>, hidden: seq<(nat, nat)>, at: nat) {
    && (forall h :: 0 <= h < |hidden| ==> Spoiler(text, hidden[h]) && hidden[h].1 <= at)
    && (forall g, h :: 0 <= g < h < |hidden| ==> hidden[g].1 <= hidden[h].0)
  }

  ghost predicate Below(from: seq<int>, at: nat) { forall k :: 0 <= k < |from| ==> from[k] < at }

  ghost predicate Traced(text: seq<byte>, s: Scan) {
    && Sourced(text, s.buf, s.from) && Ordered(s.from) && Whole(s.from) && Unseen(s.from, s.hidden)
    && Below(s.from, s.at) && Concealed(text, s.hidden, s.at) && Markers(s.from) == |s.hidden|
  }

  lemma {:induction false} MarkersConcat(a: seq<int>, b: seq<int>)
    ensures Markers(a + b) == Markers(a) + Markers(b)
    decreases |b|
  {
    if b == [] {
      assert a + b == a;
    } else {
      MarkersConcat(a, b[..|b| - 1]);
      assert (a + b)[..|a + b| - 1] == a + b[..|b| - 1];
    }
  }

  lemma {:induction false} NoMarkers(from: seq<int>)
    requires forall k :: 0 <= k < |from| ==> from[k] >= 0
    ensures Markers(from) == 0
  {
    if from != [] { NoMarkers(from[..|from| - 1]); }
  }

  lemma OneMarker()
    ensures Markers(Marked()) == 1
  {
    NoneAfterFirst(|Marked()|);
    assert Marked()[..|Marked()|] == Marked();
  }

  lemma {:induction false} NoneAfterFirst(n: nat)
    requires 1 <= n <= |Marked()|
    ensures Markers(Marked()[..n]) == 1
  {
    var some := Marked()[..n];
    assert some[..n - 1] == Marked()[..n - 1];
    if n > 1 {
      NoneAfterFirst(n - 1);
    }
  }

  lemma SourcedConcat(text: seq<byte>, buf: seq<byte>, from: seq<int>, more: seq<byte>, origins: seq<int>)
    requires Sourced(text, buf, from) && Sourced(text, more, origins)
    ensures Sourced(text, buf + more, from + origins)
  {
  }

  lemma OrderedConcat(a: seq<int>, b: seq<int>, at: nat)
    requires Ordered(a) && Ordered(b) && Below(a, at) && forall k :: 0 <= k < |b| && b[k] >= 0 ==> b[k] >= at
    ensures Ordered(a + b)
  {
  }

  lemma WholeConcat(a: seq<int>, b: seq<int>)
    requires Whole(a) && Whole(b)
    ensures Whole(a + b)
  {
    var c := a + b;
    forall k | 0 < k < |c| ensures Follows(c[k - 1], c[k]) {
      if k < |a| {
        assert Follows(a[k - 1], a[k]);
      } else if k > |a| {
        assert Follows(b[k - |a| - 1], b[k - |a|]);
      }
    }
  }

  lemma UnseenConcat(a: seq<int>, b: seq<int>, hidden: seq<(nat, nat)>)
    requires Unseen(a, hidden) && Unseen(b, hidden)
    ensures Unseen(a + b, hidden)
  {
  }

  lemma ConcealedLater(text: seq<byte>, hidden: seq<(nat, nat)>, at: nat, next: nat)
    requires Concealed(text, hidden, at) && at <= next
    ensures Concealed(text, hidden, next)
  {
    hide Spoiler;
  }

  lemma Traces(text: seq<byte>, s: Scan)
    ensures Traced(text, s) <==>
              && Sourced(text, s.buf, s.from) && Ordered(s.from) && Whole(s.from) && Unseen(s.from, s.hidden)
              && Below(s.from, s.at) && Concealed(text, s.hidden, s.at) && Markers(s.from) == |s.hidden|
  {
    hide Sourced, Ordered, Whole, Unseen, Below, Concealed, Markers;
  }

  lemma BelowConcat(a: seq<int>, b: seq<int>, at: nat, next: nat)
    requires Below(a, at) && at <= next && Below(b, next)
    ensures Below(a + b, next)
  {
  }

  lemma Copies(text: seq<byte>, s: Scan, lo: nat, hi: nat, next: nat)
    requires s.at < |text| && InBounds(text, s.at, Copy(lo, hi, next))
    ensures s.at <= lo <= hi <= next <= |text|
    ensures Apply(text, s, Copy(lo, hi, next)) == s.(at := next, buf := s.buf + text[lo..hi], from := s.from + Offsets(lo, hi))
  {
  }

  lemma CopyTraces(text: seq<byte>, s: Scan, lo: nat, hi: nat, next: nat)
    requires Traced(text, s) && s.at < |text| && InBounds(text, s.at, Copy(lo, hi, next))
    ensures Traced(text, Apply(text, s, Copy(lo, hi, next)))
  {
    hide *;
    Copies(text, s, lo, hi, next);
    var more, t := Offsets(lo, hi), Apply(text, s, Copy(lo, hi, next));
    Traces(text, s);
    Traces(text, t);
    ConcealedLater(text, s.hidden, s.at, next);
    CopiedAlone(text, s.hidden, s.at, lo, hi, next);
    NoMarkers(more);
    SourcedConcat(text, s.buf, s.from, text[lo..hi], more);
    OrderedConcat(s.from, more, s.at);
    WholeConcat(s.from, more);
    UnseenConcat(s.from, more, s.hidden);
    BelowConcat(s.from, more, s.at, next);
    MarkersConcat(s.from, more);
  }

  lemma CopiedAlone(text: seq<byte>, hidden: seq<(nat, nat)>, at: nat, lo: nat, hi: nat, next: nat)
    requires Concealed(text, hidden, at) && at <= lo <= hi <= next <= |text|
    ensures Sourced(text, text[lo..hi], Offsets(lo, hi)) && Ordered(Offsets(lo, hi))
    ensures Whole(Offsets(lo, hi)) && Unseen(Offsets(lo, hi), hidden)
    ensures Below(Offsets(lo, hi), next) && forall k :: 0 <= k < |Offsets(lo, hi)| ==> Offsets(lo, hi)[k] >= at
  {
  }

  lemma MarkerAlone(text: seq<byte>, hidden: seq<(nat, nat)>)
    ensures Sourced(text, SPOILER, Marked()) && Ordered(Marked()) && Whole(Marked()) && Unseen(Marked(), hidden)
  {
  }

  lemma HideTraces(text: seq<byte>, s: Scan, next: nat)
    requires Traced(text, s) && s.at < |text| && InBounds(text, s.at, Hide(next)) && Spoiler(text, (s.at, next))
    ensures Traced(text, Apply(text, s, Hide(next)))
  {
    hide Sourced, Ordered, Whole, Unseen, Spoiler, Concealed, Markers;
    var hidden := s.hidden + [(s.at, next)];
    MarkerAlone(text, hidden);
    HiddenAhead(s.from, s.hidden, s.at, next);
    ConcealedGrows(text, s.hidden, s.at, next);
    OneMarker();
    SourcedConcat(text, s.buf, s.from, SPOILER, Marked());
    OrderedConcat(s.from, Marked(), s.at);
    WholeConcat(s.from, Marked());
    UnseenConcat(s.from, Marked(), hidden);
    MarkersConcat(s.from, Marked());
  }

  lemma ConcealedGrows(text: seq<byte>, hidden: seq<(nat, nat)>, at: nat, next: nat)
    requires Concealed(text, hidden, at) && Spoiler(text, (at, next))
    ensures Concealed(text, hidden + [(at, next)], next)
  {
  }

  lemma HiddenAhead(from: seq<int>, hidden: seq<(nat, nat)>, at: nat, next: nat)
    requires Unseen(from, hidden) && Below(from, at)
    ensures Unseen(from, hidden + [(at, next)])
  {
  }

  // ----- The deletion stack -----

  /** An opening bracket of the input, or a bang right before one. */
  predicate Deletable(buf: seq<byte>, from: seq<int>, k: nat)
    requires |buf| == |from|
  {
    && k < |buf| && from[k] >= 0
    && (buf[k] == OPEN_BRACKET || (buf[k] == BANG && k + 1 < |buf| && buf[k + 1] == OPEN_BRACKET))
  }

  ghost predicate Stacked(s: Scan) {
    && |s.buf| == |s.from|
    && (forall b :: b in s.brackets ==> Deletable(s.buf, s.from, b))
    && (forall d :: d in s.deleted ==> Deletable(s.buf, s.from, d))
    && (forall i, j :: 0 <= i < j < |s.brackets| ==> s.brackets[i] < s.brackets[j])
    && (forall i, j :: 0 <= i < j < |s.deleted| ==> s.deleted[i] != s.deleted[j])
    && (forall d :: d in s.deleted ==> d !in s.brackets)
  }

  lemma GrowthKeepsStacked(text: seq<byte>, s: Scan, m: Move)
    requires Stacked(s) && s.at < |text| && InBounds(text, s.at, m) && (m.Copy? || m.Hide?)
    ensures Stacked(Apply(text, s, m))
  {
  }

  lemma NoBangInMarker()
    ensures forall j :: 0 <= j < |SPOILER| ==> SPOILER[j] != BANG
  {
  }

  lemma BracketsBelow(s: Scan)
    requires Stacked(s)
    ensures forall i :: 0 <= i < |s.brackets| ==> s.brackets[i] in s.brackets && s.brackets[i] < |s.buf|
  {
    forall i | 0 <= i < |s.brackets| ensures s.brackets[i] in s.brackets && s.brackets[i] < |s.buf| {
      assert s.brackets[i] in s.brackets;
    }
  }

  /** A trailing bang is a byte of the input, and not yet on a stack. */
  lemma BangIsFree(text: seq<byte>, s: Scan)
    requires Stacked(s) && Sourced(text, s.buf, s.from) && s.buf != [] && s.buf[|s.buf| - 1] == BANG
    ensures s.from[|s.buf| - 1] >= 0
    ensures forall k :: k in s.brackets || k in s.deleted ==> k < |s.buf| - 1
  {
    NoBangInMarker();
  }

  lemma OpenKeepsStacked(text: seq<byte>, s: Scan, image: bool)
    requires Stacked(s) && Sourced(text, s.buf, s.from) && s.at < |text| && text[s.at] == OPEN_BRACKET
    requires image ==> s.buf != [] && s.buf[|s.buf| - 1] == BANG
    ensures Stacked(Apply(text, s, Open(image)))
  {
    hide Sourced;
    BracketsBelow(s);
    if image { BangIsFree(text, s); }
    var t := Apply(text, s, Open(image));
    var n := |s.buf|;
    assert t.from[n] >= 0 && t.buf[n] == OPEN_BRACKET;
    assert t.brackets == s.brackets + if image then [n - 1, n] else [n];
  }

  lemma LinkKeepsStacked(text: seq<byte>, s: Scan, next: nat)
    requires Stacked(s) && s.at < |text| && InBounds(text, s.at, Link(next)) && s.brackets != []
    ensures Stacked(Apply(text, s, Link(next)))
  {
    var t, gone := Apply(text, s, Link(next)), Closing(s);
    var n := |s.brackets|;
    assert forall i :: 0 <= i < |s.deleted| ==> s.deleted[i] in s.deleted;
    assert forall g :: g in gone ==> g in s.brackets;
    assert forall b :: b in t.brackets ==> b in s.brackets;
    forall d | d in gone ensures d !in t.brackets && d !in s.deleted {}
    forall d | d in t.deleted ensures d in s.deleted || d in gone {}
  }

  // ----- Every step -----

  lemma DecidesToHideSpoilers(text: seq<byte>, s: Scan)
    requires s.at < |text| && Decide(text, s).Hide?
    ensures Spoiler(text, (s.at, Decide(text, s).next))
  {
  }

  lemma StepTraces(text: seq<byte>, s: Scan)
    requires s.at < |text| && Traced(text, s)
    ensures Traced(text, Step(text, s))
  {
    DecidesInBounds(text, s);
    StepApplies(text, s);
    var m := Decide(text, s);
    if m.Hide? { DecidesToHideSpoilers(text, s); }
    hide Traced, Spoiler, Decide, Step;
    match m {
      case Copy(lo, hi, next) => CopyTraces(text, s, lo, hi, next);
      case Hide(next) => HideTraces(text, s, next);
      case Open(image) => OpenTraces(text, s, image);
      case Link(next) => LinkTraces(text, s, next);
    }
  }

  lemma StepApplies(text: seq<byte>, s: Scan)
    requires s.at < |text|
    ensures InBounds(text, s.at, Decide(text, s)) && Step(text, s) == Apply(text, s, Decide(text, s))
    ensures Decide(text, s).Link? ==> s.brackets != []
    ensures Decide(text, s).Open? && Decide(text, s).image ==> s.buf != []
  {
    DecidesInBounds(text, s);
    hide CodeMove, PipeMove, AngleMove, EmphasisMove, Apply;
  }

  /** Provenance does not look at the stacks. */
  lemma TracesAlike(text: seq<byte>, s: Scan, t: Scan)
    requires Traced(text, s) && t.at == s.at && t.buf == s.buf && t.from == s.from && t.hidden == s.hidden
    ensures Traced(text, t)
  {
    hide *;
    Traces(text, s);
    Traces(text, t);
  }

  lemma OpensLikeCopy(text: seq<byte>, s: Scan, image: bool)
    requires s.at < |text| && (image ==> s.buf != [])
    ensures var t, c := Apply(text, s, Open(image)), Apply(text, s, Copy(s.at, s.at + 1, s.at + 1));
            t.at == c.at && t.buf == c.buf && t.from == c.from && t.hidden == c.hidden
  {
    assert Offsets(s.at, s.at + 1) == [s.at] && text[s.at..s.at + 1] == [text[s.at]];
  }

  lemma LinksLikeCopy(text: seq<byte>, s: Scan, next: nat)
    requires s.at < |text| && InBounds(text, s.at, Link(next)) && s.brackets != []
    ensures var t, c := Apply(text, s, Link(next)), Apply(text, s, Copy(s.at, s.at, next));
            t.at == c.at && t.buf == c.buf && t.from == c.from && t.hidden == c.hidden
  {
    hide Closing;
    assert s.buf + text[s.at..s.at] == s.buf && s.from + Offsets(s.at, s.at) == s.from;
  }

  /** To provenance, opening a bracket is copying it, and dropping a link target is copying nothing. */
  lemma OpenTraces(text: seq<byte>, s: Scan, image: bool)
    requires Traced(text, s) && s.at < |text| && (image ==> s.buf != [])
    ensures Traced(text, Apply(text, s, Open(image)))
  {
    hide Traced;
    CopyTraces(text, s, s.at, s.at + 1, s.at + 1);
    OpensLikeCopy(text, s, image);
    hide Apply;
    TracesAlike(text, Apply(text, s, Copy(s.at, s.at + 1, s.at + 1)), Apply(text, s, Open(image)));
  }

  lemma LinkTraces(text: seq<byte>, s: Scan, next: nat)
    requires Traced(text, s) && s.at < |text| && InBounds(text, s.at, Link(next)) && s.brackets != []
    ensures Traced(text, Apply(text, s, Link(next)))
  {
    hide Traced;
    CopyTraces(text, s, s.at, s.at, next);
    LinksLikeCopy(text, s, next);
    hide Apply;
    TracesAlike(text, Apply(text, s, Copy(s.at, s.at, next)), Apply(text, s, Link(next)));
  }

  lemma StepStacks(text: seq<byte>, s: Scan)
    requires s.at < |text| && Traced(text, s) && Stacked(s)
    ensures Stacked(Step(text, s))
  {
    DecidesInBounds(text, s);
    var m := Decide(text, s);
    match m {
      case Copy(_, _, _) => GrowthKeepsStacked(text, s, m);
      case Hide(_) => GrowthKeepsStacked(text, s, m);
      case Open(image) => OpenKeepsStacked(text, s, image);
      case Link(next) => LinkKeepsStacked(text, s, next);
    }
  }

  lemma StartTraced(text: seq<byte>)
    ensures Traced(text, START) && Stacked(START)
  {
  }

  lemma {:induction false} FinishTraces(text: seq<byte>, s: Scan)
    requires Traced(text, s) && Stacked(s)
    ensures Traced(text, Finish(text, s)) && Stacked(Finish(text, s))
    decreases |text| - s.at
  {
    if s.at < |text| {
      StepTraces(text, s);
      StepStacks(text, s);
      FinishTraces(text, Step(text, s));
    }
  }

  // ----- Dropping the deleted bytes -----

  lemma {:induction false} KeptAreMembers(from: seq<int>, dead: seq<nat>)
    ensures forall x :: x in Keep(from, dead) ==> x in from
  {
    if from != [] {
      KeptAreMembers(from[..|from| - 1], dead);
      forall x | x in Keep(from, dead) ensures x in from {
        if x in Keep(from[..|from| - 1], dead) { assert x in from[..|from| - 1]; }
      }
    }
  }

  lemma {:induction false} KeepSources(text: seq<byte>, buf: seq<byte>, from: seq<int>, dead: seq<nat>)
    requires Sourced(text, buf, from)
    ensures Sourced(text, Keep(buf, dead), Keep(from, dead))
  {
    if from != [] {
      var n := |from| - 1;
      KeepSources(text, buf[..n], from[..n], dead);
      assert Sourced(text, [buf[n]], [from[n]]);
      SourcedConcat(text, Keep(buf[..n], dead), Keep(from[..n], dead), [buf[n]], [from[n]]);
    }
  }

  lemma {:induction false} KeepOrders(from: seq<int>, dead: seq<nat>)
    requires Ordered(from)
    ensures Ordered(Keep(from, dead))
  {
    if from != [] {
      var less := from[..|from| - 1];
      KeepOrders(less, dead);
      KeptAreMembers(less, dead);
      var kept := Keep(less, dead);
      assert forall j :: 0 <= j < |kept| ==> kept[j] in kept;
    }
  }

  lemma KeepStaysUnseen(from: seq<int>, dead: seq<nat>, hidden: seq<(nat, nat)>)
    requires Unseen(from, hidden)
    ensures Unseen(Keep(from, dead), hidden)
  {
    KeptAreMembers(from, dead);
    var kept := Keep(from, dead);
    forall k, h | 0 <= k < |kept| && 0 <= h < |hidden|
      ensures !(hidden[h].0 <= kept[k] < hidden[h].1)
    {
      assert kept[k] in kept;
      var j :| 0 <= j < |from| && from[j] == kept[k];
    }
  }

  /** No byte of a marker is dropped. */
  predicate Spares(from: seq<int>, dead: seq<nat>) { forall d :: d in dead && d < |from| ==> from[d] >= 0 }

  /** A kept prefix ends in a marker byte only where the prefix itself does. */
  ghost predicate Linkable(from: seq<int>, kept: seq<int>) {
    && Linked(kept) && (kept != [] ==> kept[0] >= -1 && from != [])
    && (from != [] && from[|from| - 1] < 0 ==> kept != [] && kept[|kept| - 1] == from[|from| - 1])
    && (kept != [] && Inner(kept[|kept| - 1]) ==> kept[|kept| - 1] == from[|from| - 1])
  }

  lemma LinkOne(from: seq<int>, kept: seq<int>, x: int, dropped: bool)
    requires Linkable(from, kept) && (if from == [] then x >= -1 else Follows(from[|from| - 1], x))
    requires dropped ==> x >= 0
    ensures Linkable(from + [x], kept + if dropped then [] else [x])
  {
    var more := kept + if dropped then [] else [x];
    assert dropped ==> more == kept;
    forall k | 0 < k < |more| ensures Follows(more[k - 1], more[k]) {
      if k < |kept| { assert Follows(kept[k - 1], kept[k]); }
    }
  }

  lemma {:induction false} KeepLinks(from: seq<int>, dead: seq<nat>)
    requires Linked(from) && Spares(from, dead) && (from != [] ==> from[0] >= -1)
    ensures Linkable(from, Keep(from, dead))
  {
    if from != [] {
      var n := |from| - 1;
      KeepLinks(from[..n], dead);
      LinkOne(from[..n], Keep(from[..n], dead), from[n], n in dead);
      assert from[..n] + [from[n]] == from;
    }
  }

  lemma {:induction false} KeepCounts(from: seq<int>, dead: seq<nat>)
    requires Spares(from, dead)
    ensures Markers(Keep(from, dead)) == Markers(from)
  {
    hide *;
    if from == [] {
      NothingKept(from, dead);
    } else {
      var n := |from| - 1;
      SparesLess(from, dead);
      KeepLast(from, dead);
      KeepCounts(from[..n], dead);
      MarkersConcat(Keep(from[..n], dead), [from[n]]);
      MarkersConcat(from[..n], [from[n]]);
      assert from[..n] + [from[n]] == from;
      if n in dead { NoMarkers([from[n]]); }
    }
  }

  lemma NothingKept(from: seq<int>, dead: seq<nat>)
    requires from == []
    ensures Keep(from, dead) == from
  {
  }

  lemma SparesLess(from: seq<int>, dead: seq<nat>)
    requires Spares(from, dead) && from != []
    ensures Spares(from[..|from| - 1], dead) && (|from| - 1 in dead ==> from[|from| - 1] >= 0)
  {
  }

  lemma KeepLast(from: seq<int>, dead: seq<nat>)
    requires from != []
    ensures var n := |from| - 1;
            Keep(from, dead) == if n in dead then Keep(from[..n], dead) else Keep(from[..n], dead) + [from[n]]
  {
    assert Keep(from[..|from| - 1], dead) + [] == Keep(from[..|from| - 1], dead);
  }

  /**
   * The projection is made of whole markers, one for every span the scanner hid,
   * and of input bytes at strictly increasing positions, none inside such a span.
   */
  lemma Provenance(text: seq<byte>) returns (from: seq<int>)
    ensures var hidden := Finish(text, START).hidden;
            && Sourced(text, Project(text), from) && Ordered(from) && Whole(from)
            && Unseen(from, hidden) && Concealed(text, hidden, |text|) && Markers(from) == |hidden|
  {
    var s := Finish(text, START);
    FinishTraces(text, START);
    from := Keep(s.from, s.deleted);
    KeepWhole(s.from, s.deleted);
    ReadsToEnd(text, START);
    hide Sourced, Ordered, Whole, Unseen, Spoiler, Markers;
    KeepSources(text, s.buf, s.from, s.deleted);
    KeepOrders(s.from, s.deleted);
    KeepStaysUnseen(s.from, s.deleted, s.hidden);
    KeepCounts(s.from, s.deleted);
  }

  // ----- The hidden spans are the scanner's decisions -----

  /** The scan after `n` more steps. */
  function AfterSteps(text: seq<byte>, s: Scan, n: nat): Scan
    decreases n
  {
    if n == 0 || s.at >= |text| then s else AfterSteps(text, Step(text, s), n - 1)
  }

  lemma {:induction false} AfterFinishes(text: seq<byte>, s: Scan, n: nat)
    ensures Finish(text, AfterSteps(text, s, n)) == Finish(text, s) && s.at <= AfterSteps(text, s, n).at
    decreases n
  {
    hide Step;
    if n > 0 && s.at < |text| {
      assert s.at < Step(text, s).at;
      AfterFinishes(text, Step(text, s), n - 1);
    }
  }

  lemma StepGrows(text: seq<byte>, s: Scan)
    requires s.at < |text|
    ensures var m, t := Decide(text, s), Step(text, s);
            t.hidden == if m.Hide? then s.hidden + [(s.at, m.next)] else s.hidden
  {
    DecidesInBounds(text, s);
    hide Decide;
  }

  lemma {:induction false} HiddenGrows(text: seq<byte>, s: Scan)
    ensures s.hidden <= Finish(text, s).hidden
    decreases |text| - s.at
  {
    if s.at < |text| {
      StepGrows(text, s);
      hide Step, Decide;
      HiddenGrows(text, Step(text, s));
    }
  }

  /** Where the scanner decides to hide, the span it jumps over is listed. */
  lemma EveryHideIsListed(text: seq<byte>, n: nat)
    requires AfterSteps(text, START, n).at < |text| && Decide(text, AfterSteps(text, START, n)).Hide?
    ensures (AfterSteps(text, START, n).at, Decide(text, AfterSteps(text, START, n)).next) in Finish(text, START).hidden
  {
    var s := AfterSteps(text, START, n);
    AfterFinishes(text, START, n);
    StepGrows(text, s);
    HiddenGrows(text, Step(text, s));
    var span := (s.at, Decide(text, s).next);
    hide Step, Decide, AfterSteps;
    assert Step(text, s).hidden[|s.hidden|] == span;
    assert Finish(text, START).hidden[|s.hidden|] == span;
  }

  /** The scanner decides at the first byte of the span to hide exactly it. */
  ghost predicate Hides(text: seq<byte>, s: Scan, span: (nat, nat)) {
    s.at < |text| && Decide(text, s).Hide? && span == (s.at, Decide(text, s).next)
  }

  lemma ListedNow(text: seq<byte>, s: Scan, h: nat)
    requires s.at < |text| && |s.hidden| <= h < |Step(text, s).hidden|
    ensures h < |Finish(text, s).hidden| && Hides(text, s, Finish(text, s).hidden[h])
  {
    StepGrows(text, s);
    HiddenGrows(text, Step(text, s));
    hide Step, Decide;
  }

  /** And nothing else is listed: every span was decided at its first byte. */
  lemma {:induction false} EveryListedIsDecided(text: seq<byte>, s: Scan, h: nat) returns (n: nat)
    requires |s.hidden| <= h < |Finish(text, s).hidden|
    ensures Hides(text, AfterSteps(text, s, n), Finish(text, s).hidden[h])
    decreases |text| - s.at
  {
    hide Step, Decide, Hides;
    assert s.at < |text|;
    if |Step(text, s).hidden| <= h {
      var m := EveryListedIsDecided(text, Step(text, s), h);
      n := m + 1;
    } else {
      ListedNow(text, s, h);
      n := 0;
    }
  }

  lemma KeepWhole(from: seq<int>, dead: seq<nat>)
    requires Whole(from) && Spares(from, dead)
    ensures Whole(Keep(from, dead))
  {
    KeepLinks(from, dead);
  }

  lemma {:induction false} ReadsToEnd(text: seq<byte>, s: Scan)
    requires s.at <= |text|
    ensures Finish(text, s).at == |text|
    decreases |text| - s.at
  {
    if s.at < |text| { ReadsToEnd(text, Step(text, s)); }
  }
}
