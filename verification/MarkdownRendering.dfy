/** Every projection is the rendering of its regions. */
module MarkdownRendering {
  import opened Common
  import opened Markdown
  import opened MarkdownTables
  import opened MarkdownRegions
  import opened MarkdownReference
  import opened MarkdownProvenance

  // ----- The stretches of one scan -----

  /** What the scan jumps over from here on. */
  function RegionsFrom(text: seq<byte>, s: Scan): seq<Region>
    decreases |text| - s.at
  {
    if s.at >= |text| then [] else Jumped(text, s.at, Decide(text, s)) + RegionsFrom(text, Step(text, s))
  }

  lemma StepLands(text: seq<byte>, s: Scan)
    requires s.at < |text|
    ensures var m := Decide(text, s);
            && Step(text, s).at == Landing(s.at, m) && s.at < Landing(s.at, m) <= |text|
            && forall r :: r in Jumped(text, s.at, m) ==> r == Region(r.kind, s.at, Landing(s.at, m))
  {
    StepApplies(text, s);
    hide Decide, Step, Closing;
  }

  lemma {:induction false} RegionsApart(text: seq<byte>, s: Scan)
    ensures Apart(RegionsFrom(text, s), |text|) && forall r :: r in RegionsFrom(text, s) ==> s.at <= r.start
    decreases |text| - s.at
  {
    if s.at < |text| {
      StepLands(text, s);
      hide Decide, Step, Apart;
      RegionsApart(text, Step(text, s));
      var m := Decide(text, s);
      PrependApart(Jumped(text, s.at, m), RegionsFrom(text, Step(text, s)), s.at, Landing(s.at, m), |text|);
    }
  }

  lemma PrependApart(first: seq<Region>, rest: seq<Region>, at: nat, next: nat, n: nat)
    requires at < next <= n && |first| <= 1 && forall r :: r in first ==> r == Region(r.kind, at, next)
    requires Apart(rest, n) && forall r :: r in rest ==> next <= r.start
    ensures Apart(first + rest, n) && forall r :: r in first + rest ==> at <= r.start
  {
    assert forall k :: 0 <= k < |rest| ==> rest[k] in rest;
    if first != [] {
      assert first == [first[0]] && first[0] in first;
    } else {
      assert first + rest == rest;
    }
  }

  /** The stretches behind the scan and those ahead of it. */
  ghost predicate Divided(rs: seq<Region>, done: seq<Region>, rest: seq<Region>, at: nat, n: nat) {
    && rs == done + rest && Apart(rs, n)
    && (forall r :: r in done ==> r.end <= at) && (forall r :: r in rest ==> at <= r.start)
  }

  lemma ClearAhead(rs: seq<Region>, done: seq<Region>, rest: seq<Region>, at: nat, next: nat, n: nat)
    requires Divided(rs, done, rest, at, n) && at <= next && forall r :: r in rest ==> next <= r.start
    ensures Clear(rs, at, next) && Divided(rs, done, rest, next, n)
  {
    assert forall r :: r in rs ==> (r in done || r in rest) && r.start < r.end;
    hide Apart;
  }

  lemma FilledAhead(rs: seq<Region>, done: seq<Region>, r: Region, rest: seq<Region>, n: nat)
    requires Divided(rs, done, [r] + rest, r.start, n)
    ensures Filled(rs, r) && Divided(rs, done + [r], rest, r.end, n)
  {
    forall q | q in rs ensures q.start < q.end && (q == r || q.end <= r.start || (r.end <= q.start && q in rest) || q in done) {
      BesideOthers(rs, done, r, rest, n, q);
    }
    assert rs[|done|] == r && rs == (done + [r]) + rest;
    forall q | q in rest ensures r.end <= q.start {
      assert q in rs;
      BesideOthers(rs, done, r, rest, n, q);
    }
    FilledBy(rs, r);
  }

  lemma BesideOthers(rs: seq<Region>, done: seq<Region>, r: Region, rest: seq<Region>, n: nat, q: Region)
    requires rs == done + ([r] + rest) && Apart(rs, n) && q in rs
    ensures q.start < q.end && (q == r || q.end <= r.start || r.end <= q.start)
    ensures q in rest ==> r.end <= q.start
  {
    var k :| 0 <= k < |rs| && rs[k] == q;
    assert rs[|done|] == r;
    if q in rest {
      var j :| 0 <= j < |rest| && rest[j] == q;
      assert rs[|done| + 1 + j] == q;
    }
  }

  lemma FilledBy(rs: seq<Region>, r: Region)
    requires r in rs && forall q :: q in rs ==> q.start < q.end && (q == r || q.end <= r.start || r.end <= q.start)
    ensures Filled(rs, r)
  {
    forall p: nat | r.start <= p < r.end ensures Skipped(rs, p) && forall q :: q in rs && Inside(q, p) ==> q == r {
      assert Inside(r, p);
    }
    forall p: nat, kind | r.start <= p < r.end ensures Begins(rs, kind, p) <==> p == r.start && kind == r.kind {
      if q :| q in rs && q.kind == kind && q.start == p { assert Inside(q, p); }
    }
  }

  lemma AheadHolds(text: seq<byte>, rs: seq<Region>, done: seq<Region>, s: Scan)
    requires s.at < |text| && Divided(rs, done, RegionsFrom(text, s), s.at, |text|)
    ensures Ahead(text, rs, s.at, Decide(text, s))
    ensures Divided(rs, done + Jumped(text, s.at, Decide(text, s)), RegionsFrom(text, Step(text, s)), Step(text, s).at, |text|)
  {
    var m, rest := Decide(text, s), RegionsFrom(text, Step(text, s));
    StepLands(text, s);
    RegionsApart(text, Step(text, s));
    hide Decide, Step, Divided, Clear, Filled;
    var j := Jumped(text, s.at, m);
    if j == [] {
      assert [] + rest == rest && done + [] == done;
      ClearAhead(rs, done, rest, s.at, Landing(s.at, m), |text|);
    } else {
      assert j == [j[0]] && j[0] in j;
      FilledAhead(rs, done, j[0], rest, |text|);
    }
  }

  // ----- What has been written -----

  /** Before links take their brackets away: where each byte comes from. */
  ghost function Written(text: seq<byte>, rs: seq<Region>, n: nat): seq<int>
    requires n <= |text|
  {
    if n == 0 then []
    else Written(text, rs, n - 1)
         + if Begins(rs, Hidden, n - 1) then Marked() else if Copied(text, rs, n - 1) then [n - 1] else []
  }

  lemma {:induction false} WritesStretch(text: seq<byte>, rs: seq<Region>, a: nat, b: nat, all: bool)
    requires a <= b <= |text|
    requires forall p :: a <= p < b ==> !Begins(rs, Hidden, p) && (Copied(text, rs, p) <==> all)
    ensures Written(text, rs, b) == Written(text, rs, a) + if all then Offsets(a, b) else []
    decreases b
  {
    hide Copied, Begins;
    if a < b {
      WritesStretch(text, rs, a, b - 1, all);
      assert Offsets(a, b) == Offsets(a, b - 1) + [b - 1];
    }
  }

  /** A step writes what its move says. */
  lemma WritesMove(text: seq<byte>, rs: seq<Region>, i: nat, m: Move)
    requires i < |text| && Tells(text, rs, i, m) && InBounds(text, i, m)
    ensures Written(text, rs, Landing(i, m)) == Written(text, rs, i) + match m
              case Copy(lo, hi, _) => Offsets(lo, hi)
              case Hide(_) => Marked()
              case Open(_) => [i]
              case Link(_) => []
  {
    hide Copied, Begins, Free, Fits, Poised;
    match m {
      case Copy(lo, hi, next) =>
        WritesStretch(text, rs, i, lo, false);
        WritesStretch(text, rs, lo, hi, true);
        WritesStretch(text, rs, hi, next, false);
      case Hide(next) => WritesStretch(text, rs, i + 1, next, false);
      case Open(_) => WritesStretch(text, rs, i, i + 1, true);
      case Link(next) => WritesStretch(text, rs, i, next, false);
    }
  }

  lemma {:induction false} OpensStretch(text: seq<byte>, rs: seq<Region>, a: nat, b: nat)
    requires a <= b <= |text|
    requires forall p :: a <= p < b ==> !(text[p] == 91 && Free(text, rs, p)) && !Begins(rs, Target, p)
    ensures Opens(text, rs, b) == Opens(text, rs, a)
    decreases b
  {
    hide Free, Begins;
    if a < b { OpensStretch(text, rs, a, b - 1); }
  }

  function WithoutLast(opens: seq<nat>): seq<nat> { if opens == [] then [] else opens[..|opens| - 1] }

  lemma OpensMove(text: seq<byte>, rs: seq<Region>, i: nat, m: Move)
    requires i < |text| && Tells(text, rs, i, m)
    ensures Opens(text, rs, Landing(i, m)) ==
            if m.Open? then Opens(text, rs, i) + [i] else if m.Link? then WithoutLast(Opens(text, rs, i)) else Opens(text, rs, i)
  {
    hide Copied, Begins, Free, Fits, Poised, Opens;
    OpensNext(text, rs, i);
    OpensStretch(text, rs, i + 1, Landing(i, m));
  }

  lemma OpensNext(text: seq<byte>, rs: seq<Region>, i: nat)
    requires i < |text|
    ensures Opens(text, rs, i + 1) == if text[i] == 91 && Free(text, rs, i) then Opens(text, rs, i) + [i]
                                      else if Begins(rs, Target, i) then WithoutLast(Opens(text, rs, i)) else Opens(text, rs, i)
  {
    hide Free, Begins;
  }

  lemma LinkedMove(text: seq<byte>, rs: seq<Region>, i: nat, m: Move, q: nat)
    requires i < |text| && Tells(text, rs, i, m)
    ensures LinkedBy(text, rs, Landing(i, m), q) <==>
              LinkedBy(text, rs, i, q) || (m.Link? && Opens(text, rs, i) != [] && Opens(text, rs, i)[|Opens(text, rs, i)| - 1] == q)
    ensures LinkedBy(text, rs, i, q) ==> q < i && q < |text| && text[q] == 91
  {
    hide Copied, Begins, Free, Fits, Poised, Opens;
    if m.Link? && Opens(text, rs, i) != [] && Opens(text, rs, i)[|Opens(text, rs, i)| - 1] == q {
      assert LinkedAt(text, rs, i, q);
    }
    if k :| 0 <= k < Landing(i, m) && LinkedAt(text, rs, k, q) {
      if k >= i { assert Begins(rs, Target, k); }
    }
  }

  // ----- The bracket stack -----

  predicate Banged(text: seq<byte>, p: nat)
    requires p <= |text|
  {
    p > 0 && text[p - 1] == 33
  }

  /** The stack holds the open brackets of the text, each above the bang right before it. */
  ghost predicate Matches(text: seq<byte>, from: seq<int>, brackets: seq<nat>, opens: seq<nat>)
    decreases |opens|
  {
    if opens == [] then brackets == []
    else
      var n, p, rest := |brackets|, opens[|opens| - 1], opens[..|opens| - 1];
      && n > 0 && brackets[n - 1] < |from| && from[brackets[n - 1]] == p && p < |text| && text[p] == 91
      && if Banged(text, p)
         then n > 1 && brackets[n - 2] + 1 == brackets[n - 1] && from[brackets[n - 2]] == p - 1
              && Matches(text, from, brackets[..n - 2], rest)
         else Matches(text, from, brackets[..n - 1], rest)
  }

  lemma {:induction false} MatchesGrows(text: seq<byte>, from: seq<int>, more: seq<int>, brackets: seq<nat>, opens: seq<nat>)
    requires Matches(text, from, brackets, opens)
    ensures Matches(text, from + more, brackets, opens)
    decreases |opens|
  {
    if opens != [] {
      var n, p := |brackets|, opens[|opens| - 1];
      MatchesGrows(text, from, more, brackets[..if Banged(text, p) then n - 2 else n - 1], opens[..|opens| - 1]);
    }
  }

  /** The stack with a new bracket on it, above its bang if it has one. */
  function Raised(brackets: seq<nat>, at: nat, image: bool): seq<nat>
    requires image ==> at > 0
  {
    brackets + (if image then [at - 1] else []) + [at]
  }

  lemma MatchesPush(text: seq<byte>, from: seq<int>, brackets: seq<nat>, opens: seq<nat>, i: nat)
    requires Matches(text, from, brackets, opens) && i < |text| && text[i] == 91
    requires Banged(text, i) ==> from != [] && from[|from| - 1] == i - 1
    ensures Matches(text, from + [i], Raised(brackets, |from|, Banged(text, i)), opens + [i])
    ensures forall b :: b in Raised(brackets, |from|, Banged(text, i)) ==> b in brackets || b <= |from|
  {
    MatchesGrows(text, from, [i], brackets, opens);
    hide Banged;
    var all := Raised(brackets, |from|, Banged(text, i));
    assert (opens + [i])[..|opens|] == opens;
    assert all[..|brackets|] == brackets;
  }

  lemma TopIsBracket(text: seq<byte>, from: seq<int>, brackets: seq<nat>, opens: seq<nat>)
    requires Matches(text, from, brackets, opens) && brackets != []
    ensures var top := brackets[|brackets| - 1]; top < |from| && 0 <= from[top] < |text| && text[from[top]] == 91
  {
  }

  /** A closing bracket takes the last open one off the stack, and its bang. */
  lemma ClosingMatches(text: seq<byte>, s: Scan, opens: seq<nat>)
    requires Matches(text, s.from, s.brackets, opens) && opens != [] && Sourced(text, s.buf, s.from)
    ensures s.brackets != [] && |Closing(s)| <= |s.brackets|
    ensures Matches(text, s.from, s.brackets[..|s.brackets| - |Closing(s)|], opens[..|opens| - 1])
    ensures var p, open := opens[|opens| - 1], s.brackets[|s.brackets| - 1];
            && open < |s.from| && s.from[open] == p
            && if Banged(text, p) then open > 0 && s.from[open - 1] == p - 1 && Closing(s) == [open, open - 1]
               else Closing(s) == [open]
  {
    var n, p := |s.brackets|, opens[|opens| - 1];
    hide Banged;
    if !Banged(text, p) && n > 1 {
      TopIsBracket(text, s.from, s.brackets[..n - 1], opens[..|opens| - 1]);
      assert s.buf[s.brackets[n - 2]] == 91;
    }
  }

  lemma OnlyPlace(from: seq<int>, j: nat, k: nat)
    requires Ordered(from) && j < |from| && k < |from| && from[j] == from[k] >= 0
    ensures j == k
  {
  }

  // ----- The scan, step by step -----

  /** The stacked indices are those of the bytes that links take away. */
  ghost predicate Deletes(text: seq<byte>, rs: seq<Region>, at: nat, from: seq<int>, deleted: seq<nat>)
    requires at <= |text|
  {
    forall k :: 0 <= k < |from| ==>
      (k in deleted <==> 0 <= from[k] < |text| && Dropped(text, rs, at, from[k]))
  }

  ghost predicate InStep(text: seq<byte>, rs: seq<Region>, s: Scan) {
    && s.at <= |text| && Poised(text, rs, s.at) && s.from == Written(text, rs, s.at)
    && Matches(text, s.from, s.brackets, Opens(text, rs, s.at))
    && Deletes(text, rs, s.at, s.from, s.deleted) && (forall d :: d in s.deleted ==> d < |s.from|)
    && (Banged(text, s.at) ==> s.from != [] && s.from[|s.from| - 1] == s.at - 1)
    && (forall r: Region :: r.start < s.at && Free(text, rs, r.start) ==> !Fits(text, rs, r))
  }

  lemma DropsNothingNew(text: seq<byte>, rs: seq<Region>, i: nat, m: Move, from: seq<int>, more: seq<int>, deleted: seq<nat>)
    requires i < |text| && Tells(text, rs, i, m) && !m.Link?
    requires Deletes(text, rs, i, from, deleted) && (forall d :: d in deleted ==> d < |from|)
    requires forall k :: 0 <= k < |more| ==> more[k] < 0 || more[k] >= i
    ensures Deletes(text, rs, Landing(i, m), from + more, deleted)
  {
    forall q: nat ensures LinkedBy(text, rs, Landing(i, m), q) <==> LinkedBy(text, rs, i, q) { LinkedMove(text, rs, i, m, q); }
    forall q: nat | LinkedBy(text, rs, i, q) ensures q < i { LinkedMove(text, rs, i, m, q); }
    hide Tells, LinkedBy;
  }

  lemma DeletesMore(text: seq<byte>, rs: seq<Region>, at: nat, next: nat, from: seq<int>, deleted: seq<nat>, gone: seq<nat>, p: nat)
    requires at <= |text| && next <= |text| && p <= |text| && Deletes(text, rs, at, from, deleted)
    requires forall k :: 0 <= k < |from| ==> from[k] < |text|
    requires forall q: nat :: LinkedBy(text, rs, next, q) <==> LinkedBy(text, rs, at, q) || q == p
    requires forall k :: 0 <= k < |from| ==>
               (k in gone <==> from[k] >= 0 && (from[k] == p || (Banged(text, p) && from[k] == p - 1)))
    ensures Deletes(text, rs, next, from, deleted + gone)
  {
    hide LinkedBy;
  }

  lemma ClosingPlaces(text: seq<byte>, s: Scan, opens: seq<nat>, k: nat)
    requires Matches(text, s.from, s.brackets, opens) && opens != [] && Sourced(text, s.buf, s.from) && Ordered(s.from)
    requires k < |s.from|
    ensures s.brackets != []
    ensures var p := opens[|opens| - 1];
            && p < |text|
            && (k in Closing(s) <==> s.from[k] >= 0 && (s.from[k] == p || (Banged(text, p) && s.from[k] == p - 1)))
    ensures forall d :: d in Closing(s) ==> d < |s.from|
  {
    assert opens[|opens| - 1] < |text|;
    ClosingMatches(text, s, opens);
    hide Matches, Closing, Sourced, Ordered;
    var p, open := opens[|opens| - 1], s.brackets[|s.brackets| - 1];
    if s.from[k] == p { OnlyPlace(s.from, k, open); }
    if Banged(text, p) && s.from[k] == p - 1 { OnlyPlace(s.from, k, open - 1); }
  }

  lemma DropsClosed(text: seq<byte>, rs: seq<Region>, s: Scan, m: Move)
    requires s.at < |text| && Tells(text, rs, s.at, m) && m.Link? && Opens(text, rs, s.at) != []
    requires Sourced(text, s.buf, s.from) && Ordered(s.from) && Matches(text, s.from, s.brackets, Opens(text, rs, s.at))
    requires Deletes(text, rs, s.at, s.from, s.deleted)
    ensures s.brackets != [] && Deletes(text, rs, Landing(s.at, m), s.from, s.deleted + Closing(s))
    ensures forall d :: d in Closing(s) ==> d < |s.from|
  {
    assert forall k :: 0 <= k < |s.from| ==> s.from[k] < |text|;
    hide Tells, LinkedBy, Matches, Opens, Closing, Sourced, Ordered, Deletes, Banged;
    var opens := Opens(text, rs, s.at);
    var p := opens[|opens| - 1];
    ClosingMatches(text, s, opens);
    MoveLands(text, rs, s.at, m);
    forall q: nat ensures LinkedBy(text, rs, Landing(s.at, m), q) <==> LinkedBy(text, rs, s.at, q) || q == p {
      LinkedMove(text, rs, s.at, m, q);
    }
    forall k | 0 <= k < |s.from|
      ensures k in Closing(s) <==> s.from[k] >= 0 && (s.from[k] == p || (Banged(text, p) && s.from[k] == p - 1))
    {
      ClosingPlaces(text, s, opens, k);
    }
    if s.from != [] { ClosingPlaces(text, s, opens, 0); }
    DeletesMore(text, rs, s.at, Landing(s.at, m), s.from, s.deleted, Closing(s), p);
  }

  lemma MoveLands(text: seq<byte>, rs: seq<Region>, i: nat, m: Move)
    requires i < |text| && Tells(text, rs, i, m)
    ensures i < Landing(i, m) <= |text| && Poised(text, rs, Landing(i, m))
    ensures Banged(text, Landing(i, m)) ==> m.Copy? && m.lo < m.hi == m.next
    ensures forall r: Region :: i <= r.start < Landing(i, m) && Free(text, rs, r.start) ==> !Fits(text, rs, r)
  {
    hide Poised, Free, Fits, Begins, Copied;
  }

  /** The parts of the next state, put together. */
  lemma InStepNext(text: seq<byte>, rs: seq<Region>, s: Scan, t: Scan, m: Move)
    requires s.at < |text| && InStep(text, rs, s) && Tells(text, rs, s.at, m) && t.at == Landing(s.at, m) <= |text|
    requires t.from == Written(text, rs, t.at) && Matches(text, t.from, t.brackets, Opens(text, rs, t.at))
    requires Deletes(text, rs, t.at, t.from, t.deleted) && (forall d :: d in t.deleted ==> d < |t.from|)
    requires m.Copy? && m.lo < m.hi == m.next ==> t.from != [] && t.from[|t.from| - 1] == t.at - 1
    ensures InStep(text, rs, t)
  {
    hide Tells, Poised, Matches, Deletes, Written, Opens, Fits, Free;
    MoveLands(text, rs, s.at, m);
  }

  lemma SameEmpty(text: seq<byte>, from: seq<int>, brackets: seq<nat>, opens: seq<nat>)
    requires Matches(text, from, brackets, opens)
    ensures brackets == [] <==> opens == []
  {
  }

  lemma CopyKeeps(text: seq<byte>, rs: seq<Region>, s: Scan, m: Move)
    requires s.at < |text| && InStep(text, rs, s) && Tells(text, rs, s.at, m) && InBounds(text, s.at, m) && (m.Copy? || m.Hide?)
    ensures InStep(text, rs, Apply(text, s, m))
  {
    InStepHas(text, rs, s);
    hide InStep, Tells, Matches, Deletes, Written, Opens;
    MoveLands(text, rs, s.at, m);
    var more := if m.Copy? then Offsets(m.lo, m.hi) else Marked();
    WritesMove(text, rs, s.at, m);
    OpensMove(text, rs, s.at, m);
    MatchesGrows(text, s.from, more, s.brackets, Opens(text, rs, s.at));
    DropsNothingNew(text, rs, s.at, m, s.from, more, s.deleted);
    InStepNext(text, rs, s, Apply(text, s, m), m);
  }

  lemma OpenKeeps(text: seq<byte>, rs: seq<Region>, s: Scan, m: Move)
    requires s.at < |text| && InStep(text, rs, s) && Tells(text, rs, s.at, m) && m.Open? && text[s.at] == 91
    requires (m.image <==> Banged(text, s.at)) && |s.buf| == |s.from|
    ensures m.image ==> s.buf != []
    ensures InStep(text, rs, Apply(text, s, m))
  {
    hide *;
    InStepHas(text, rs, s);
    OpenInBounds(text, s, m);
    MoveLands(text, rs, s.at, m);
    WritesMove(text, rs, s.at, m);
    OpensMove(text, rs, s.at, m);
    MatchesPush(text, s.from, s.brackets, Opens(text, rs, s.at), s.at);
    DropsNothingNew(text, rs, s.at, m, s.from, [s.at], s.deleted);
    OpenApplies(text, s, m);
    InStepNext(text, rs, s, Apply(text, s, m), m);
  }

  lemma OpenInBounds(text: seq<byte>, s: Scan, m: Move)
    requires s.at < |text| && m.Open?
    ensures InBounds(text, s.at, m) && Landing(s.at, m) == s.at + 1
  {
  }

  lemma OpenApplies(text: seq<byte>, s: Scan, m: Move)
    requires s.at < |text| && m.Open? && (m.image ==> s.buf != []) && |s.buf| == |s.from|
    ensures Apply(text, s, m) == s.(at := s.at + 1, buf := s.buf + [text[s.at]], from := s.from + [s.at],
      brackets := Raised(s.brackets, |s.from|, m.image))
  {
    assert s.brackets + ((if m.image then [|s.buf| - 1] else []) + [|s.buf|])
        == s.brackets + (if m.image then [|s.buf| - 1] else []) + [|s.buf|];
  }

  lemma LinkKeeps(text: seq<byte>, rs: seq<Region>, s: Scan, m: Move)
    requires s.at < |text| && InStep(text, rs, s) && Tells(text, rs, s.at, m) && InBounds(text, s.at, m) && m.Link?
    requires s.brackets != [] && Sourced(text, s.buf, s.from) && Ordered(s.from)
    ensures InStep(text, rs, Apply(text, s, m))
  {
    InStepHas(text, rs, s);
    hide InStep, Tells, Matches, Deletes, Written, Opens, Sourced, Ordered, Closing, Apply, InBounds;
    var opens := Opens(text, rs, s.at);
    SameEmpty(text, s.from, s.brackets, opens);
    MoveLands(text, rs, s.at, m);
    WritesMove(text, rs, s.at, m);
    OpensMove(text, rs, s.at, m);
    ClosingMatches(text, s, opens);
    DropsClosed(text, rs, s, m);
    LinkApplies(text, s, m);
    InStepNext(text, rs, s, Apply(text, s, m), m);
  }

  lemma InStepHas(text: seq<byte>, rs: seq<Region>, s: Scan)
    requires InStep(text, rs, s)
    ensures s.at <= |text| && s.from == Written(text, rs, s.at) && Matches(text, s.from, s.brackets, Opens(text, rs, s.at))
    ensures Deletes(text, rs, s.at, s.from, s.deleted) && forall d :: d in s.deleted ==> d < |s.from|
    ensures Banged(text, s.at) ==> s.from != [] && s.from[|s.from| - 1] == s.at - 1
  {
    hide Matches, Deletes, Written, Opens, Fits, Free, Poised;
  }

  lemma LinkApplies(text: seq<byte>, s: Scan, m: Move)
    requires s.at < |text| && InBounds(text, s.at, m) && m.Link? && s.brackets != []
    requires |Closing(s)| <= |s.brackets|
    ensures Apply(text, s, m) == s.(at := m.next, brackets := s.brackets[..|s.brackets| - |Closing(s)|],
                                    deleted := s.deleted + Closing(s))
  {
    hide Closing;
  }

  /** Where a bang stands before a bracket, the scan has just copied it. */
  lemma ImageIs(text: seq<byte>, rs: seq<Region>, s: Scan)
    requires s.at < |text| && InStep(text, rs, s) && Sourced(text, s.buf, s.from) && Decide(text, s).Open?
    ensures text[s.at] == 91 && (Decide(text, s).image <==> Banged(text, s.at))
  {
    hide Poised, Matches, Deletes, Written, Opens, Fits, Free, Copied, Begins;
    OpenIs(text, s);
  }

  lemma OpenIs(text: seq<byte>, s: Scan)
    requires s.at < |text|
    ensures Decide(text, s).Open? ==>
              text[s.at] == 91 && (Decide(text, s).image <==>
                                     s.at > 0 && text[s.at - 1] == 33 && s.buf != [] && s.buf[|s.buf| - 1] == 33)
  {
    if text[s.at] == 96 {
      TickDecides(text, s);
      CodeIsPaired(text, s.at);
      hide Decide, CodeMove;
    }
    hide CodeMove, Positions, FirstFrom, Literal, RunEnd;
  }

  /** One step keeps everything, and the stretch it jumps over fits. */
  lemma StepKeeps(text: seq<byte>, rs: seq<Region>, done: seq<Region>, s: Scan)
    requires s.at < |text| && Traced(text, s) && InStep(text, rs, s)
    requires Divided(rs, done, RegionsFrom(text, s), s.at, |text|)
    ensures InStep(text, rs, Step(text, s))
    ensures forall r :: r in Jumped(text, s.at, Decide(text, s)) ==> Fits(text, rs, r) && !Escaped(text, rs, r.start)
  {
    var m := Decide(text, s);
    AheadHolds(text, rs, done, s);
    StepLands(text, s);
    assert Sourced(text, s.buf, s.from) && Ordered(s.from) && Poised(text, rs, s.at) && Matches(text, s.from, s.brackets, Opens(text, rs, s.at));
    SameEmpty(text, s.from, s.brackets, Opens(text, rs, s.at));
    hide Decide, Step, Tells, InStep, Matches, Traced, Divided, Ahead, Sourced, Ordered, Fits, Opens;
    StepIsTold(text, rs, s);
    StepApplies(text, s);
    match m {
      case Copy(_, _, _) => CopyKeeps(text, rs, s, m);
      case Hide(_) => CopyKeeps(text, rs, s, m);
      case Open(_) =>
        ImageIs(text, rs, s);
        SameLength(text, s);
        OpenKeeps(text, rs, s, m);
      case Link(_) => LinkKeeps(text, rs, s, m);
    }
  }

  lemma SameLength(text: seq<byte>, s: Scan)
    requires Sourced(text, s.buf, s.from)
    ensures |s.buf| == |s.from|
  {
  }

  // ----- The whole scan -----

  ghost predicate AllFit(text: seq<byte>, rs: seq<Region>, some: seq<Region>) {
    forall r :: r in some ==> Fits(text, rs, r) && !Escaped(text, rs, r.start)
  }

  lemma {:induction false} FinishKeeps(text: seq<byte>, rs: seq<Region>, done: seq<Region>, s: Scan)
    requires Traced(text, s) && InStep(text, rs, s) && s.at <= |text|
    requires Divided(rs, done, RegionsFrom(text, s), s.at, |text|) && AllFit(text, rs, done)
    ensures InStep(text, rs, Finish(text, s)) && Finish(text, s).at == |text| && AllFit(text, rs, rs)
    ensures Traced(text, Finish(text, s))
    decreases |text| - s.at
  {
    hide Traced, InStep, Fits, Escaped, Step, Decide;
    if s.at < |text| {
      AheadHolds(text, rs, done, s);
      StepKeeps(text, rs, done, s);
      StepTraces(text, s);
      FinishKeeps(text, rs, done + Jumped(text, s.at, Decide(text, s)), Step(text, s));
    } else {
      assert done + [] == done;
    }
  }

  lemma StartsInStep(text: seq<byte>, rs: seq<Region>)
    ensures InStep(text, rs, START)
  {
  }

  // ----- Dropping the brackets of links -----

  lemma {:induction false} KeepAlive<T>(a: seq<T>, tail: seq<T>, dead: seq<nat>)
    requires forall k :: |a| <= k < |a| + |tail| ==> k !in dead
    ensures Keep(a + tail, dead) == Keep(a, dead) + tail
    decreases |tail|
  {
    if tail == [] {
      assert a + tail == a;
    } else {
      var n := |tail| - 1;
      KeepAlive(a, tail[..n], dead);
      assert (a + tail)[..|a| + n] == a + tail[..n];
      assert tail == tail[..n] + [tail[n]];
    }
  }

  lemma KeepDead<T>(a: seq<T>, x: T, dead: seq<nat>)
    requires |a| in dead
    ensures Keep(a + [x], dead) == Keep(a, dead)
  {
    assert (a + [x])[..|a|] == a;
  }

  /** Where each byte of the rendering comes from. */
  ghost function Origins(text: seq<byte>, rs: seq<Region>, n: nat): seq<int>
    requires n <= |text|
  {
    if n == 0 then []
    else Origins(text, rs, n - 1)
         + if Begins(rs, Hidden, n - 1) then Marked() else if Survives(text, rs, n - 1) then [n - 1] else []
  }

  lemma {:induction false} KeptAreOrigins(text: seq<byte>, rs: seq<Region>, n: nat, dead: seq<nat>)
    requires n <= |text| && Deletes(text, rs, |text|, Written(text, rs, n), dead)
    ensures Keep(Written(text, rs, n), dead) == Origins(text, rs, n)
    decreases n
  {
    hide Dropped, Copied, Begins, Keep;
    if n == 0 {
      NothingKept(Written(text, rs, n), dead);
    } else {
      var before := Written(text, rs, n - 1);
      var more := if Begins(rs, Hidden, n - 1) then Marked() else if Copied(text, rs, n - 1) then [n - 1] else [];
      var w := Written(text, rs, n);
      assert w == before + more;
      assert forall k :: 0 <= k < |before| ==> w[k] == before[k];
      assert forall k :: |before| <= k < |w| ==> w[k] == more[k - |before|];
      KeptAreOrigins(text, rs, n - 1, dead);
      if more == [n - 1] && Dropped(text, rs, |text|, n - 1) {
        assert w[|before|] == n - 1;
        KeepDead(before, n - 1, dead);
      } else {
        KeepAlive(before, more, dead);
      }
    }
  }

  lemma {:induction false} OriginsRender(text: seq<byte>, rs: seq<Region>, n: nat)
    requires n <= |text|
    ensures Sourced(text, Rendered(text, rs, n), Origins(text, rs, n))
    decreases n
  {
    hide Survives, Begins, Sourced;
    if n > 0 {
      OriginsRender(text, rs, n - 1);
      var bytes: seq<byte> := if Begins(rs, Hidden, n - 1) then [91, 83, 112, 111, 105, 108, 101, 114, 93]
                              else if Survives(text, rs, n - 1) then [text[n - 1]] else [];
      var from := if Begins(rs, Hidden, n - 1) then Marked() else if Survives(text, rs, n - 1) then [n - 1] else [];
      PieceIsSourced(text, bytes, from, n - 1);
      SourcedConcat(text, Rendered(text, rs, n - 1), Origins(text, rs, n - 1), bytes, from);
    } else {
      NothingSourced(text);
    }
  }

  lemma NothingSourced(text: seq<byte>)
    ensures Sourced(text, [], [])
  {
  }

  lemma PieceIsSourced(text: seq<byte>, bytes: seq<byte>, from: seq<int>, p: nat)
    requires p < |text|
    requires || (bytes == [] && from == []) || (bytes == [text[p]] && from == [p])
             || (bytes == [91, 83, 112, 111, 105, 108, 101, 114, 93] && from == Marked())
    ensures Sourced(text, bytes, from)
  {
  }

  lemma SourcedOnce(text: seq<byte>, x: seq<byte>, y: seq<byte>, from: seq<int>)
    requires Sourced(text, x, from) && Sourced(text, y, from)
    ensures x == y
  {
    forall k | 0 <= k < |from| ensures x[k] == y[k] {
      if from[k] < 0 { assert x[k] == SPOILER[-1 - from[k]]; }
    }
  }

  /** Every projection renders the stretches that fit the text: a marker for each spoiler, and the bytes that survive. */
  lemma ProjectionIsRendering(text: seq<byte>) returns (rs: seq<Region>)
    ensures Laid(text, rs) && Project(text) == Rendered(text, rs, |text|)
  {
    hide *;
    rs := RegionsFrom(text, START);
    RegionsApart(text, START);
    StartTraced(text);
    StartsInStep(text, rs);
    StartsDivided(text, rs);
    FinishKeeps(text, rs, [], START);
    var s := Finish(text, START);
    NoneMissed(text, rs, s);
    FinishedRenders(text, rs, s);
    ProjectIs(text);
  }

  lemma StartsDivided(text: seq<byte>, rs: seq<Region>)
    requires Apart(rs, |text|) && forall r :: r in rs ==> START.at <= r.start
    ensures Divided(rs, [], rs, START.at, |text|) && AllFit(text, rs, []) && START.at == 0
  {
    hide Apart, Fits, Escaped;
    assert [] + rs == rs;
  }

  lemma NoneMissed(text: seq<byte>, rs: seq<Region>, s: Scan)
    requires InStep(text, rs, s) && s.at == |text| && AllFit(text, rs, rs) && Apart(rs, |text|)
    ensures Laid(text, rs)
  {
    FreeIsInside(text, rs);
    hide Free, Fits, Poised, Matches, Deletes, Written, Apart, Escaped, Opens;
  }

  lemma FreeIsInside(text: seq<byte>, rs: seq<Region>)
    ensures forall r: Region :: Free(text, rs, r.start) ==> r.start < |text|
  {
  }

  lemma ProjectIs(text: seq<byte>)
    ensures Project(text) == Keep(Finish(text, START).buf, Finish(text, START).deleted)
  {
  }

  lemma FinishedRenders(text: seq<byte>, rs: seq<Region>, s: Scan)
    requires InStep(text, rs, s) && s.at == |text| && Traced(text, s)
    ensures Keep(s.buf, s.deleted) == Rendered(text, rs, |text|)
  {
    assert Sourced(text, s.buf, s.from);
    hide Sourced, Deletes, Written, Matches, Fits, Free, Poised, Keep, Opens;
    KeptAreOrigins(text, rs, |text|, s.deleted);
    KeepSources(text, s.buf, s.from, s.deleted);
    OriginsRender(text, rs, |text|);
    SourcedOnce(text, Keep(s.buf, s.deleted), Rendered(text, rs, |text|), Origins(text, rs, |text|));
  }
}
