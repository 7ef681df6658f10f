/** The pairing tables of the Markdown scanner, and the cursors that read them. */
module MarkdownTables {
  import opened Common

  const BACKSLASH: byte := 92
  const TICK: byte := 96
  const CLOSE_PAREN: byte := 41

  // ----- Backtick runs -----

  datatype TickRun = TickRun(start: nat, len: nat)

  /** The end of the run of `b` bytes that starts at `i`. */
  function RunEnd(text: seq<byte>, i: nat, b: byte): (end: nat)
    requires i <= |text|
    ensures i <= end <= |text| && (end < |text| ==> text[end] != b)
    ensures forall k :: i <= k < end ==> text[k] == b
    decreases |text| - i
  {
    if i < |text| && text[i] == b then RunEnd(text, i + 1, b) else i
  }

  /** Backtick runs from `i` on; a backslash always hides the byte after it. */
  function Runs(text: seq<byte>, i: nat): seq<TickRun>
    decreases |text| - i
  {
    if i >= |text| then []
    else if text[i] == BACKSLASH then Runs(text, i + 2)
    else if text[i] == TICK then
      var end := RunEnd(text, i, TICK);
      [TickRun(i, end - i)] + Runs(text, end)
    else Runs(text, i + 1)
  }

  /** Runs are maximal: in order, in bounds, all backticks, and never adjacent. */
  lemma {:induction false} RunsAreApart(text: seq<byte>, i: nat)
    ensures forall k :: 0 <= k < |Runs(text, i)| ==>
              var r := Runs(text, i)[k];
              i <= r.start && r.len > 0 && r.start + r.len <= |text|
    ensures i < |text| && text[i] != TICK ==> forall k :: 0 <= k < |Runs(text, i)| ==> i < Runs(text, i)[k].start
    ensures forall k, m :: 0 <= k < |Runs(text, i)| && Runs(text, i)[k].start <= m < Runs(text, i)[k].start + Runs(text, i)[k].len
                           ==> text[m] == TICK
    ensures forall k, m :: 0 <= k < m < |Runs(text, i)| ==>
              Runs(text, i)[k].start + Runs(text, i)[k].len < Runs(text, i)[m].start
    decreases |text| - i
  {
    if i < |text| {
      if text[i] == BACKSLASH {
        RunsAreApart(text, i + 2);
      } else if text[i] == TICK {
        RunsAreApart(text, RunEnd(text, i, TICK));
      } else {
        RunsAreApart(text, i + 1);
      }
    }
  }

  /** Two runs of the same length: the later one starts after the earlier one ends. */
  lemma RunPair(text: seq<byte>, k: nat, m: nat)
    requires k < m < |Runs(text, 0)|
    ensures var r, q := Runs(text, 0)[k], Runs(text, 0)[m];
            && r.len > 0 && r.start + r.len < q.start && q.len > 0 && q.start + q.len <= |text|
            && text[r.start + r.len - 1] == text[q.start] == text[q.start + q.len - 1] == TICK
  {
    RunsAreApart(text, 0);
  }

  lemma RunAlone(text: seq<byte>, k: nat)
    requires k < |Runs(text, 0)|
    ensures var r := Runs(text, 0)[k];
            r.len > 0 && r.start + r.len <= |text| && text[r.start + r.len - 1] == TICK
  {
    RunsAreApart(text, 0);
  }

  method ScanRuns(text: seq<byte>) returns (runs: seq<TickRun>)
    ensures runs == Runs(text, 0)
  {
    runs := [];
    var i := 0;
    while i < |text|
      invariant runs + Runs(text, i) == Runs(text, 0)
      decreases |text| - i
    {
      if text[i] == BACKSLASH {
        i := i + 2;
      } else if text[i] == TICK {
        var start := i;
        i := SkipRun(text, i, TICK);
        runs := runs + [TickRun(start, i - start)];
      } else {
        i := i + 1;
      }
    }
  }

  method SkipRun(text: seq<byte>, start: nat, b: byte) returns (i: nat)
    requires start <= |text|
    ensures i == RunEnd(text, start, b)
  {
    i := start;
    while i < |text| && text[i] == b
      invariant start <= i <= |text| && RunEnd(text, i, b) == RunEnd(text, start, b)
    {
      i := i + 1;
    }
  }

  // ----- The run that closes a code span -----

  function NextOfLength(runs: seq<TickRun>, k: nat, len: nat): Option<nat>
    decreases |runs| - k
  {
    if k >= |runs| then None else if runs[k].len == len then Some(k) else NextOfLength(runs, k + 1, len)
  }

  /** A code span closes at the nearest later run of its own length, and never earlier. */
  lemma {:induction false} NearestOfLength(runs: seq<TickRun>, k: nat, len: nat)
    ensures var at := NextOfLength(runs, k, len);
            && (at.Some? ==> k <= at.value < |runs| && runs[at.value].len == len)
            && forall m :: k <= m < (if at.Some? then at.value else |runs|) ==> runs[m].len != len
    decreases |runs| - k
  {
    if k < |runs| && runs[k].len != len {
      NearestOfLength(runs, k + 1, len);
    }
  }

  /** One pass from the back, remembering the last run seen of each length. */
  method CloseTable(runs: seq<TickRun>) returns (table: seq<Option<nat>>)
    ensures |table| == |runs|
    ensures forall k :: 0 <= k < |runs| ==> table[k] == NextOfLength(runs, k + 1, runs[k].len)
  {
    table := seq(|runs|, _ => None);
    var later: map<nat, nat> := map[];
    var index := |runs|;
    while index > 0
      invariant 0 <= index <= |runs| == |table|
      invariant forall len: nat :: NextOfLength(runs, index, len) == if len in later then Some(later[len]) else None
      invariant forall k :: index <= k < |runs| ==> table[k] == NextOfLength(runs, k + 1, runs[k].len)
    {
      index := index - 1;
      var len := runs[index].len;
      table := table[index := if len in later then Some(later[len]) else None];
      later := later[len := index];
    }
  }

  // ----- The next closing parenthesis -----

  /** The nearest closing parenthesis at or after `j`. */
  function NextParen(text: seq<byte>, j: nat): (at: Option<nat>)
    ensures at.Some? ==> j <= at.value < |text| && text[at.value] == CLOSE_PAREN
    ensures forall m :: j <= m < (if at.Some? then at.value else |text|) ==> text[m] != CLOSE_PAREN
    decreases |text| - j
  {
    if j >= |text| then None else if text[j] == CLOSE_PAREN then Some(j) else NextParen(text, j + 1)
  }

  method ParenTable(text: seq<byte>) returns (table: seq<Option<nat>>)
    ensures |table| == |text| + 1
    ensures forall j :: 0 <= j <= |text| ==> table[j] == NextParen(text, j)
  {
    table := seq(|text| + 1, _ => None);
    var j := |text|;
    while j > 0
      invariant 0 <= j <= |text| && |table| == |text| + 1
      invariant forall k :: j <= k <= |text| ==> table[k] == NextParen(text, k)
    {
      j := j - 1;
      table := table[j := if text[j] == CLOSE_PAREN then Some(j) else table[j + 1]];
    }
  }

  // ----- Two-byte markers -----

  predicate At(text: seq<byte>, i: nat, p: byte, q: byte) { i + 1 < |text| && text[i] == p && text[i + 1] == q }

  /** Non-overlapping occurrences of the marker `pq`, greedily from `i`. */
  function Positions(text: seq<byte>, p: byte, q: byte, i: nat): (found: seq<nat>)
    ensures forall k :: 0 <= k < |found| ==> i <= found[k] && At(text, found[k], p, q)
    ensures forall k, m :: 0 <= k < m < |found| ==> found[k] + 2 <= found[m]
    decreases |text| - i
  {
    if i + 1 >= |text| then []
    else if At(text, i, p, q) then [i] + Positions(text, p, q, i + 2)
    else Positions(text, p, q, i + 1)
  }

  method FindPositions(text: seq<byte>, p: byte, q: byte) returns (found: seq<nat>)
    ensures found == Positions(text, p, q, 0)
  {
    found := [];
    var i := 0;
    while i + 1 < |text|
      invariant found + Positions(text, p, q, i) == Positions(text, p, q, 0)
      decreases |text| - i
    {
      PositionsFrom(text, p, q, i);
      hide Positions;
      if text[i] == p && text[i + 1] == q {
        Regroup(found, [i], Positions(text, p, q, i + 2));
        found := found + [i];
        i := i + 2;
      } else {
        i := i + 1;
      }
    }
    assert Positions(text, p, q, i) == [];
  }

  lemma PositionsFrom(text: seq<byte>, p: byte, q: byte, i: nat)
    requires i + 1 < |text|
    ensures Positions(text, p, q, i) ==
            if text[i] == p && text[i + 1] == q then [i] + Positions(text, p, q, i + 2) else Positions(text, p, q, i + 1)
  {
  }

  /** A marker of two different bytes cannot overlap itself: no occurrence is missed. */
  lemma {:induction false} EveryOccurrenceFound(text: seq<byte>, p: byte, q: byte, i: nat, at: nat)
    requires p != q && i <= at && At(text, at, p, q)
    ensures at in Positions(text, p, q, i)
    decreases at - i
  {
    if At(text, i, p, q) {
      if at != i {
        EveryOccurrenceFound(text, p, q, i + 2, at);
      }
    } else {
      EveryOccurrenceFound(text, p, q, i + 1, at);
    }
  }

  // ----- Cursors -----

  /** The first entry of an ascending list that is not below `x`. */
  function FirstFrom(list: seq<nat>, x: nat, k: nat): (at: nat)
    requires k <= |list|
    ensures k <= at <= |list| && (at < |list| ==> list[at] >= x)
    ensures forall m :: k <= m < at ==> list[m] < x
    decreases |list| - k
  {
    if k < |list| && list[k] < x then FirstFrom(list, x, k + 1) else k
  }

  /** Moving a cursor forward finds what a search from the front finds. */
  method Advance(list: seq<nat>, cursor: nat, x: nat) returns (at: nat)
    requires cursor <= |list| && forall m :: 0 <= m < cursor ==> list[m] < x
    ensures cursor <= at && at == FirstFrom(list, x, 0)
  {
    at := cursor;
    while at < |list| && list[at] < x
      invariant cursor <= at <= |list| && forall m :: 0 <= m < at ==> list[m] < x
    {
      at := at + 1;
    }
  }

  function Starts(runs: seq<TickRun>): (starts: seq<nat>)
    ensures |starts| == |runs| && forall k :: 0 <= k < |runs| ==> starts[k] == runs[k].start
  {
    seq(|runs|, k requires 0 <= k < |runs| => runs[k].start)
  }
}
