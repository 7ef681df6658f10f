/**
 * The periodic cleanup: one unfiltered batch at a time behind a saved cursor,
 * which an empty page sends back to the start.
 */
module Maintenance {
  import opened Common
  import opened Tables
  import opened Disk
  import opened Sweep

  /** What is kept between two passes. */
  datatype Saved = Saved(t: Tables, homes: map<string, Home>, cursor: nat)

  datatype Report = Report(count: nat, ids: set<nat>)

  /** A pass that ends well, as the batch promises it. */
  ghost predicate Pass(s: Saved, r: Report, next: Saved) {
    && Swept(s.t, s.homes, next.homes) && Completed(s.t, s.homes, next.homes, next.t, r.ids)
    && Paged(s.t, s.homes, None, s.cursor, Ok((next.cursor, r.count)), r.ids)
  }

  ghost predicate Passes(states: seq<Saved>, reports: seq<Report>) {
    && |states| == |reports| + 1
    && forall i :: 0 <= i < |reports| ==> Pass(states[i], reports[i], states[i + 1])
  }

  ghost predicate DueHere(s: Saved, id: nat) {
    id in s.t.journal && !Protected(s.t, HomeIn(s.homes, s.t.journal[id].identity), s.t.journal[id])
  }

  ghost predicate NoneDue(s: Saved) { forall id: nat :: !DueHere(s, id) }

  /** Everything still due lies ahead of the cursor. */
  ghost predicate AllAhead(s: Saved) { forall id: nat :: DueHere(s, id) ==> id > s.cursor }

  ghost function Ahead(s: Saved): set<nat> { set id | id in s.t.journal && id > s.cursor }

  function Pages(rows: nat): nat { (rows + BATCH - 1) / BATCH }

  // ----- One pass -----

  /** The journal only loses rows, and what is due does not change otherwise. */
  lemma PassKeepsDue(s: Saved, r: Report, next: Saved)
    requires Pass(s, r, next)
    ensures next.t.journal == s.t.journal - r.ids
    ensures forall id: nat :: DueHere(next, id) <==> DueHere(s, id) && id !in r.ids
  {
    hide Protected, Paged;
    forall id | id in next.t.journal ensures DueHere(next, id) <==> DueHere(s, id) {
      var a := s.t.journal[id];
      SweptKeepsIntents(s.t, s.homes, next.homes, a.identity);
      ProtectionIsStable(s.t, next.t, HomeIn(s.homes, a.identity), HomeIn(next.homes, a.identity), a);
    }
    forall id: nat | DueHere(next, id) ensures DueHere(s, id) && id !in r.ids {}
  }

  /** A page takes its rows from those ahead of the cursor; a short one takes them all. */
  lemma PassMovesOn(s: Saved, r: Report, next: Saved)
    requires Pass(s, r, next) && r.count > 0
    ensures r.count <= BATCH && |Ahead(next)| == |Ahead(s)| - r.count && (r.count < BATCH ==> |Ahead(next)| == 0)
    ensures AllAhead(s) ==> AllAhead(next)
  {
    hide Protected, Swept, AllAhead, BetweenSweepable;
    var page := RowsBetween(s.t, None, s.cursor, next.cursor);
    assert r.ids <= page;
    assert Ahead(s) == Ahead(next) + page && Ahead(next) !! page;
    if r.count < BATCH { assert Ahead(next) == {}; }
    if AllAhead(s) { PassCompletesBehind(s, r, next); }
  }

  lemma PassCompletesBehind(s: Saved, r: Report, next: Saved)
    requires Pass(s, r, next) && r.count > 0 && AllAhead(s)
    ensures AllAhead(next)
  {
    PassKeepsDue(s, r, next);
    hide Protected, Swept, Completed, BetweenSweepable;
    forall id: nat | DueHere(next, id) ensures id > next.cursor {
      assert DueHere(s, id) && id !in DueRows(s.t, s.homes, None, s.cursor, next.cursor);
    }
  }

  /** An empty page sends the cursor back; if everything due lay ahead, nothing was. */
  lemma EmptyPageWraps(s: Saved, r: Report, next: Saved)
    requires Pass(s, r, next) && r.count == 0
    ensures next.cursor == 0 && Ahead(s) == {} && next.t.journal == s.t.journal && (AllAhead(s) ==> NoneDue(s))
  {
    hide Protected, Swept;
    assert next.t.journal == s.t.journal - {};
  }

  lemma RowsAheadMeanPage(s: Saved, r: Report, next: Saved)
    requires Pass(s, r, next)
    ensures r.count == 0 <==> |Ahead(s)| == 0
  {
    hide Protected, Swept;
    if r.count == 0 { EmptyPageWraps(s, r, next); } else { PassMovesOn(s, r, next); }
  }

  // ----- Many passes -----

  lemma OnePass(states: seq<Saved>, reports: seq<Report>, i: nat)
    requires Passes(states, reports) && i + 1 < |states|
    ensures i < |reports| && Pass(states[i], reports[i], states[i + 1])
  {
  }

  lemma {:induction false} JournalShrinks(states: seq<Saved>, reports: seq<Report>, i: nat, j: nat)
    requires Passes(states, reports) && i <= j < |states|
    ensures states[j].t.journal.Keys <= states[i].t.journal.Keys
    ensures forall id: nat :: DueHere(states[j], id) ==> DueHere(states[i], id)
    decreases j
  {
    hide Passes, DueHere, Pass;
    if i < j {
      JournalShrinks(states, reports, i, j - 1);
      OnePass(states, reports, j - 1);
      PassKeepsDue(states[j - 1], reports[j - 1], states[j]);
    }
  }

  /** The cursor runs out of rows within one page for every 256 of them. */
  lemma {:induction false} RunsOut(states: seq<Saved>, reports: seq<Report>, i: nat) returns (j: nat)
    requires Passes(states, reports) && i < |states| && i + Pages(|Ahead(states[i])|) < |states|
    ensures i <= j <= i + Pages(|Ahead(states[i])|) && |Ahead(states[j])| == 0
    ensures AllAhead(states[i]) ==> AllAhead(states[j])
    decreases |Ahead(states[i])|
  {
    hide Passes, AllAhead, Ahead, Pass;
    if |Ahead(states[i])| == 0 {
      j := i;
    } else {
      OnePass(states, reports, i);
      RowsAheadMeanPage(states[i], reports[i], states[i + 1]);
      PassMovesOn(states[i], reports[i], states[i + 1]);
      j := RunsOut(states, reports, i + 1);
    }
  }

  lemma FewerAhead(s: Saved, n: nat)
    requires |s.t.journal| <= n
    ensures Pages(|Ahead(s)|) <= Pages(n)
  {
    SubsetSize(Ahead(s), s.t.journal.Keys);
  }

  lemma StartIsAhead(s: Saved)
    requires s.cursor == 0 && forall id :: id in s.t.journal ==> id > 0
    ensures AllAhead(s)
  {
    hide Protected;
  }

  lemma NothingAheadNothingDue(s: Saved)
    requires AllAhead(s) && |Ahead(s)| == 0
    ensures NoneDue(s)
  {
    hide Protected;
    assert Ahead(s) == {};
    assert forall id: nat :: DueHere(s, id) ==> id in Ahead(s);
  }

  /** Once around: from any saved cursor, a full sweep has ended after this many passes. */
  lemma FullSweep(states: seq<Saved>, reports: seq<Report>) returns (j: nat)
    requires Passes(states, reports) && JournalOk(states[0].t)
    requires |reports| >= 2 * Pages(|states[0].t.journal|) + 1
    ensures j < |states| && NoneDue(states[j])
  {
    var n := |states[0].t.journal|;
    hide Passes, AllAhead, Ahead, Pass, Pages, NoneDue, DueHere;
    FewerAhead(states[0], n);
    var end := RunsOut(states, reports, 0);
    OnePass(states, reports, end);
    RowsAheadMeanPage(states[end], reports[end], states[end + 1]);
    EmptyPageWraps(states[end], reports[end], states[end + 1]);
    JournalShrinks(states, reports, 0, end + 1);
    StartIsAhead(states[end + 1]);
    SubsetSize(states[end + 1].t.journal.Keys, states[0].t.journal.Keys);
    FewerAhead(states[end + 1], n);
    j := RunsOut(states, reports, end + 1);
    NothingAheadNothingDue(states[j]);
  }

  lemma {:induction false} PassesCompose(states: seq<Saved>, reports: seq<Report>, k: nat) returns (ids: set<nat>)
    requires Passes(states, reports) && k < |states|
    ensures Swept(states[0].t, states[0].homes, states[k].homes)
    ensures Completed(states[0].t, states[0].homes, states[k].homes, states[k].t, ids)
  {
    hide Passes, Swept, Completed;
    if k == 0 {
      ids := {};
      NothingCompleted(states[0].t, states[0].homes);
      SweptAtStart(states[0].t, states[0].homes);
    } else {
      var less := PassesCompose(states, reports, k - 1);
      OnePass(states, reports, k - 1);
      var a, b, c := states[0], states[k - 1], states[k];
      BatchesCompose(a.t, a.homes, b.homes, c.homes, b.t, c.t, less, reports[k - 1].ids);
      ids := less + reports[k - 1].ids;
    }
  }

  /**
   * Wherever the saved cursor stood: after two passes for every 256 journal rows
   * and one more, every row that was due at the start is completed, its file is
   * gone, and nothing is due.
   */
  lemma EveryDueRowIsCompleted(states: seq<Saved>, reports: seq<Report>)
    requires Passes(states, reports) && JournalOk(states[0].t)
    requires |reports| >= 2 * Pages(|states[0].t.journal|) + 1
    ensures var end := states[|reports|];
            && NoneDue(end)
            && forall id: nat :: DueHere(states[0], id) ==>
                 var a := states[0].t.journal[id];
                 id !in end.t.journal && !Present(HomeIn(end.homes, a.identity), a)
  {
    var k := |reports|;
    var j := FullSweep(states, reports);
    JournalShrinks(states, reports, j, k);
    var ids := PassesCompose(states, reports, k);
    hide Protected, Passes, Swept, Present;
    var a, c := states[0], states[k];
    forall id: nat | DueHere(a, id) ensures id !in c.t.journal {
      var f := a.t.journal[id];
      SweptKeepsIntents(a.t, a.homes, c.homes, f.identity);
      ProtectionIsStable(a.t, c.t, HomeIn(a.homes, f.identity), HomeIn(c.homes, f.identity), f);
      assert !DueHere(c, id);
    }
  }

  /** And every pass can be made: what is sweepable at the start stays so. */
  lemma {:induction false} StaysPossible(states: seq<Saved>, reports: seq<Report>, k: nat)
    requires Passes(states, reports) && k < |states| && AllSweepable(states[0].t, states[0].homes, None)
    ensures PageWorks(states[k].t, states[k].homes, None, states[k].cursor)
  {
    var ids := PassesCompose(states, reports, k);
    hide AllSweepable, PageWorks, Swept, Completed;
    StaysSweepable(states[0].t, states[0].homes, states[k].homes, states[k].t, ids, None);
    AllSweepableWorks(states[k].t, states[k].homes, None, states[k].cursor);
  }
}
