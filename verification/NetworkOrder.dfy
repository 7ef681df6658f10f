/** In which order the hand-off applies transitions, and which of them it can lose. */
module NetworkOrder {
  import opened Common
  import opened NetworkWorker

  // ----- Order -----

  ghost predicate Ascending(s: seq<nat>) { forall i, j :: 0 <= i < j < |s| ==> s[i] < s[j] }

  ghost predicate Above(s: seq<nat>, v: nat) { forall k :: 0 <= k < |s| ==> s[k] < v }

  /** What the worker took from the slot and has not yet applied or put back. */
  function Taken(w: World): Option<nat> {
    if w.m.owner.Some? && w.m.owner.value in w.threads && Owns(w.threads[w.m.owner.value])
    then Held(w.threads[w.m.owner.value]) else None
  }

  /** Something newer than `v` has left the slot for good. */
  ghost predicate Overtaken(w: World, v: nat) {
    !Above(w.m.applied, v) || (Taken(w).Some? && Taken(w).value > v)
  }

  /** A delayed offer that takes the slot although something newer has already left it. */
  ghost predicate Backfills(w: World, e: Event) {
    && e.Act? && e.t in w.threads && w.threads[e.t].Put?
    && (w.m.pending.None? || w.threads[e.t].v > w.m.pending.value)
    && Overtaken(w, w.threads[e.t].v)
  }

  /** Applied values rise, and what is taken and what waits come after them, in this order. */
  ghost predicate InOrder(w: World) {
    && Ascending(w.m.applied)
    && (w.m.pending.Some? ==> !Overtaken(w, w.m.pending.value))
    && (Taken(w).Some? ==> Above(w.m.applied, Taken(w).value))
  }

  /** The same, as far as values that did not backfill are concerned. */
  ghost predicate Sorted(w: World, late: set<nat>) {
    && ((forall v :: v in w.m.applied ==> v !in late) ==> Ascending(w.m.applied))
    && (w.m.pending.Some? && w.m.pending.value !in late ==> !Overtaken(w, w.m.pending.value))
    && (Taken(w).Some? && Taken(w).value !in late ==> Above(w.m.applied, Taken(w).value))
  }

  /** The values that backfill in a run. */
  ghost function Late(events: seq<Event>): set<nat> {
    if events == [] then {}
    else
      var n := |events| - 1;
      var w := Run(events[..n]);
      Late(events[..n]) + if Backfills(w, events[n]) then {w.threads[events[n].t].v} else {}
  }

  /** Only the owner takes, applies and puts back. */
  lemma TakenNext(w: World, e: Event)
    requires OneOwner(w)
    ensures var x := Next(w, e);
            Taken(x) == if e.Act? && e.t in w.threads && Owns(x.threads[e.t]) then Held(x.threads[e.t])
                        else if e.Act? && e.t in w.threads && Owns(w.threads[e.t]) then None
                        else Taken(w)
  {
    NextKeepsOneOwner(w, e);
    if e.Act? && e.t in w.threads {
      MoveOwns(w.m, e.t, w.threads[e.t], e.spurious);
      hide Move, Held;
    }
  }

  /** What one step does to the slot, the taken value and the applied ones. */
  ghost predicate Shifts(w: World, e: Event, x: World) {
    if !(e.Act? && e.t in w.threads) then x.m.pending == w.m.pending && Taken(x) == Taken(w) && x.m.applied == w.m.applied
    else
      var pc := w.threads[e.t];
      && x.m.applied == (if pc.ApplyIt? then w.m.applied + [pc.v] else w.m.applied)
      && (pc.ApplyIt? || pc.PutBack? ==> Taken(w) == Some(pc.v) && Taken(x).None?)
      && (pc.Take? ==> Taken(w).None? && Taken(x) == w.m.pending)
      && (!pc.ApplyIt? && !pc.PutBack? && !pc.Take? ==> Taken(x) == Taken(w))
      && x.m.pending == match pc
                        case Take => None
                        case PutBack(v) => Some(v)
                        case Put(v, _) => if w.m.pending.None? || v > w.m.pending.value then Some(v) else w.m.pending
                        case _ => w.m.pending
  }

  lemma StepShifts(w: World, e: Event)
    requires OneOwner(w)
    ensures Shifts(w, e, Next(w, e))
  {
    TakenNext(w, e);
  }

  lemma AboveAll(s: seq<nat>, v: nat)
    requires Ascending(s) && Above(s, v)
    ensures Ascending(s + [v])
  {
  }

  /** What is taken neither waits nor is applied, and an offered value is none of these. */
  lemma TakenIsApart(w: World, e: Event)
    requires OneOwner(w) && Unique(w)
    ensures Taken(w).Some? ==> Taken(w) != w.m.pending && Taken(w).value !in w.m.applied
    ensures w.m.pending.Some? ==> w.m.pending.value !in w.m.applied
    ensures e.Act? && e.t in w.threads && w.threads[e.t].Put? ==>
              w.threads[e.t].v !in w.m.applied && Taken(w) != Some(w.threads[e.t].v) && w.m.pending != Some(w.threads[e.t].v)
  {
  }

  /** Backfilling is the only step out of order. */
  lemma StaysInOrderIff(w: World, e: Event)
    requires OneOwner(w) && Unique(w) && InOrder(w)
    ensures InOrder(Next(w, e)) <==> !Backfills(w, e)
  {
    StepShifts(w, e);
    TakenIsApart(w, e);
    var x := Next(w, e);
    if e.Act? && e.t in w.threads && w.threads[e.t].ApplyIt? { AboveAll(w.m.applied, w.threads[e.t].v); }
    hide Next, Ascending, Unique, OneOwner, Taken;
  }

  lemma StaysSorted(w: World, e: Event, late: set<nat>)
    requires OneOwner(w) && Unique(w) && Sorted(w, late)
    ensures Sorted(Next(w, e), late + if Backfills(w, e) then {w.threads[e.t].v} else {})
  {
    StepShifts(w, e);
    TakenIsApart(w, e);
    var x := Next(w, e);
    if e.Act? && e.t in w.threads && w.threads[e.t].ApplyIt? && Above(w.m.applied, w.threads[e.t].v) {
      if Ascending(w.m.applied) { AboveAll(w.m.applied, w.threads[e.t].v); }
    }
    hide Next, Ascending, Unique, OneOwner, Taken;
  }

  // ----- Loss -----

  /** In a thread, in the slot, or applied. */
  ghost predicate Present(w: World, v: nat) {
    || (exists t :: t in w.threads && Held(w.threads[t]) == Some(v))
    || w.m.pending == Some(v) || v in w.m.applied
  }

  /** Of two values that meet at the slot, which is dropped and which stays. */
  function Discards(w: World, e: Event): Option<(nat, nat)> {
    if !(e.Act? && e.t in w.threads) || w.m.pending.None? then None
    else
      var waiting := w.m.pending.value;
      match w.threads[e.t]
      case Put(v, _) => if v > waiting then Some((waiting, v)) else Some((v, waiting))
      case PutBack(v) => Some((waiting, v))
      case _ => None
  }

  /** A worker that found the state gone puts its value back over a newer one. */
  predicate Overwrites(w: World, e: Event) {
    && e.Act? && e.t in w.threads && w.threads[e.t].PutBack?
    && w.m.pending.Some? && w.m.pending.value > w.threads[e.t].v
  }

  /** The older of the two is dropped, except by an overwriting put-back. */
  lemma DropsNewerIff(w: World, e: Event)
    requires Unique(w) && Discards(w, e).Some?
    ensures var (lost, kept) := Discards(w, e).value; lost != kept && (lost > kept <==> Overwrites(w, e))
  {
  }

  predicate Here(m: Shared, pc: Pc, v: nat) { Held(pc) == Some(v) || m.pending == Some(v) || v in m.applied }

  lemma MoveKeepsHere(m: Shared, t: Tid, pc: Pc, spurious: bool, v: nat)
    requires Rising(m.accepted, m.last) && Known(m) && Apart(m, Held(pc)) && v in m.accepted
    ensures var (n, to) := Move(m, t, pc, spurious);
            var lost := Discards(World(m, map[t := pc]), Act(t, spurious));
            && (Here(n, to, v) <==> Here(m, pc, v) && !(lost.Some? && lost.value.0 == v))
            && v in n.accepted
  {
  }

  ghost predicate Elsewhere(w: World, t: Tid, v: nat) {
    exists u :: u in w.threads && u != t && Held(w.threads[u]) == Some(v)
  }

  lemma PresentHere(w: World, t: Tid, v: nat)
    requires t in w.threads
    ensures Present(w, v) <==> Here(w.m, w.threads[t], v) || Elsewhere(w, t, v)
  {
  }

  /** What is dropped was in the slot or in the hands of the thread that moves. */
  lemma DiscardsOwn(w: World, e: Event, v: nat)
    requires Unique(w) && e.Act? && e.t in w.threads
    ensures Discards(w, e) == Discards(World(w.m, map[e.t := w.threads[e.t]]), e)
    ensures Discards(w, e).Some? && Discards(w, e).value.0 == v ==> !Elsewhere(w, e.t, v)
  {
  }

  lemma SameElsewhere(w: World, e: Event, v: nat)
    requires e.Act? && e.t in w.threads
    ensures Elsewhere(Next(w, e), e.t, v) <==> Elsewhere(w, e.t, v)
  {
    var x := Next(w, e);
    hide Move, Held;
    forall u | u != e.t ensures (u in x.threads <==> u in w.threads) && (u in w.threads ==> x.threads[u] == w.threads[u]) {}
  }

  /** A thread that is only created holds nothing. */
  lemma IdleKeepsPresent(w: World, e: Event, v: nat)
    requires !(e.Act? && e.t in w.threads)
    ensures Present(Next(w, e), v) <==> Present(w, v)
  {
    var x := Next(w, e);
    forall u | u in x.threads ensures Held(x.threads[u]).Some? ==> u in w.threads && x.threads[u] == w.threads[u] {}
    forall u | u in w.threads ensures u in x.threads && x.threads[u] == w.threads[u] {}
  }

  /** A step loses an accepted value exactly when the slot drops it; a lost one never comes back. */
  lemma StaysPresentIff(w: World, e: Event, v: nat)
    requires Counted(w) && Unique(w) && v in w.m.accepted
    ensures v in Next(w, e).m.accepted
    ensures Present(Next(w, e), v) <==> Present(w, v) && !(Discards(w, e).Some? && Discards(w, e).value.0 == v)
  {
    if e.Act? && e.t in w.threads {
      var x := Next(w, e);
      MoveKeepsHere(w.m, e.t, w.threads[e.t], e.spurious, v);
      PresentHere(w, e.t, v);
      PresentHere(x, e.t, v);
      DiscardsOwn(w, e, v);
      SameElsewhere(w, e, v);
      hide Move, Held, Rising, Known, Discards, Present, Elsewhere, Here;
    } else {
      IdleKeepsPresent(w, e, v);
    }
  }

  /** A newly accepted value is in the hands of its callback. */
  lemma AcceptedIsPresent(w: World, e: Event, v: nat)
    requires v in Next(w, e).m.accepted && v !in w.m.accepted
    ensures Present(Next(w, e), v)
  {
    assert e.t in Next(w, e).threads && Held(Next(w, e).threads[e.t]) == Some(v);
  }

  /** The values the slot drops in a run. */
  function Discarded(events: seq<Event>): set<nat> {
    if events == [] then {}
    else
      var n := |events| - 1;
      var drop := Discards(Run(events[..n]), events[n]);
      Discarded(events[..n]) + if drop.Some? then {drop.value.0} else {}
  }

  lemma DroppedWasAccepted(w: World, e: Event)
    requires Unique(w) && Discards(w, e).Some?
    ensures Discards(w, e).value.0 in w.m.accepted
  {
  }

  lemma {:induction false} DiscardedWereAccepted(events: seq<Event>)
    ensures forall v :: v in Discarded(events) ==> v in Run(events).m.accepted
  {
    if events != [] {
      var n := |events| - 1;
      var w := Run(events[..n]);
      DiscardedWereAccepted(events[..n]);
      EveryRun(events[..n]);
      NextKeepsCounted(w, events[n]);
      if Discards(w, events[n]).Some? { DroppedWasAccepted(w, events[n]); }
    }
  }

  /** Conservation: an accepted value is held, waiting or applied exactly unless the slot has dropped it. */
  lemma {:induction false} EveryValueIsAccountedFor(events: seq<Event>, v: nat)
    requires v in Run(events).m.accepted
    ensures Present(Run(events), v) <==> v !in Discarded(events)
  {
    if events != [] {
      var n := |events| - 1;
      var w := Run(events[..n]);
      EveryRun(events[..n]);
      DiscardedWereAccepted(events[..n]);
      hide Next, Present, Discards, Counted, Unique, OneOwner;
      if v in w.m.accepted {
        EveryValueIsAccountedFor(events[..n], v);
        StaysPresentIff(w, events[n], v);
      } else {
        AcceptedIsPresent(w, events[n], v);
        if Discards(w, events[n]).Some? { DroppedWasAccepted(w, events[n]); }
      }
    }
  }

  /** Every dropped value made way for a newer one, or was overwritten by an older one that was put back. */
  lemma {:induction false} WhyDiscarded(events: seq<Event>, v: nat) returns (k: nat)
    requires v in Discarded(events)
    ensures k < |events| && Discards(Run(events[..k]), events[k]).Some?
    ensures var (lost, kept) := Discards(Run(events[..k]), events[k]).value;
            lost == v && (kept > v || Overwrites(Run(events[..k]), events[k]))
  {
    var n := |events| - 1;
    if v in Discarded(events[..n]) {
      k := WhyDiscarded(events[..n], v);
      assert events[..n][..k] == events[..k];
    } else {
      k := n;
      EveryRun(events[..n]);
      DropsNewerIff(Run(events[..n]), events[n]);
    }
  }

  // ----- Order over runs -----

  /** Applied out of order, or never to be applied: overtaken in the slot, or lost already. */
  ghost predicate Doomed(w: World, v: nat) {
    && v in w.m.accepted
    && if v in w.m.applied then !Ascending(w.m.applied)
       else
         || !Above(w.m.applied, v) || !Present(w, v)
         || (w.m.pending == Some(v) && Taken(w).Some? && Taken(w).value > v)
  }

  lemma BackfillDooms(w: World, e: Event)
    requires OneOwner(w) && Unique(w) && Backfills(w, e)
    ensures Doomed(Next(w, e), w.threads[e.t].v)
  {
    StepShifts(w, e);
    TakenIsApart(w, e);
    var v := w.threads[e.t].v;
    assert v in w.m.accepted;
    hide Ascending, Unique, OneOwner, Taken, Present;
  }

  lemma BrokenStaysBroken(s: seq<nat>, v: nat)
    requires !Ascending(s)
    ensures !Ascending(s + [v])
  {
    var i, j :| 0 <= i < j < |s| && s[i] >= s[j];
    assert (s + [v])[i] >= (s + [v])[j];
  }

  lemma OlderBreaks(s: seq<nat>, v: nat)
    requires !Above(s, v) && v !in s
    ensures !Ascending(s + [v])
  {
    var k :| 0 <= k < |s| && s[k] >= v;
    assert (s + [v])[k] >= (s + [v])[|s|];
  }

  /** Only what is present is applied. */
  lemma TakenIsPresent(w: World, v: nat)
    requires Taken(w) == Some(v)
    ensures Present(w, v)
  {
  }

  lemma PutBackLoses(w: World, e: Event, v: nat)
    requires e.Act? && e.t in w.threads && w.threads[e.t].PutBack? && w.m.pending == Some(v)
    ensures Discards(w, e) == Some((v, w.threads[e.t].v))
  {
  }

  lemma OfferLoses(w: World, e: Event, v: nat)
    requires e.Act? && e.t in w.threads && w.threads[e.t].Put? && w.m.pending == Some(v) != Next(w, e).m.pending
    ensures Discards(w, e).Some? && Discards(w, e).value.0 == v
  {
  }

  lemma DoomedStays(w: World, e: Event, v: nat)
    requires OneOwner(w) && Counted(w) && Unique(w) && Doomed(w, v)
    ensures Doomed(Next(w, e), v)
  {
    StepShifts(w, e);
    TakenIsApart(w, e);
    StaysPresentIff(w, e, v);
    if Taken(w) == Some(v) { TakenIsPresent(w, v); }
    if e.Act? && e.t in w.threads && w.m.pending == Some(v) {
      if w.threads[e.t].PutBack? { PutBackLoses(w, e, v); }
      if w.threads[e.t].Put? && Next(w, e).m.pending != Some(v) { OfferLoses(w, e, v); }
    }
    if e.Act? && e.t in w.threads && w.threads[e.t].ApplyIt? {
      var u := w.threads[e.t].v;
      if !Ascending(w.m.applied) { BrokenStaysBroken(w.m.applied, u); }
      if !Above(w.m.applied, u) && u !in w.m.applied { OlderBreaks(w.m.applied, u); }
      AboveExtends(w.m.applied, u, v);
    }
    hide Next, Ascending, Above, Counted, Unique, OneOwner, Taken, Present, Discards;
  }

  lemma AboveExtends(s: seq<nat>, u: nat, v: nat)
    ensures Above(s + [u], v) <==> Above(s, v) && u < v
  {
    if Above(s + [u], v) {
      assert forall k :: 0 <= k < |s| ==> (s + [u])[k] == s[k];
      assert (s + [u])[|s|] == u;
    }
  }

  lemma {:induction false} LateAreDoomed(events: seq<Event>, v: nat)
    requires v in Late(events)
    ensures Doomed(Run(events), v)
  {
    var n := |events| - 1;
    var w := Run(events[..n]);
    EveryRun(events[..n]);
    hide Next, Doomed, Backfills, OneOwner, Counted, Unique;
    if v in Late(events[..n]) {
      LateAreDoomed(events[..n], v);
      DoomedStays(w, events[n], v);
    } else {
      BackfillDooms(w, events[n]);
    }
  }

  lemma {:induction false} RunsAreSorted(events: seq<Event>)
    ensures Sorted(Run(events), Late(events))
  {
    if events != [] {
      var n := |events| - 1;
      RunsAreSorted(events[..n]);
      EveryRun(events[..n]);
      hide Next, Sorted, Backfills, OneOwner, Counted, Unique;
      StaysSorted(Run(events[..n]), events[n], Late(events[..n]));
    }
  }

  /** A run applies in order exactly when it applies no value that backfilled. */
  lemma AppliedInOrderIff(events: seq<Event>)
    ensures Ascending(Run(events).m.applied) <==> forall v :: v in Late(events) ==> v !in Run(events).m.applied
  {
    RunsAreSorted(events);
    forall v | v in Late(events) ensures Doomed(Run(events), v) {
      LateAreDoomed(events, v);
    }
    hide Run, Late;
  }

  // ----- The newest transition -----

  /** No put-back of the run lands on a newer value. */
  ghost predicate Spares(events: seq<Event>) {
    forall k :: 0 <= k < |events| ==> !Overwrites(Run(events[..k]), events[k])
  }

  ghost predicate Newest(w: World) { w.m.accepted != [] ==> Present(w, w.m.last) }

  lemma LastIsLargest(w: World, v: nat)
    requires Counted(w) && v in w.m.accepted
    ensures v <= w.m.last && w.m.last in w.m.accepted
  {
  }

  lemma KeptIsAccepted(w: World, e: Event)
    requires Unique(w) && Discards(w, e).Some?
    ensures Discards(w, e).value.1 in w.m.accepted
  {
  }

  /** The newest accepted transition is lost exactly when a put-back lands on it. */
  lemma StaysNewestIff(w: World, e: Event)
    requires Counted(w) && Unique(w) && Newest(w)
    ensures Newest(Next(w, e)) <==> !(Overwrites(w, e) && w.m.pending == Some(w.m.last))
  {
    NextKeepsCounted(w, e);
    var x := Next(w, e);
    if x.m.accepted != [] {
      LastIsAccepted(x);
      if x.m.last in w.m.accepted {
        SameLast(w, x);
        StaysPresentIff(w, e, w.m.last);
        if Discards(w, e).Some? {
          DropsNewerIff(w, e);
          KeptIsAccepted(w, e);
          LastIsLargest(w, Discards(w, e).value.1);
        }
        OverwritesDiscards(w, e);
        hide Next, Present, Discards, Counted, Unique, Overwrites;
      } else {
        AcceptedIsPresent(w, e, x.m.last);
        AcceptingIsNoPutBack(w, e);
      }
    }
  }

  lemma LastIsAccepted(w: World)
    requires Counted(w) && w.m.accepted != []
    ensures w.m.last in w.m.accepted
  {
  }

  lemma SameLast(w: World, x: World)
    requires Counted(w) && Counted(x) && w.m.accepted <= x.m.accepted && x.m.last in w.m.accepted
    ensures x.m.last == w.m.last && w.m.accepted != []
  {
    LastIsLargest(w, x.m.last);
    assert w.m.last in x.m.accepted;
    LastIsLargest(x, w.m.last);
  }

  lemma OverwritesDiscards(w: World, e: Event)
    ensures Overwrites(w, e) ==> Discards(w, e) == Some((w.m.pending.value, w.threads[e.t].v))
  {
  }

  lemma AcceptingIsNoPutBack(w: World, e: Event)
    requires Next(w, e).m.accepted != w.m.accepted
    ensures !Overwrites(w, e)
  {
  }

  lemma {:induction false} SparedRunsKeepNewest(events: seq<Event>)
    requires Spares(events)
    ensures Newest(Run(events))
  {
    if events != [] {
      var n := |events| - 1;
      assert forall k :: 0 <= k <= n ==> events[..n][..k] == events[..k];
      SparedRunsKeepNewest(events[..n]);
      EveryRun(events[..n]);
      hide Next, Newest, Counted, Unique, OneOwner, Overwrites;
      StaysNewestIff(Run(events[..n]), events[n]);
    }
  }

  /** Applied values were accepted, so in order the newest comes last. */
  lemma NewestComesLast(w: World)
    requires Counted(w) && Unique(w) && w.m.last in w.m.applied && Ascending(w.m.applied)
    ensures w.m.applied[|w.m.applied| - 1] == w.m.last
  {
    var end := w.m.applied[|w.m.applied| - 1];
    assert end in w.m.applied;
    LastIsLargest(w, end);
  }

  lemma RestingNewest(w: World)
    requires Newest(w) && w.m.accepted != [] && w.m.pending.None?
    requires forall t :: t in w.threads ==> w.threads[t] == Done
    ensures w.m.last in w.m.applied
  {
  }

  /**
   * When no value was stranded and none was put back over a newer one, a
   * hand-off that has come to rest with the state installed has applied the
   * newest accepted transition; and has applied it last unless a late one
   * came after.
   */
  lemma NewestIsApplied(events: seq<Event>)
    requires Steady(events) && Spares(events) && Run(events).m.installed && Run(events).m.accepted != []
    requires forall t :: t in Run(events).threads ==> Run(events).threads[t] == Done
    ensures Run(events).m.last in Run(events).m.applied
    ensures (forall v :: v in Late(events) ==> v !in Run(events).m.applied) ==>
              Run(events).m.applied[|Run(events).m.applied| - 1] == Run(events).m.last
  {
    hide *;
    QuietMeansDelivered(events);
    SparedRunsKeepNewest(events);
    EveryRun(events);
    RestingNewest(Run(events));
    AppliedInOrderIff(events);
    if Ascending(Run(events).m.applied) { NewestComesLast(Run(events)); }
  }
}
