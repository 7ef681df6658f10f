/**
 * The lock-free hand-off between platform callbacks and the network worker, as
 * an interleaving of atomic steps: the sequence counter, the running flag, the
 * pending slot and the installed state are the shared memory.
 */
module NetworkWorker {
  import opened Common

  type Tid = nat

  /** Where a thread is. `v` is always a transition sequence. */
  datatype Pc =
    // `submit_network`
    | Load(v: nat)                      // about to read the counter
    | Compare(v: nat, observed: nat)    // about to compare and exchange it
    | Sample(v: nat)                    // accepted; about to look for the installed state
    | Put(v: nat, saw: bool)            // about to offer `v` to the pending slot
    // `install`
    | SetState
    // `ensure_network_worker`
    | Ensure                            // about to claim the running flag
    // the worker
    | Take                              // owns the flag; about to empty the slot
    | Clear                             // owns the flag; found the slot empty
    | Recheck                           // gave the flag up; about to look again
    | Reclaim                           // saw a value; about to claim the flag
    | Find(v: nat)                      // owns the flag; about to look for the installed state
    | ApplyIt(v: nat)                   // owns the flag; applying
    | PutBack(v: nat)                   // owns the flag; the state was gone
    | ClearBack                         // owns the flag; value is back, about to leave
    | Done

  /** The shared memory, and what is known about its history. */
  datatype Shared = Shared(
    last: nat,
    running: bool,
    pending: Option<nat>,
    installed: bool,
    owner: Option<Tid>,      // who holds the running flag
    accepted: seq<nat>,      // every sequence the counter let through, in order
    applied: seq<nat>        // every sequence applied, in order
  )

  datatype World = World(m: Shared, threads: map<Tid, Pc>)

  const FRESH: World := World(Shared(0, false, None, false, None, [], []), map[])

  predicate Owns(pc: Pc) {
    pc.Take? || pc.Clear? || pc.Find? || pc.ApplyIt? || pc.PutBack? || pc.ClearBack?
  }

  /** A worker that has not left, or a thread that will still look at the slot or try to start a worker. */
  predicate Live(pc: Pc) { Owns(pc) || pc.Recheck? || pc.Reclaim? || pc.Ensure? || pc.SetState? }

  datatype Event =
    | Submit(t: Tid, v: nat)
    | Install(t: Tid)
    | DropState                          // the application state is dropped
    | Act(t: Tid, spurious: bool)        // one step of a thread; a weak exchange may fail for no reason

  /** The memory and the thread's place after its next atomic step. */
  function Move(m: Shared, t: Tid, pc: Pc, spurious: bool): (Shared, Pc) {
    match pc
    case Load(v) => (m, Compare(v, m.last))
    case Compare(v, observed) =>
      if v <= observed then (m, Done)
      else if observed == m.last && !spurious then (m.(last := v, accepted := m.accepted + [v]), Sample(v))
      else (m, Compare(v, m.last))
    case Sample(v) => (m, Put(v, m.installed))
    case Put(v, saw) =>
      (m.(pending := if m.pending.None? || v > m.pending.value then Some(v) else m.pending),
       if saw then Ensure else Done)
    case SetState => (m.(installed := true), Ensure)
    case Ensure => if m.running then (m, Done) else (m.(running := true, owner := Some(t)), Take)
    case Take => if m.pending.None? then (m, Clear) else (m.(pending := None), Find(m.pending.value))
    case Clear => (m.(running := false, owner := None), Recheck)
    case Recheck => (m, if m.pending.Some? then Reclaim else Done)
    case Reclaim => if m.running then (m, Done) else (m.(running := true, owner := Some(t)), Take)
    case Find(v) => (m, if m.installed then ApplyIt(v) else PutBack(v))
    case ApplyIt(v) => (m.(applied := m.applied + [v]), Take)
    case PutBack(v) => (m.(pending := Some(v)), ClearBack)
    case ClearBack => (m.(running := false, owner := None), Done)
    case Done => (m, Done)
  }

  function Next(w: World, e: Event): World {
    match e
    case Submit(t, v) => if t in w.threads || v == 0 then w else World(w.m, w.threads[t := Load(v)])
    case Install(t) => if t in w.threads then w else World(w.m, w.threads[t := SetState])
    case DropState => World(w.m.(installed := false), w.threads)
    case Act(t, spurious) =>
      if t !in w.threads then w
      else
        var (m, pc) := Move(w.m, t, w.threads[t], spurious);
        World(m, w.threads[t := pc])
  }

  // ----- One worker at a time -----

  ghost predicate OneOwner(w: World) {
    && w.m.running == w.m.owner.Some?
    && (w.m.owner.Some? ==> w.m.owner.value in w.threads && Owns(w.threads[w.m.owner.value]))
    && (forall t :: t in w.threads && Owns(w.threads[t]) ==> w.m.owner == Some(t))
  }

  /** A step takes or gives up the flag only for its own thread. */
  lemma MoveOwns(m: Shared, t: Tid, pc: Pc, spurious: bool)
    requires m.running == m.owner.Some? && (Owns(pc) ==> m.owner == Some(t))
    ensures var (n, to) := Move(m, t, pc, spurious);
            && n.running == n.owner.Some?
            && n.owner == (if Owns(to) then Some(t) else if Owns(pc) then None else m.owner)
            && (Owns(to) ==> Owns(pc) || m.owner.None?)
  {
  }

  lemma NextKeepsOneOwner(w: World, e: Event)
    requires OneOwner(w)
    ensures OneOwner(Next(w, e))
  {
    if e.Act? && e.t in w.threads {
      MoveOwns(w.m, e.t, w.threads[e.t], e.spurious);
      hide Move, Owns;
    }
  }

  // ----- The counter -----

  ghost predicate Rising(accepted: seq<nat>, last: nat) {
    && (forall i, j :: 0 <= i < j < |accepted| ==> accepted[i] < accepted[j])
    && (forall i :: 0 <= i < |accepted| ==> 0 < accepted[i] <= last)
    && last == (if accepted == [] then 0 else accepted[|accepted| - 1])
  }

  predicate Observes(pc: Pc, last: nat) {
    (pc.Compare? ==> pc.observed <= last) && (pc.Load? || pc.Compare? ==> pc.v > 0)
  }

  ghost predicate Counted(w: World) {
    Rising(w.m.accepted, w.m.last) && forall t :: t in w.threads ==> Observes(w.threads[t], w.m.last)
  }

  lemma MoveCounts(m: Shared, t: Tid, pc: Pc, spurious: bool)
    requires Rising(m.accepted, m.last) && Observes(pc, m.last)
    ensures var (n, to) := Move(m, t, pc, spurious);
            m.last <= n.last && m.accepted <= n.accepted && Observes(to, n.last) && Rising(n.accepted, n.last)
  {
    hide Rising;
    if pc.Compare? && pc.v > m.last { OneMoreRises(m.accepted, m.last, pc.v); }
  }

  lemma OneMoreRises(accepted: seq<nat>, last: nat, v: nat)
    requires Rising(accepted, last) && v > last
    ensures Rising(accepted + [v], v)
  {
  }

  lemma NextKeepsCounted(w: World, e: Event)
    requires Counted(w)
    ensures Counted(Next(w, e)) && w.m.accepted <= Next(w, e).m.accepted
  {
    if e.Act? && e.t in w.threads {
      MoveCounts(w.m, e.t, w.threads[e.t], e.spurious);
      hide Move, Rising;
    }
  }

  // ----- Every accepted transition is in one place -----

  function Held(pc: Pc): Option<nat> {
    if pc.Sample? || pc.Put? || pc.Find? || pc.ApplyIt? || pc.PutBack? then Some(pc.v) else None
  }

  /** Transitions in a thread, in the slot and already applied are all accepted, and all different. */
  ghost predicate Unique(w: World) {
    && (forall t :: t in w.threads ==> Apart(w.m, Held(w.threads[t])))
    && (forall t, u :: t in w.threads && u in w.threads && t != u && Held(w.threads[t]).Some? ==>
          Held(w.threads[t]) != Held(w.threads[u]))
    && Known(w.m)
  }

  predicate Apart(m: Shared, held: Option<nat>) {
    held.Some? ==> held.value in m.accepted && held.value !in m.applied && m.pending != held
  }

  ghost predicate Known(m: Shared) {
    && (m.pending.Some? ==> m.pending.value in m.accepted && m.pending.value !in m.applied)
    && (forall v :: v in m.applied ==> v in m.accepted)
    && (forall i, j :: 0 <= i < j < |m.applied| ==> m.applied[i] != m.applied[j])
  }

  /** A step hands its value on, drops it, or receives a new one from the counter or the slot. */
  lemma MoveHolds(m: Shared, t: Tid, pc: Pc, spurious: bool)
    requires Rising(m.accepted, m.last) && Known(m) && Apart(m, Held(pc))
    ensures var (n, to) := Move(m, t, pc, spurious);
            && Known(n) && Apart(n, Held(to))
            && (Held(to).None? || Held(to) == Held(pc) || Held(to) == m.pending || Held(to).value !in m.accepted)
            && (forall v :: v in m.accepted ==> v in n.accepted)
            && (forall v :: v in n.applied ==> v in m.applied || Held(pc) == Some(v))
            && (n.pending == m.pending || n.pending.None? || n.pending == Held(pc))
  {
    if pc.Compare? && pc.v > pc.observed == m.last {
      assert pc.v !in m.accepted;
    }
  }

  lemma NextKeepsUnique(w: World, e: Event)
    requires Counted(w) && Unique(w)
    ensures Unique(Next(w, e))
  {
    if e.Act? && e.t in w.threads {
      MoveHolds(w.m, e.t, w.threads[e.t], e.spurious);
      hide Move, Held, Rising, Known;
    }
  }

  // ----- No lost wakeup -----

  ghost predicate Tended(w: World) { exists t :: t in w.threads && Live(w.threads[t]) }

  /** While the state is installed, a waiting transition has somebody who will still take care of it. */
  ghost predicate Attended(w: World) { w.m.pending.Some? && w.m.installed ==> Tended(w) }

  /** A callback that saw no state, or a worker that put its value back, leaving without a check. */
  predicate Abandons(w: World, e: Event) {
    e.Act? && e.t in w.threads && (w.threads[e.t].ClearBack? || (w.threads[e.t].Put? && !w.threads[e.t].saw))
  }

  ghost predicate TendedByOther(w: World, t: Tid) { exists u :: u in w.threads && u != t && Live(w.threads[u]) }

  /** It leaves a value behind for an installed state, and nobody else will look. */
  ghost predicate Strands(w: World, e: Event) {
    Abandons(w, e) && w.m.installed && Next(w, e).m.pending.Some? && !TendedByOther(w, e.t)
  }

  lemma OthersStayLive(w: World, e: Event, u: Tid)
    requires u in w.threads && Live(w.threads[u]) && (e.Act? ==> e.t != u)
    ensures Tended(Next(w, e))
  {
    var x := Next(w, e);
    assert u in x.threads && x.threads[u] == w.threads[u];
  }

  /** Every other step keeps a thread that will look. */
  lemma OthersKeepAttended(w: World, e: Event)
    requires OneOwner(w) && Attended(w) && !Abandons(w, e)
    ensures Attended(Next(w, e))
  {
    var x := Next(w, e);
    if x.m.pending.Some? && x.m.installed {
      if e.Act? && e.t in w.threads {
        var pc, to := w.threads[e.t], x.threads[e.t];
        if Live(to) {
          assert e.t in x.threads;
        } else if pc.Ensure? || pc.Reclaim? {
          OthersStayLive(w, e, w.m.owner.value);
        } else {
          assert w.m.pending.Some? && !Live(pc);
          var u :| u in w.threads && Live(w.threads[u]);
          OthersStayLive(w, e, u);
        }
      } else {
        var u :| u in w.threads && Live(w.threads[u]);
        OthersStayLive(w, e, u);
      }
    }
  }

  /** A thread that abandons its value does nothing further itself. */
  lemma AbandoningEnds(w: World, e: Event)
    requires Abandons(w, e)
    ensures Tended(Next(w, e)) <==> TendedByOther(w, e.t)
  {
    var x := Next(w, e);
    assert x.threads[e.t] == Done;
    if Tended(x) {
      var u :| u in x.threads && Live(x.threads[u]);
      assert u in w.threads && u != e.t && Live(w.threads[u]);
    }
    if TendedByOther(w, e.t) {
      var u :| u in w.threads && u != e.t && Live(w.threads[u]);
      OthersStayLive(w, e, u);
    }
  }

  /** A step loses the wakeup exactly when it strands a value. */
  lemma StaysAttendedIff(w: World, e: Event)
    requires OneOwner(w) && Attended(w)
    ensures Attended(Next(w, e)) <==> !Strands(w, e)
  {
    if Abandons(w, e) { AbandoningEnds(w, e); } else { OthersKeepAttended(w, e); }
  }

  // ----- Runs -----

  function Run(events: seq<Event>): World {
    if events == [] then FRESH else Next(Run(events[..|events| - 1]), events[|events| - 1])
  }

  /** No step of the run strands a value. */
  ghost predicate Steady(events: seq<Event>) {
    forall k :: 0 <= k < |events| ==> !Strands(Run(events[..k]), events[k])
  }

  lemma SteadyExtends(events: seq<Event>)
    requires events != []
    ensures var n := |events| - 1; Steady(events) <==> Steady(events[..n]) && !Strands(Run(events[..n]), events[n])
  {
    var n := |events| - 1;
    assert forall k :: 0 <= k <= n ==> events[..n][..k] == events[..k];
  }

  /**
   * Every interleaving: one worker at a time, every sequence accepted at most
   * once and in rising order, every accepted transition applied at most once.
   */
  lemma {:induction false} EveryRun(events: seq<Event>)
    ensures var w := Run(events); OneOwner(w) && Counted(w) && Unique(w)
  {
    if events != [] {
      var n := |events| - 1;
      var w := Run(events[..n]);
      EveryRun(events[..n]);
      NextKeepsOneOwner(w, events[n]);
      NextKeepsCounted(w, events[n]);
      NextKeepsUnique(w, events[n]);
    }
  }

  // ----- The counter follows the submissions -----

  /** A callback that has not yet got past the counter, with the value it brings. */
  predicate Arriving(pc: Pc, v: nat) { (pc.Load? || pc.Compare?) && pc.v == v }

  ghost predicate Submitted(events: seq<Event>, v: nat) { exists n, t :: 0 <= n < |events| && events[n] == Submit(t, v) }

  lemma MoveArrives(m: Shared, t: Tid, pc: Pc, spurious: bool, v: nat)
    requires Arriving(pc, v) && Observes(pc, m.last)
    ensures var (n, to) := Move(m, t, pc, spurious);
            && (Arriving(to, v) || v <= n.last)
            && (n.accepted == m.accepted || n.accepted == m.accepted + [v])
  {
  }

  lemma MoveAccepts(m: Shared, t: Tid, pc: Pc, spurious: bool)
    ensures var (n, to) := Move(m, t, pc, spurious);
            && m.last <= n.last
            && (n.accepted == m.accepted || (pc.Compare? && n.accepted == m.accepted + [pc.v]))
            && (to.Load? || to.Compare? ==> (pc.Load? || pc.Compare?) && to.v == pc.v)
  {
  }

  /** What a callback brings is never skipped: in the end the counter has reached it. */
  lemma {:induction false} EverySubmissionCounts(events: seq<Event>, n: nat)
    requires n < |events| && events[n].Submit? && events[n].v > 0 && events[n].t !in Run(events[..n]).threads
    ensures var w := Run(events);
            events[n].t in w.threads && (Arriving(w.threads[events[n].t], events[n].v) || events[n].v <= w.m.last)
    decreases |events|
  {
    var last := |events| - 1;
    var e := events[last];
    EveryRun(events[..last]);
    if n < last {
      assert events[..last][..n] == events[..n];
      EverySubmissionCounts(events[..last], n);
      hide Move, Rising;
      var w := Run(events[..last]);
      if e.Act? && e.t in w.threads {
        MoveAccepts(w.m, e.t, w.threads[e.t], e.spurious);
        if e.t == events[n].t && Arriving(w.threads[e.t], events[n].v) {
          MoveArrives(w.m, e.t, w.threads[e.t], e.spurious, events[n].v);
        }
      }
    }
  }

  lemma SubmittedMore(events: seq<Event>, v: nat)
    requires events != [] && Submitted(events[..|events| - 1], v)
    ensures Submitted(events, v)
  {
    var n, t :| 0 <= n < |events| - 1 && events[..|events| - 1][n] == Submit(t, v);
    assert events[n] == Submit(t, v);
  }

  /** Nothing is accepted, or on its way, that no callback brought. */
  lemma {:induction false} OnlySubmissionsCount(events: seq<Event>, v: nat)
    ensures v in Run(events).m.accepted ==> Submitted(events, v)
    ensures forall t :: t in Run(events).threads && Arriving(Run(events).threads[t], v) ==> Submitted(events, v)
  {
    if events != [] {
      var last := |events| - 1;
      var w, e := Run(events[..last]), events[last];
      OnlySubmissionsCount(events[..last], v);
      if Submitted(events[..last], v) { SubmittedMore(events, v); }
      hide Move;
      if e.Act? && e.t in w.threads { MoveAccepts(w.m, e.t, w.threads[e.t], e.spurious); }
      if e.Submit? && e.v == v { assert events[last] == Submit(e.t, v); }
    }
  }

  ghost predicate AttendedThroughout(events: seq<Event>) {
    forall k :: 0 <= k <= |events| ==> Attended(Run(events[..k]))
  }

  lemma ThroughoutExtends(events: seq<Event>)
    requires events != []
    ensures AttendedThroughout(events) <==> AttendedThroughout(events[..|events| - 1]) && Attended(Run(events))
    ensures AttendedThroughout(events[..|events| - 1]) ==> Attended(Run(events[..|events| - 1]))
  {
    hide Attended, Run;
    var before := events[..|events| - 1];
    assert forall k :: 0 <= k < |events| ==> before[..k] == events[..k];
    assert events[..|events|] == events && before[..|before|] == before;
  }

  /** A waiting value is attended all along a run exactly when no step of it strands one. */
  lemma {:induction false} AttendedThroughoutIff(events: seq<Event>)
    ensures AttendedThroughout(events) <==> Steady(events)
  {
    if events != [] {
      var n := |events| - 1;
      AttendedThroughoutIff(events[..n]);
      SteadyExtends(events);
      ThroughoutExtends(events);
      EveryRun(events[..n]);
      hide Strands, OneOwner, Counted, Unique, Next, Attended, Steady, AttendedThroughout;
      if Steady(events[..n]) { StaysAttendedIff(Run(events[..n]), events[n]); }
    }
  }

  /** When every thread has returned, nothing is left waiting for an installed state. */
  lemma QuietMeansDelivered(events: seq<Event>)
    requires Steady(events) && forall t :: t in Run(events).threads ==> Run(events).threads[t] == Done
    ensures Run(events).m.installed ==> Run(events).m.pending.None?
  {
    AttendedThroughoutIff(events);
    assert events[..|events|] == events;
  }

  // ----- What does not hold -----

  lemma Then(events: seq<Event>, e: Event)
    ensures Run(events + [e]) == Next(Run(events), e)
  {
    assert (events + [e])[..|events|] == events;
  }

  /** `n` undisturbed steps of one thread. */
  function Steps(m: Shared, t: Tid, pc: Pc, n: nat): (Shared, Pc)
    decreases n
  {
    if n == 0 then (m, pc) else var (k, to) := Move(m, t, pc, false); Steps(k, t, to, n - 1)
  }

  lemma {:induction false} RunThread(events: seq<Event>, t: Tid, n: nat) returns (more: seq<Event>)
    requires t in Run(events).threads
    ensures var w := Run(events);
            var (m, pc) := Steps(w.m, t, w.threads[t], n);
            Run(more) == World(m, w.threads[t := pc])
    decreases n
  {
    if n == 0 {
      more := events;
      assert Run(events).threads[t := Run(events).threads[t]] == Run(events).threads;
    } else {
      var w := Run(events);
      Then(events, Act(t, false));
      var next := Run(events + [Act(t, false)]);
      assert next.threads[t] == Move(w.m, t, w.threads[t], false).1;
      more := RunThread(events + [Act(t, false)], t, n - 1);
      var (m, pc) := Steps(next.m, t, next.threads[t], n - 1);
      assert next.threads[t := pc] == w.threads[t := pc];
    }
  }

  /** A callback that looks for the state just before it is installed can strand its transition. */
  lemma LateCallbackStrands() returns (events: seq<Event>)
    ensures var w := Run(events);
            w.m.installed && w.m.pending == Some(1) && forall t :: t in w.threads ==> w.threads[t] == Done
  {
    events := [];
    Then(events, Submit(0, 1));
    events := events + [Submit(0, 1)];
    events := RunThread(events, 0, 3);
    assert Run(events) == World(Shared(1, false, None, false, None, [1], []), map[0 := Put(1, false)]);
    Then(events, Install(1));
    events := events + [Install(1)];
    events := RunThread(events, 1, 5);
    assert Run(events) == World(Shared(1, false, None, true, None, [1], []), map[0 := Put(1, false), 1 := Done]);
    events := RunThread(events, 0, 1);
  }

  lemma Installed() returns (events: seq<Event>)
    ensures Run(events) == World(Shared(0, false, None, true, None, [], []), map[9 := Done])
  {
    events := [];
    Then(events, Install(9));
    events := events + [Install(9)];
    events := RunThread(events, 9, 5);
  }

  lemma NewerOvertakes() returns (events: seq<Event>)
    ensures Run(events) == World(Shared(2, true, None, true, Some(1), [1, 2], []), map[9 := Done, 0 := Sample(1), 1 := Find(2)])
  {
    events := Installed();
    Then(events, Submit(0, 1));
    events := events + [Submit(0, 1)];
    events := RunThread(events, 0, 2);
    assert Run(events) == World(Shared(1, false, None, true, None, [1], []), map[9 := Done, 0 := Sample(1)]);
    Then(events, Submit(1, 2));
    events := events + [Submit(1, 2)];
    events := RunThread(events, 1, 6);
  }

  /** Acceptance is in order, application is not: a delayed callback refills the emptied slot. */
  lemma AppliesOutOfOrder() returns (events: seq<Event>)
    ensures Run(events).m.accepted == [1, 2] && Run(events).m.applied == [2, 1]
  {
    events := NewerOvertakes();
    events := RunThread(events, 1, 5);
    assert Run(events) == World(Shared(2, false, None, true, None, [1, 2], [2]), map[9 := Done, 0 := Sample(1), 1 := Done]);
    events := RunThread(events, 0, 6);
  }

  lemma StateVanishes() returns (events: seq<Event>)
    ensures Run(events) == World(Shared(1, true, None, false, Some(0), [1], []), map[9 := Done, 0 := PutBack(1)])
  {
    events := Installed();
    Then(events, Submit(0, 1));
    events := events + [Submit(0, 1)];
    events := RunThread(events, 0, 6);
    assert Run(events) == World(Shared(1, true, None, true, Some(0), [1], []), map[9 := Done, 0 := Find(1)]);
    Then(events, DropState);
    events := events + [DropState];
    events := RunThread(events, 0, 1);
  }

  /** A worker that finds the state gone puts its value back over a newer one, which is then nowhere. */
  lemma PutBackLosesNewer() returns (events: seq<Event>)
    ensures var w := Run(events);
            && 2 in w.m.accepted && w.m.applied == [] && w.m.pending == Some(1)
            && forall t :: t in w.threads ==> Held(w.threads[t]) != Some(2)
  {
    events := StateVanishes();
    Then(events, Submit(1, 2));
    events := events + [Submit(1, 2)];
    events := RunThread(events, 1, 4);
    assert Run(events) == World(Shared(2, true, Some(2), false, Some(0), [1, 2], []), map[9 := Done, 0 := PutBack(1), 1 := Done]);
    events := RunThread(events, 0, 1);
  }
}
