/** Coalescing of presence announcements over semantic revisions. */
module Announce {
  import opened Common

  datatype Origin =
    | Manual | Startup | Periodic | InterfaceOnline | Opportunistic
    | IdentityChanged | ProfileChanged | PropagationChanged

  /** One-shot triggers that nobody will submit again. */
  predicate RetriesAfterCoveredFailure(o: Origin) {
    o in {InterfaceOnline, IdentityChanged, ProfileChanged, PropagationChanged}
  }

  datatype Revision = Revision(identity: u64, content: u64, interface: u64)

  function Larger(a: u64, b: u64): u64 { if a >= b then a else b }

  predicate Covers(a: Revision, b: Revision) {
    a.identity == b.identity && a.content >= b.content && a.interface >= b.interface
  }

  function Merge(a: Revision, b: Revision): Revision {
    if a.identity != b.identity then (if b.identity > a.identity then b else a)
    else Revision(a.identity, Larger(a.content, b.content), Larger(a.interface, b.interface))
  }

  /** The order a burst's revisions climb: a newer identity, or the same one covered. */
  predicate AtLeast(a: Revision, b: Revision) {
    a.identity > b.identity || Covers(a, b)
  }

  /** `Merge` is the least upper bound of `AtLeast`, so the order intents arrive in does not matter. */
  lemma MergeIsJoin(a: Revision, b: Revision, c: Revision)
    ensures AtLeast(Merge(a, b), a) && AtLeast(Merge(a, b), b)
    ensures AtLeast(c, a) && AtLeast(c, b) <==> AtLeast(c, Merge(a, b))
    ensures Merge(a, b) == Merge(b, a) && Merge(Merge(a, b), c) == Merge(a, Merge(b, c)) && Merge(a, a) == a
    ensures AtLeast(a, b) && AtLeast(b, a) ==> a == b
    ensures AtLeast(a, b) && AtLeast(b, c) ==> AtLeast(a, c)
  {
  }

  datatype Intent = Intent(origin: Origin, revisions: Revision)

  datatype Burst = Burst(id: u64, revisions: Revision, origins: set<Origin>)

  datatype Recent = Recent(id: u64, revisions: Revision, at: nat)

  datatype Admission = Lead(id: u64) | AlreadyQueued(id: u64) | Deferred(id: u64)

  const RECENT_WINDOW: nat := 5

  /** The coordinator's fields, as a value. */
  datatype State = State(lastId: u64, inFlight: Option<Burst>, followUp: Option<Burst>,
                         retry: Option<Burst>, recent: Option<Recent>)

  /** `wrapping_add(1).max(1)`: zero is never used. */
  function NextId(last: u64): u64 { if last == U64_MAX then 1 else last + 1 }

  function Absorb(b: Burst, i: Intent): Burst {
    b.(revisions := Merge(b.revisions, i.revisions), origins := b.origins + {i.origin})
  }

  function AbsorbBurst(b: Burst, other: Burst): Burst {
    b.(revisions := Merge(b.revisions, other.revisions), origins := b.origins + other.origins)
  }

  predicate CoveredInFlight(s: State, i: Intent) {
    s.inFlight.Some? && Covers(s.inFlight.value.revisions, i.revisions)
  }

  predicate RecentlyDone(s: State, i: Intent, now: nat) {
    && s.recent.Some? && Covers(s.recent.value.revisions, i.revisions)
    && (i.origin == InterfaceOnline || now < s.recent.value.at + RECENT_WINDOW)
  }

  function Fresh(s: State, i: Intent): Burst { Burst(NextId(s.lastId), i.revisions, {i.origin}) }

  function Admitted(s: State, i: Intent, now: nat): (State, Admission) {
    if CoveredInFlight(s, i) then
      var joined := s.(inFlight := Some(s.inFlight.value.(origins := s.inFlight.value.origins + {i.origin})));
      (if !RetriesAfterCoveredFailure(i.origin) then joined
       else if s.retry.Some? then joined.(retry := Some(Absorb(s.retry.value, i)))
       else joined.(retry := Some(Fresh(s, i)), lastId := NextId(s.lastId)),
       AlreadyQueued(s.inFlight.value.id))
    else if s.inFlight.Some? then
      if s.followUp.Some?
      then (s.(followUp := Some(Absorb(s.followUp.value, i))), Deferred(s.followUp.value.id))
      else (s.(followUp := Some(Fresh(s, i)), lastId := NextId(s.lastId)), Deferred(NextId(s.lastId)))
    else if RecentlyDone(s, i, now) then (s, AlreadyQueued(s.recent.value.id))
    else (s.(inFlight := Some(Fresh(s, i)), lastId := NextId(s.lastId)), Lead(NextId(s.lastId)))
  }

  /** What waits for promotion once the current burst ends this way. */
  function Waiting(s: State, success: bool): Option<Burst> {
    if success || s.retry.None? then s.followUp
    else if s.followUp.Some? then Some(AbsorbBurst(s.followUp.value, s.retry.value))
    else s.retry
  }

  /** A finish for any other id takes the in-flight burst and promotes nothing. */
  function Finished(s: State, id: u64, success: bool, now: nat): (State, Option<Burst>) {
    if s.inFlight.None? || s.inFlight.value.id != id then (s.(inFlight := None), None)
    else
      var promoted := Waiting(s, success);
      (State(s.lastId, promoted, None, None,
             if success then Some(Recent(id, s.inFlight.value.revisions, now)) else s.recent),
       promoted)
  }

  /** The one-shot triggers, and whatever covers an intent's revisions, spelled out. */
  predicate OneShot(o: Origin) { o == InterfaceOnline || o == IdentityChanged || o == ProfileChanged || o == PropagationChanged }

  predicate Reaches(done: Revision, wanted: Revision) {
    done.identity == wanted.identity && done.content >= wanted.content && done.interface >= wanted.interface
  }

  /** A recent success stands for the intent: for five seconds, and for an interface that came up for good. */
  predicate Repeats(s: State, i: Intent, now: nat) {
    && s.recent.Some? && Reaches(s.recent.value.revisions, i.revisions)
    && (now < s.recent.value.at + 5 || i.origin == InterfaceOnline)
  }

  /** `b` after it has taken the intent in: its id stays, and it climbs just as far as the intent. */
  predicate Takes(b: Burst, i: Intent, after: Burst) {
    && after.id == b.id && after.origins == b.origins + {i.origin}
    && after.revisions == (if i.revisions.identity > b.revisions.identity then i.revisions
                           else if i.revisions.identity < b.revisions.identity then b.revisions
                           else Revision(b.revisions.identity,
                                         if i.revisions.content > b.revisions.content then i.revisions.content else b.revisions.content,
                                         if i.revisions.interface > b.revisions.interface then i.revisions.interface else b.revisions.interface))
  }

  /** The slot holds the intent: on its own under the next id, or taken in by what was there. */
  predicate TakesIn(slot: Option<Burst>, i: Intent, next: u64, after: Option<Burst>) {
    after.Some? && if slot.None? then after.value == Burst(next, i.revisions, {i.origin}) else Takes(slot.value, i, after.value)
  }

  /** What is answered to an intent, and what becomes of the coordinator. */
  predicate Answers(s: State, i: Intent, now: nat, t: State, a: Admission) {
    && t.recent == s.recent
    && if s.inFlight.Some? then
         var b := s.inFlight.value;
         if Reaches(b.revisions, i.revisions) then
           && a == AlreadyQueued(b.id) && t.inFlight == Some(Burst(b.id, b.revisions, b.origins + {i.origin}))
           && t.followUp == s.followUp
           && if OneShot(i.origin) then TakesIn(s.retry, i, t.lastId, t.retry) else t.retry == s.retry
         else
           && t.inFlight == s.inFlight && t.retry == s.retry
           && TakesIn(s.followUp, i, t.lastId, t.followUp) && a == Deferred(t.followUp.value.id)
       else if Repeats(s, i, now) then a == AlreadyQueued(s.recent.value.id) && t == s
       else
         && t.followUp == s.followUp && t.retry == s.retry
         && t.inFlight == Some(Burst(t.lastId, i.revisions, {i.origin})) && a == Lead(t.lastId)
  }

  lemma AnswersExactly(s: State, i: Intent, now: nat)
    ensures Answers(s, i, now, Admitted(s, i, now).0, Admitted(s, i, now).1)
  {
  }

  /** What a finish hands on, and what it remembers. */
  ghost predicate Concludes(s: State, id: u64, success: bool, now: nat, t: State, leader: Option<Burst>) {
    && t.lastId == s.lastId && t.inFlight == leader
    && if s.inFlight.None? || s.inFlight.value.id != id then
         leader.None? && t.followUp == s.followUp && t.retry == s.retry && t.recent == s.recent
       else
         && t.followUp.None? && t.retry.None?
         && t.recent == (if success then Some(Recent(id, s.inFlight.value.revisions, now)) else s.recent)
         && if success || s.retry.None? then leader == s.followUp
            else if s.followUp.None? then leader == s.retry
            else
              && leader.Some? && leader.value.id == s.followUp.value.id
              && leader.value.origins == s.followUp.value.origins + s.retry.value.origins
              && forall r: Revision :: AtLeast(r, leader.value.revisions) <==>
                   AtLeast(r, s.followUp.value.revisions) && AtLeast(r, s.retry.value.revisions)
  }

  lemma ConcludesExactly(s: State, id: u64, success: bool, now: nat)
    ensures Concludes(s, id, success, now, Finished(s, id, success, now).0, Finished(s, id, success, now).1)
  {
    if s.followUp.Some? && s.retry.Some? {
      forall r: Revision { MergeIsJoin(s.followUp.value.revisions, s.retry.value.revisions, r); }
    }
  }

  class Coordinator {
    var lastId: u64
    var inFlight: Option<Burst>
    var followUp: Option<Burst>
    var retry: Option<Burst>
    var recent: Option<Recent>

    function View(): State
      reads this
    {
      State(lastId, inFlight, followUp, retry, recent)
    }

    constructor ()
      ensures View() == State(0, None, None, None, None)
    {
      lastId, inFlight, followUp, retry, recent := 0, None, None, None, None;
    }

    method NewBurst(i: Intent) returns (b: Burst)
      modifies `lastId
      ensures b == Fresh(old(View()), i) && lastId == NextId(old(lastId))
    {
      lastId := if lastId == U64_MAX then 0 else lastId + 1;
      if lastId < 1 { lastId := 1; }
      b := Burst(lastId, i.revisions, {i.origin});
    }

    method Admit(i: Intent, now: nat) returns (a: Admission)
      modifies this
      ensures View() == Admitted(old(View()), i, now).0 && a == Admitted(old(View()), i, now).1
      ensures Answers(old(View()), i, now, View(), a)
    {
      AnswersExactly(View(), i, now);
      hide Answers;
      if inFlight.Some? && Covers(inFlight.value.revisions, i.revisions) {
        inFlight := Some(inFlight.value.(origins := inFlight.value.origins + {i.origin}));
        if RetriesAfterCoveredFailure(i.origin) {
          if retry.Some? {
            retry := Some(Absorb(retry.value, i));
          } else {
            var b := NewBurst(i);
            retry := Some(b);
          }
        }
        return AlreadyQueued(inFlight.value.id);
      }
      if inFlight.Some? {
        if followUp.Some? {
          followUp := Some(Absorb(followUp.value, i));
        } else {
          var b := NewBurst(i);
          followUp := Some(b);
        }
        return Deferred(followUp.value.id);
      }
      if recent.Some? && Covers(recent.value.revisions, i.revisions) {
        // A saturating difference: a clock before the completion counts as zero.
        var elapsed := if now >= recent.value.at then now - recent.value.at else 0;
        if elapsed < RECENT_WINDOW || i.origin == InterfaceOnline {
          return AlreadyQueued(recent.value.id);
        }
      }
      var b := NewBurst(i);
      inFlight := Some(b);
      return Lead(b.id);
    }

    method Finish(id: u64, success: bool, now: nat) returns (leader: Option<Burst>)
      modifies this
      ensures View() == Finished(old(View()), id, success, now).0 && leader == Finished(old(View()), id, success, now).1
      ensures Concludes(old(View()), id, success, now, View(), leader)
    {
      ConcludesExactly(View(), id, success, now);
      hide Concludes;
      var completed := inFlight;
      inFlight := None;
      if completed.None? || completed.value.id != id {
        return None;
      }
      if success {
        recent := Some(Recent(id, completed.value.revisions, now));
        retry := None;
      } else if retry.Some? {
        var taken := retry.value;
        retry := None;
        if followUp.Some? {
          followUp := Some(AbsorbBurst(followUp.value, taken));
        } else {
          followUp := Some(taken);
        }
      }
      if followUp.Some? {
        leader := followUp;
        inFlight, followUp := followUp, None;
      } else {
        leader := None;
      }
    }
  }

  // ----- Runs -----

  datatype Event = Admit(intent: Intent, when: nat) | Finish(id: u64, success: bool, at: nat)

  function Next(s: State, e: Event): State {
    match e
    case Admit(i, now) => Admitted(s, i, now).0
    case Finish(id, success, now) => Finished(s, id, success, now).0
  }

  function Run(s: State, events: seq<Event>): State {
    if events == [] then s else Next(Run(s, events[..|events| - 1]), events[|events| - 1])
  }

  predicate OnlyAdmits(events: seq<Event>) { forall e :: e in events ==> e.Admit? }

  /** No event promotes the follow-up: each is an admit or a finish that finds no current burst of its id. */
  ghost predicate NonePromoted(s: State, events: seq<Event>) {
    forall n :: 0 <= n < |events| && events[n].Finish? ==>
      Finished(Run(s, events[..n]), events[n].id, events[n].success, events[n].at).1.None?
      && !Current(Run(s, events[..n]), events[n].id)
  }

  predicate Current(s: State, id: u64) { s.inFlight.Some? && s.inFlight.value.id == id }

  /** The burst carries this intent: its trigger, and revisions that have not fallen behind it. */
  predicate Carries(b: Burst, i: Intent) {
    i.origin in b.origins && AtLeast(b.revisions, i.revisions)
  }

  /** The in-flight burst's revisions are frozen, and what waits behind it only grows. */
  lemma {:induction false} AdmitsKeep(s: State, events: seq<Event>, i: Intent)
    requires OnlyAdmits(events) && s.inFlight.Some?
    ensures var t := Run(s, events);
            && t.inFlight.Some? && t.inFlight.value.id == s.inFlight.value.id
            && t.inFlight.value.revisions == s.inFlight.value.revisions
            && t.inFlight.value.origins >= s.inFlight.value.origins
            && (s.followUp.Some? ==> t.followUp.Some? && t.followUp.value.id == s.followUp.value.id
                                     && (Carries(s.followUp.value, i) ==> Carries(t.followUp.value, i)))
            && (s.retry.Some? ==> t.retry.Some? && (Carries(s.retry.value, i) ==> Carries(t.retry.value, i)))
  {
    if events != [] {
      var n := |events| - 1;
      AdmitsKeep(s, events[..n], i);
      assert events[n] in events;
    }
  }

  /**
   * An intent absorbed by the burst in flight is not lost. When that burst
   * succeeds its revisions cover the intent; when it fails and the trigger is
   * one-shot, the promoted burst carries it.
   */
  lemma AbsorbedIntentSurvives(s: State, i: Intent, now: nat, events: seq<Event>, success: bool, at: nat)
    requires CoveredInFlight(s, i) && OnlyAdmits(events)
    ensures var (joined, answer) := Admitted(s, i, now);
            var (after, promoted) := Finished(Run(joined, events), s.inFlight.value.id, success, at);
            && answer == AlreadyQueued(s.inFlight.value.id)
            && (success ==> after.recent.Some? && after.recent.value.id == s.inFlight.value.id
                            && Covers(after.recent.value.revisions, i.revisions))
            && (!success && RetriesAfterCoveredFailure(i.origin) ==> promoted.Some? && Carries(promoted.value, i))
  {
    var joined := Admitted(s, i, now).0;
    AdmitsKeep(joined, events, i);
  }

  /** While nothing is promoted the follow-up keeps its id and everything it carries. */
  lemma {:induction false} FollowUpKept(s: State, events: seq<Event>, i: Intent)
    requires s.followUp.Some? && Carries(s.followUp.value, i) && NonePromoted(s, events)
    ensures var t := Run(s, events);
            t.followUp.Some? && t.followUp.value.id == s.followUp.value.id && Carries(t.followUp.value, i)
  {
    if events != [] {
      var n := |events| - 1;
      assert forall m :: 0 <= m < n ==> events[..n][m] == events[m] && events[..n][..m] == events[..m];
      FollowUpKept(s, events[..n], i);
    }
  }

  /**
   * A deferred intent's id is the id of the very next burst any finish promotes,
   * and that burst carries the intent, whatever is admitted or dropped meanwhile.
   */
  lemma DeferredIntentLeads(s: State, i: Intent, now: nat, events: seq<Event>, id: u64, success: bool, at: nat)
    requires s.inFlight.Some? && !CoveredInFlight(s, i)
    requires NonePromoted(Admitted(s, i, now).0, events) && Current(Run(Admitted(s, i, now).0, events), id)
    ensures var (deferred, answer) := Admitted(s, i, now);
            var promoted := Finished(Run(deferred, events), id, success, at).1;
            && answer.Deferred? && promoted.Some? && promoted.value.id == answer.id && Carries(promoted.value, i)
  {
    FollowUpKept(Admitted(s, i, now).0, events, i);
  }

  /** With nothing further admitted, finishing the current burst and its successor empties the coordinator. */
  lemma TwoFinishesEmpty(s: State, first: bool, second: bool, t1: nat, t2: nat)
    requires s.inFlight.Some?
    ensures var (mid, promoted) := Finished(s, s.inFlight.value.id, first, t1);
            && (promoted.None? ==> mid.inFlight.None? && mid.followUp.None? && mid.retry.None?)
            && (promoted.Some? ==> mid.inFlight == promoted
                                   && var end := Finished(mid, promoted.value.id, second, t2);
                                      end.0.inFlight.None? && end.0.followUp.None? && end.0.retry.None? && end.1.None?)
  {
  }

  /**
   * A finish for a stale id takes the in-flight burst with it: a one-shot intent
   * it had absorbed is then forgotten by the next success, uncovered.
   */
  lemma StaleFinishLosesIntent()
    ensures var i := Intent(ProfileChanged, Revision(1, 2, 0));
            var s := Admitted(State(0, None, None, None, None), Intent(Manual, Revision(1, 2, 0)), 0).0;
            var absorbed := Admitted(s, i, 0).0;
            var dropped := Finished(absorbed, 9, false, 1).0;
            var later := Admitted(dropped, Intent(Manual, Revision(1, 1, 0)), 2);
            var end := Finished(later.0, later.1.id, true, 3).0;
            && end.inFlight.None? && end.followUp.None? && end.retry.None?
            && end.recent.Some? && !AtLeast(end.recent.value.revisions, i.revisions)
  {
  }

  /** A failed finish hands a waiting one-shot intent on exactly when it names the burst in flight. */
  lemma FailedFinishPromotesIff(s: State, i: Intent, id: u64, at: nat)
    requires s.inFlight.Some? && s.retry.Some? && Carries(s.retry.value, i)
    ensures var promoted := Finished(s, id, false, at).1;
            promoted.Some? && Carries(promoted.value, i) <==> Current(s, id)
  {
    if s.followUp.Some? {
      MergeIsJoin(s.followUp.value.revisions, s.retry.value.revisions, i.revisions);
    }
  }

  predicate Used(s: State, id: u64) {
    || (s.inFlight.Some? && s.inFlight.value.id == id) || (s.followUp.Some? && s.followUp.value.id == id)
    || (s.retry.Some? && s.retry.value.id == id) || (s.recent.Some? && s.recent.value.id == id)
  }

  predicate Differ(a: Option<Burst>, b: Option<Burst>) { a.Some? && b.Some? ==> a.value.id != b.value.id }

  predicate OlderThan(b: Option<Burst>, last: u64) { b.Some? ==> b.value.id <= last }

  predicate NotRecent(b: Option<Burst>, recent: Option<Recent>) { b.Some? && recent.Some? ==> b.value.id != recent.value.id }

  /** Every id in use has been issued, and no two bursts share one. */
  predicate Issued(s: State) {
    && OlderThan(s.inFlight, s.lastId) && OlderThan(s.followUp, s.lastId) && OlderThan(s.retry, s.lastId)
    && (s.recent.Some? ==> s.recent.value.id <= s.lastId)
    && Differ(s.inFlight, s.followUp) && Differ(s.inFlight, s.retry) && Differ(s.followUp, s.retry)
    && NotRecent(s.inFlight, s.recent) && NotRecent(s.followUp, s.recent) && NotRecent(s.retry, s.recent)
  }

  predicate Holds(s: State, b: Burst) { Some(b) in {s.inFlight, s.followUp, s.retry} }

  /** The burst is none of those the coordinator holds. */
  predicate New(s: State, b: Burst) {
    Differ(Some(b), s.inFlight) && Differ(Some(b), s.followUp) && Differ(Some(b), s.retry)
  }

  predicate Empty(s: State) { s.inFlight.None? && s.followUp.None? && s.retry.None? }

  lemma NextIssues(s: State, e: Event)
    requires Issued(s) && s.lastId < U64_MAX
    ensures Issued(Next(s, e)) && s.lastId <= Next(s, e).lastId <= s.lastId + 1
  {
  }

  lemma NewIsNext(s: State, e: Event, b: Burst)
    requires Issued(s) && s.lastId < U64_MAX && Holds(Next(s, e), b) && New(s, b)
    ensures b.id == s.lastId + 1 && !Used(s, b.id)
  {
  }

  /**
   * Until the counter wraps, whatever burst an event creates, leading, deferred
   * or kept for a retry, has an id nothing else in the coordinator has.
   */
  lemma IdsAreFresh(s: State, events: seq<Event>, e: Event, b: Burst)
    requires Issued(s) && s.lastId + |events| < U64_MAX
    requires Holds(Next(Run(s, events), e), b) && New(Run(s, events), b)
    ensures !Used(Run(s, events), b.id)
  {
    RunsIssue(s, events);
    NewIsNext(Run(s, events), e, b);
  }

  lemma {:induction false} RunsIssue(s: State, events: seq<Event>)
    requires Issued(s) && s.lastId + |events| < U64_MAX
    ensures Issued(Run(s, events)) && Run(s, events).lastId <= s.lastId + |events|
  {
    if events != [] {
      var n := |events| - 1;
      RunsIssue(s, events[..n]);
      NextIssues(Run(s, events[..n]), events[n]);
    }
  }

  // ----- The repeat window -----

  const START: State := State(0, None, None, None, None)

  /** The event is a success of the burst in flight. */
  predicate Succeeds(events: seq<Event>, n: nat)
    requires n < |events|
  {
    events[n].Finish? && events[n].success && Current(Run(START, events[..n]), events[n].id)
  }

  /** What the coordinator remembers is the last success of the run, with its time, and nothing else. */
  lemma {:induction false} RecentIsLastSuccess(events: seq<Event>) returns (last: Option<nat>)
    ensures last.None? ==> Run(START, events).recent.None? && forall n :: 0 <= n < |events| ==> !Succeeds(events, n)
    ensures last.Some? ==>
              && last.value < |events| && Succeeds(events, last.value)
              && (forall n :: last.value < n < |events| ==> !Succeeds(events, n))
              && Run(START, events).recent == Some(Recent(events[last.value].id,
                   Run(START, events[..last.value]).inFlight.value.revisions, events[last.value].at))
  {
    hide *;
    if events == [] {
      last := None;
      NothingYet(events);
    } else {
      var m := |events| - 1;
      var before := events[..m];
      last := RecentIsLastSuccess(before);
      SameSuccesses(events);
      LastEvent(events);
      if Succeeds(events, m) { last := Some(m); }
    }
  }

  lemma NothingYet(events: seq<Event>)
    requires events == []
    ensures Run(START, events).recent.None?
  {
  }

  lemma SameSuccesses(events: seq<Event>)
    requires events != []
    ensures forall n :: 0 <= n < |events| - 1 ==>
              && events[..|events| - 1][..n] == events[..n] && events[..|events| - 1][n] == events[n]
              && (Succeeds(events[..|events| - 1], n) <==> Succeeds(events, n))
  {
    hide Run, Current;
    assert forall n :: 0 <= n < |events| - 1 ==> events[..|events| - 1][..n] == events[..n];
  }

  lemma LastEvent(events: seq<Event>)
    requires events != []
    ensures var m := |events| - 1;
            Run(START, events).recent == if Succeeds(events, m)
              then Some(Recent(events[m].id, Run(START, events[..m]).inFlight.value.revisions, events[m].at))
              else Run(START, events[..m]).recent
  {
    NextRemembers(Run(START, events[..|events| - 1]), events[|events| - 1]);
    hide Next;
  }

  lemma NextRemembers(s: State, e: Event)
    ensures Next(s, e).recent ==
            if e.Finish? && e.success && Current(s, e.id) then Some(Recent(e.id, s.inFlight.value.revisions, e.at)) else s.recent
  {
  }

  /**
   * With nothing in flight an intent other than of an interface that came up
   * leads a new burst as soon as five seconds have passed since the last success.
   */
  lemma LeadsAfterWindow(events: seq<Event>, i: Intent, now: nat)
    requires Run(START, events).inFlight.None? && i.origin != InterfaceOnline
    requires forall n :: 0 <= n < |events| && Succeeds(events, n) ==> events[n].at + 5 <= now
    ensures Admitted(Run(START, events), i, now).1.Lead?
  {
    var last := RecentIsLastSuccess(events);
    AnswersExactly(Run(START, events), i, now);
    hide Run, Admitted, Succeeds;
  }

  /** And within five seconds of a success that reached its revisions it is answered with that success. */
  lemma RepeatsWithinWindow(events: seq<Event>, i: Intent, now: nat, n: nat)
    requires Run(START, events).inFlight.None? && n < |events| && Succeeds(events, n)
    requires forall m :: n < m < |events| ==> !Succeeds(events, m)
    requires Reaches(Run(START, events[..n]).inFlight.value.revisions, i.revisions)
    requires now < events[n].at + 5 || i.origin == InterfaceOnline
    ensures Admitted(Run(START, events), i, now) == (Run(START, events), AlreadyQueued(events[n].id))
  {
    var last := RecentIsLastSuccess(events);
    AnswersExactly(Run(START, events), i, now);
    hide Run, Admitted, Reaches;
  }

  /** Zero is no burst's id. */
  lemma {:induction false} IdsAreNotZero(events: seq<Event>, b: Burst)
    requires Holds(Run(START, events), b)
    ensures b.id > 0
  {
    if events != [] {
      var m := |events| - 1;
      var s := Run(START, events[..m]);
      forall c | Holds(s, c) ensures c.id > 0 { IdsAreNotZero(events[..m], c); }
      NewIdIsNotZero(s, events[m], b);
    }
  }

  lemma NewIdIsNotZero(s: State, e: Event, b: Burst)
    requires Holds(Next(s, e), b) && forall c :: Holds(s, c) ==> c.id > 0
    ensures b.id > 0
  {
    assert forall slot :: slot in {s.inFlight, s.followUp, s.retry} && slot.Some? ==> Holds(s, slot.value);
  }

  // ----- Every intent is carried -----

  /** What waits for a retry was covered by the burst in flight, and joined it. */
  predicate Behind(s: State) {
    s.retry.Some? ==>
      && s.inFlight.Some? && AtLeast(s.inFlight.value.revisions, s.retry.value.revisions)
      && s.retry.value.origins <= s.inFlight.value.origins
  }

  /** Some burst of the coordinator carries the intent. */
  predicate Pending(s: State, i: Intent) {
    || (s.inFlight.Some? && Carries(s.inFlight.value, i)) || (s.followUp.Some? && Carries(s.followUp.value, i))
    || (s.retry.Some? && Carries(s.retry.value, i))
  }

  /** A burst with the intent aboard ends, well or not. */
  predicate Ends(s: State, e: Event, i: Intent) {
    e.Finish? && Current(s, e.id) && Carries(s.inFlight.value, i)
  }

  /** Every finish names the burst in flight, if there is one. */
  predicate Own(s: State, e: Event) { e.Finish? && s.inFlight.Some? ==> s.inFlight.value.id == e.id }

  ghost predicate OwnFinishes(s: State, events: seq<Event>) {
    forall n :: 0 <= n < |events| ==> Own(Run(s, events[..n]), events[n])
  }

  lemma NextKeepsBehind(s: State, e: Event)
    requires Behind(s) && Own(s, e)
    ensures Behind(Next(s, e))
  {
    if e.Admit? && s.retry.Some? && s.inFlight.Some? {
      MergeIsJoin(s.retry.value.revisions, e.intent.revisions, s.inFlight.value.revisions);
    }
  }

  lemma NextKeepsPending(s: State, e: Event, i: Intent)
    requires Behind(s) && Own(s, e) && Pending(s, i)
    ensures Pending(Next(s, e), i) || Ends(s, e, i)
  {
    if s.retry.Some? && Carries(s.retry.value, i) {
      MergeIsJoin(s.inFlight.value.revisions, s.retry.value.revisions, i.revisions);
    }
  }

  /** An admitted intent is carried, unless a recent success already covers it. */
  lemma AdmittedIsPending(s: State, i: Intent, now: nat)
    ensures Pending(Admitted(s, i, now).0, i) || (s.inFlight.None? && RecentlyDone(s, i, now))
  {
  }

  lemma {:induction false} RunsStayBehind(s: State, events: seq<Event>, n: nat)
    requires Behind(s) && OwnFinishes(s, events) && n <= |events|
    ensures Behind(Run(s, events[..n]))
  {
    if n > 0 {
      RunsStayBehind(s, events, n - 1);
      assert events[..n][..n - 1] == events[..n - 1];
      hide Behind, Next, Own;
      assert Own(Run(s, events[..n - 1]), events[n - 1]);
      NextKeepsBehind(Run(s, events[..n - 1]), events[n - 1]);
    }
  }

  ghost predicate EndedBetween(s: State, events: seq<Event>, n: nat, m: nat, i: Intent)
    requires m <= |events|
  {
    exists k :: n < k < m && Ends(Run(s, events[..k]), events[k], i)
  }

  lemma RunSteps(s: State, events: seq<Event>, m: nat)
    requires 0 < m <= |events|
    ensures Run(s, events[..m]) == Next(Run(s, events[..m - 1]), events[m - 1])
  {
    hide Next;
    assert events[..m][..m - 1] == events[..m - 1];
  }

  /** One more event of the run: an intent aboard stays so, or its burst ends now. */
  lemma OneMoreEvent(s: State, events: seq<Event>, n: nat, m: nat, i: Intent)
    requires Behind(s) && OwnFinishes(s, events) && n + 1 < m <= |events|
    requires Pending(Run(s, events[..m - 1]), i) || EndedBetween(s, events, n, m - 1, i)
    ensures Pending(Run(s, events[..m]), i) || EndedBetween(s, events, n, m, i)
  {
    hide Behind, Pending, Ends, Own, Run, Next;
    var last := Run(s, events[..m - 1]);
    RunSteps(s, events, m);
    if Pending(last, i) {
      RunsStayBehind(s, events, m - 1);
      NextKeepsPending(last, events[m - 1], i);
    }
  }

  /**
   * Over every run whose finishes name the burst in flight: an admitted intent
   * stays aboard some burst until a burst that carries it ends, unless a recent
   * success covered it when it came.
   */
  lemma {:induction false} EveryIntentIsCarried(s: State, events: seq<Event>, n: nat, m: nat, i: Intent)
    requires Behind(s) && OwnFinishes(s, events) && n < m <= |events| && events[n].Admit? && events[n].intent == i
    ensures var at := Run(s, events[..n]);
            || Pending(Run(s, events[..m]), i) || EndedBetween(s, events, n, m, i)
            || (at.inFlight.None? && RecentlyDone(at, i, events[n].when))
    decreases m
  {
    hide *;
    if m == n + 1 {
      var at := Run(s, events[..n]);
      RunSteps(s, events, m);
      AdmittedIsPending(at, i, events[n].when);
      NextAdmits(at, events[n]);
    } else {
      EveryIntentIsCarried(s, events, n, m - 1, i);
      if Pending(Run(s, events[..m - 1]), i) || EndedBetween(s, events, n, m - 1, i) { OneMoreEvent(s, events, n, m, i); }
    }
  }

  lemma NextAdmits(s: State, e: Event)
    requires e.Admit?
    ensures Next(s, e) == Admitted(s, e.intent, e.when).0
  {
  }

  /** Once the coordinator is empty, every intent of the run was aboard a burst that ended, or already covered. */
  lemma EmptyMeansCarried(s: State, events: seq<Event>, n: nat, i: Intent)
    requires Behind(s) && OwnFinishes(s, events) && n < |events| && events[n].Admit? && events[n].intent == i
    requires Empty(Run(s, events))
    ensures var at := Run(s, events[..n]);
            EndedBetween(s, events, n, |events|, i) || (at.inFlight.None? && RecentlyDone(at, i, events[n].when))
  {
    assert events[..|events|] == events;
    EveryIntentIsCarried(s, events, n, |events|, i);
  }
}
