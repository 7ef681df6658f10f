/** Every run of the lifecycle and the inbox together: who may acknowledge what. */
module Presentation {
  import opened Common
  import opened Lifecycle
  import opened Inbox
  import Decimal

  datatype Phone = Phone(life: Life, box: Box)

  const BOOT: Phone := Phone(Lifecycle.FRESH, Inbox.EMPTY)

  datatype Event =
    | Attach(generation: u64, id: int, webviewReady: bool)
    | Detach(generation: u64)
    | Resume(generation: u64, resumed: bool)
    | WebviewLoaded(generation: u64)
    | RuntimeUp
    | Exit
    | RequestRestore(windowExists: bool)
    | BeginRestore(owner: Owner, windowExists: bool)
    | AbandonRestore(generation: u64)
    | Open(payloads: seq<Payload>)
    | Peek
    | Ack(revision: string, token: string)

  /** What a peek hands to the page, as opaque tokens. */
  datatype Delivery = Delivery(revision: string, generation: string, target: Target)

  function Peeked(p: Phone): Option<Delivery> {
    if Presents(p.life) && p.box.pending.Some? then
      Some(Delivery(Decimal.ToString(p.box.pending.value.revision),
                    Decimal.ToString(p.life.activity.value.generation), p.box.pending.value.target))
    else None
  }

  /** The gated command: the peeking Activity must still be the presenting one. */
  predicate AckAccepted(p: Phone, revision: string, generation: string) {
    && Presents(p.life) && Decimal.ToString(p.life.activity.value.generation) == generation
    && Acknowledges(p.box, revision)
  }

  function Next(p: Phone, e: Event): Phone {
    match e
    case Attach(generation, id, webviewReady) => p.(life := Attached(p.life, generation, id, webviewReady))
    case Detach(generation) => p.(life := Detached(p.life, generation))
    case Resume(generation, resumed) => p.(life := Resumed(p.life, generation, resumed))
    case WebviewLoaded(generation) => p.(life := WebviewReady(p.life, generation))
    case RuntimeUp => p.(life := p.life.(ready := true))
    case Exit => p.(life := p.life.(exiting := true, restore := None))
    case RequestRestore(windowExists) => p.(life := RestoreRequested(p.life, windowExists))
    case BeginRestore(owner, _) => p.(life := RestoreTaken(p.life, owner.generation))
    case AbandonRestore(generation) => p.(life := RestoreTaken(p.life, generation))
    case Open(payloads) => p.(box := Accepted(p.box, payloads))
    case Peek => p
    case Ack(revision, generation) =>
      if AckAccepted(p, revision, generation) then p.(box := Acknowledged(p.box, revision)) else p
  }

  function Run(p: Phone, events: seq<Event>): Phone {
    if events == [] then p else Next(Run(p, events[..|events| - 1]), events[|events| - 1])
  }

  function StateAt(events: seq<Event>, k: nat): Phone
    requires k <= |events|
  {
    Run(BOOT, events[..k])
  }

  // ----- What every state satisfies, and how states follow each other -----

  predicate Bounded(p: Phone) {
    && (p.life.activity.Some? ==> 0 < p.life.activity.value.generation <= p.life.latest)
    && (p.box.pending.Some? ==> 0 < p.box.pending.value.revision <= p.box.last)
    && (p.life.restore.Some? ==> Retains(p.life) && Current(p.life, p.life.restore.value))
  }

  /** `b` comes after `a`: nothing old comes back, and nothing revives after exit. */
  predicate Later(a: Phone, b: Phone) {
    && a.life.latest <= b.life.latest && a.box.last <= b.box.last
    && (a.life.ready ==> b.life.ready) && (a.life.exiting ==> b.life.exiting && b.life.latest == a.life.latest)
    && (b.life.activity.Some? && b.life.activity.value.generation <= a.life.latest ==>
          && Current(a.life, b.life.activity.value.generation)
          && a.life.activity.value.activityId == b.life.activity.value.activityId
          && (a.life.activity.value.webviewReady ==> b.life.activity.value.webviewReady))
    && (b.box.pending.Some? && b.box.pending.value.revision <= a.box.last ==> a.box.pending == b.box.pending)
  }

  lemma NextIsLater(p: Phone, e: Event)
    requires Bounded(p)
    ensures Bounded(Next(p, e)) && Later(p, Next(p, e))
  {
  }

  lemma LaterTransitive(a: Phone, b: Phone, c: Phone)
    requires Later(a, b) && Later(b, c)
    ensures Later(a, c)
  {
  }

  lemma {:induction false} EveryState(events: seq<Event>, i: nat, j: nat)
    requires i <= j <= |events|
    ensures Bounded(StateAt(events, i)) && Bounded(StateAt(events, j)) && Later(StateAt(events, i), StateAt(events, j))
    decreases j
  {
    if j > 0 {
      assert events[..j][..j - 1] == events[..j - 1];
      EveryState(events, if i == j then i - 1 else i, j - 1);
      NextIsLater(StateAt(events, j - 1), events[j - 1]);
      if i < j {
        LaterTransitive(StateAt(events, i), StateAt(events, j - 1), StateAt(events, j));
      }
    }
  }

  // ----- Acknowledgments -----

  /**
   * An acknowledgment made of a peek's tokens is accepted only while the very
   * same delivery has been pending ever since, under the very same Activity,
   * which presents again now, with the runtime up and never exiting in between.
   */
  lemma AckIsCurrent(events: seq<Event>, i: nat, j: nat, d: Delivery)
    requires i <= j <= |events| && Peeked(StateAt(events, i)) == Some(d)
    requires AckAccepted(StateAt(events, j), d.revision, d.generation)
    ensures Presents(StateAt(events, i).life) && Presents(StateAt(events, j).life)
    ensures forall k :: i <= k <= j ==>
              var now, first := StateAt(events, k), StateAt(events, i);
              && now.box.pending == first.box.pending && now.box.pending.value.target == d.target
              && Current(now.life, first.life.activity.value.generation)
              && now.life.activity.value.activityId == first.life.activity.value.activityId
              && Retains(now.life) && now.life.activity.value.webviewReady
  {
    var a, c := StateAt(events, i), StateAt(events, j);
    Decimal.ToStringInjective(a.box.pending.value.revision, c.box.pending.value.revision);
    Decimal.ToStringInjective(a.life.activity.value.generation, c.life.activity.value.generation);
    forall k | i <= k <= j
      ensures var now := StateAt(events, k);
              && now.box.pending == a.box.pending
              && Current(now.life, a.life.activity.value.generation)
              && now.life.activity.value.activityId == a.life.activity.value.activityId
              && Retains(now.life) && now.life.activity.value.webviewReady
    {
      EveryState(events, i, k);
      EveryState(events, k, j);
    }
  }

  /** A token that has been acknowledged is never accepted again. */
  lemma AckedOnce(events: seq<Event>, j: nat, k: nat, revision: string, generation: string)
    requires j < k <= |events| && events[j] == Ack(revision, generation)
    requires AckAccepted(StateAt(events, j), revision, generation)
    ensures StateAt(events, j + 1).box.pending.None?
    ensures !Acknowledges(StateAt(events, k).box, revision)
  {
    var acked, cleared, now := StateAt(events, j), StateAt(events, j + 1), StateAt(events, k);
    assert events[..j + 1][..j] == events[..j];
    EveryState(events, j, j);
    EveryState(events, j + 1, k);
    if Acknowledges(now.box, revision) {
      Decimal.ToStringInjective(now.box.pending.value.revision, acked.box.pending.value.revision);
    }
  }

  /** Two different shares never carry the same token. */
  lemma RevisionsNeverRepeat(events: seq<Event>, i: nat, j: nat)
    requires i <= j <= |events|
    requires StateAt(events, i).box.pending.Some? && StateAt(events, j).box.pending.Some?
    requires StateAt(events, i).box.pending.value.revision == StateAt(events, j).box.pending.value.revision
    ensures forall k :: i <= k <= j ==> StateAt(events, k).box.pending == StateAt(events, i).box.pending
  {
    forall k | i <= k <= j ensures StateAt(events, k).box.pending == StateAt(events, i).box.pending {
      EveryState(events, i, k);
      EveryState(events, k, j);
    }
  }

  /** An Activity that has gone never comes back under its generation. */
  lemma GenerationsNeverRepeat(events: seq<Event>, i: nat, j: nat, generation: u64)
    requires i <= j <= |events|
    requires Current(StateAt(events, i).life, generation) && Current(StateAt(events, j).life, generation)
    ensures forall k :: i <= k <= j ==>
              && Current(StateAt(events, k).life, generation)
              && StateAt(events, k).life.activity.value.activityId == StateAt(events, i).life.activity.value.activityId
  {
    forall k | i <= k <= j
      ensures Current(StateAt(events, k).life, generation)
              && StateAt(events, k).life.activity.value.activityId == StateAt(events, i).life.activity.value.activityId
    {
      EveryState(events, i, k);
      EveryState(events, k, j);
    }
  }

  // ----- Restores -----

  function Requests(events: seq<Event>): nat {
    if events == [] then 0
    else
      var n := |events| - 1;
      Requests(events[..n])
      + if events[n].RequestRestore? && Restorable(Run(BOOT, events[..n]).life, events[n].windowExists).Some? then 1 else 0
  }

  function Restores(events: seq<Event>): nat {
    if events == [] then 0
    else
      var n := |events| - 1;
      Restores(events[..n])
      + if events[n].BeginRestore? && Lifecycle.Restores(Run(BOOT, events[..n]).life, events[n].owner, events[n].windowExists)
        then 1 else 0
  }

  /** A restore begins at most once for every request that was granted. */
  lemma {:induction false} RestoreOncePerRequest(events: seq<Event>)
    ensures Restores(events) + (if Run(BOOT, events).life.restore.Some? then 1 else 0) <= Requests(events)
  {
    if events != [] {
      RestoreOncePerRequest(events[..|events| - 1]);
    }
  }

  /** The Activity stays, nothing exits, and nobody takes or gives up its request. */
  predicate LeavesRequest(e: Event, owner: Owner) {
    && !e.Exit? && !e.Attach? && !(e.Detach? && e.generation == owner.generation)
    && !(e.BeginRestore? && e.owner.generation == owner.generation)
    && !(e.AbandonRestore? && e.generation == owner.generation)
  }

  /** A granted request can be taken up as long as the Activity stays. */
  lemma {:induction false} RequestIsKept(events: seq<Event>, i: nat, j: nat, owner: Owner)
    requires i < j <= |events| && events[i].RequestRestore?
    requires Restorable(StateAt(events, i).life, events[i].windowExists) == Some(owner)
    requires forall k :: i < k < j ==> LeavesRequest(events[k], owner)
    ensures Lifecycle.Restores(StateAt(events, j).life, owner, false)
    decreases j
  {
    assert events[..j][..j - 1] == events[..j - 1];
    if i + 1 < j {
      RequestIsKept(events, i, j - 1, owner);
    }
  }

  /** It begins only for the Activity that asked and is still current. */
  lemma RestoreIsForCurrent(events: seq<Event>, owner: Owner, windowExists: bool)
    requires Lifecycle.Restores(Run(BOOT, events).life, owner, windowExists)
    ensures Current(Run(BOOT, events).life, owner.generation) && Retains(Run(BOOT, events).life) && !windowExists
    ensures Run(BOOT, events).life.activity.value.activityId == owner.activityId
  {
  }

  /** After exit nothing attaches, presents, restores or is acknowledged any more. */
  lemma ExitIsFinal(events: seq<Event>, i: nat, j: nat)
    requires i <= j <= |events| && StateAt(events, i).life.exiting
    ensures var l := StateAt(events, j).life;
            && l.exiting && l.latest == StateAt(events, i).life.latest && l.restore.None?
            && !Presents(l) && !Retains(l)
            && (l.activity.Some? ==> Current(StateAt(events, i).life, l.activity.value.generation))
            && (forall w :: Restorable(l, w).None?) && (forall o, w :: !Lifecycle.Restores(l, o, w))
    ensures Peeked(StateAt(events, j)).None? && forall r, g :: !AckAccepted(StateAt(events, j), r, g)
  {
    EveryState(events, i, j);
  }

  // ----- Who presents, by the events -----

  /** An Activity attaches under a generation above all earlier ones, before any exit. */
  predicate Appears(events: seq<Event>, n: nat)
    requires n < |events|
  {
    && events[n].Attach? && events[n].generation > 0 && Exit !in events[..n]
    && forall m :: 0 <= m < n && events[m].Attach? ==> events[m].generation < events[n].generation
  }

  /** The last report on the generation said that it is resumed. */
  predicate LastResumed(events: seq<Event>, generation: u64) {
    exists r :: 0 <= r < |events| && events[r] == Resume(generation, true) && Resume(generation, false) !in events[r + 1..]
  }

  /** The `n`th event brought the Activity that is there now. */
  predicate Stays(events: seq<Event>, n: nat)
    requires n < |events|
  {
    && Appears(events, n) && (forall m :: n < m < |events| ==> !Appears(events, m))
    && Detach(events[n].generation) !in events[n + 1..]
  }

  /**
   * An Activity presents exactly when it was the last to appear and was not
   * detached, its last report says resumed, its WebView came with it or loaded
   * later, the runtime came up and nothing has exited.
   */
  lemma PresentsIff(events: seq<Event>)
    ensures Presents(Run(BOOT, events).life) <==>
              && RuntimeUp in events && Exit !in events
              && exists n :: 0 <= n < |events| && Stays(events, n)
                             && var rest := events[n + 1..];
                                LastResumed(rest, events[n].generation)
                                && (events[n].webviewReady || WebviewLoaded(events[n].generation) in rest)
  {
    var last := LifeIs(events);
    hide Run, Next;
  }

  /** What the events after an Activity's appearance say of it. */
  ghost predicate Reports(a: Event, rest: seq<Event>, l: Life)
    requires a.Attach?
  {
    && l.latest == a.generation && (l.activity.Some? <==> Detach(a.generation) !in rest)
    && (l.activity.Some? ==>
          && l.activity.value.generation == a.generation && l.activity.value.activityId == a.id
          && (l.activity.value.resumed <==> LastResumed(rest, a.generation))
          && (l.activity.value.webviewReady <==> a.webviewReady || WebviewLoaded(a.generation) in rest))
  }

  lemma ReportsNext(a: Event, rest: seq<Event>, e: Event, p: Phone)
    requires a.Attach? && Reports(a, rest, p.life)
    requires e.Attach? ==> e.generation <= p.life.latest || p.life.exiting
    ensures Reports(a, rest + [e], Next(p, e).life)
  {
    ReportAdds(rest, e, a.generation);
    hide LastResumed, Accepted, Acknowledged, AckAccepted;
  }

  lemma ReportsFirst(e: Event, p: Phone)
    requires e.Attach? && e.generation > p.life.latest && !p.life.exiting
    ensures Reports(e, [], Next(p, e).life)
  {
    NoReport(e.generation);
    hide LastResumed;
  }

  /** What the events say of the lifecycle: which Activity appeared last, and what has been reported on it. */
  ghost predicate Recounts(events: seq<Event>, l: Life, last: Option<nat>) {
    && (l.ready <==> RuntimeUp in events) && (l.exiting <==> Exit in events)
    && (last.None? ==> (forall n :: 0 <= n < |events| ==> !Appears(events, n)) && l.latest == 0 && l.activity.None?)
    && (last.Some? ==>
          && last.value < |events| && Appears(events, last.value)
          && (forall m :: last.value < m < |events| ==> !Appears(events, m))
          && Reports(events[last.value], events[last.value + 1..], l))
    && (Exit !in events ==> forall m :: 0 <= m < |events| && events[m].Attach? ==> events[m].generation <= l.latest)
  }

  lemma {:induction false} LifeIs(events: seq<Event>) returns (last: Option<nat>)
    ensures Recounts(events, Run(BOOT, events).life, last)
  {
    if events == [] {
      last := None;
    } else {
      var n := |events| - 1;
      var before := LifeIs(events[..n]);
      assert events == events[..n] + [events[n]];
      hide Run;
      last := OneMore(events[..n], events[n], Run(BOOT, events[..n]), before);
    }
  }

  lemma OneMore(events: seq<Event>, e: Event, p: Phone, last: Option<nat>) returns (now: Option<nat>)
    requires Recounts(events, p.life, last)
    ensures Recounts(events + [e], Next(p, e).life, now)
  {
    var more, n := events + [e], |events|;
    now := if Appears(more, n) then Some(n) else last;
    AppearsSame(events, e);
    hide Appears, Reports;
    Flags(events, e, p);
    assert more[n + 1..] == [];
    if Appears(more, n) {
      ReportsFirst(e, p);
    } else if last.Some? {
      assert more[last.value + 1..] == events[last.value + 1..] + [e];
      ReportsNext(events[last.value], events[last.value + 1..], e, p);
    }
    hide Next;
  }

  lemma Flags(events: seq<Event>, e: Event, p: Phone)
    ensures var l := Next(p, e).life;
            && (l.ready <==> p.life.ready || e == RuntimeUp) && (l.exiting <==> p.life.exiting || e == Exit)
            && l.latest == (if e.Attach? && e.generation > p.life.latest && !p.life.exiting then e.generation else p.life.latest)
            && (l.activity.Some? ==> p.life.activity.Some? || e.Attach?)
  {
  }

  lemma NoReport(generation: u64)
    ensures !LastResumed([], generation)
  {
  }

  lemma AppearsSame(events: seq<Event>, e: Event)
    ensures forall m :: 0 <= m < |events| ==> (Appears(events + [e], m) <==> Appears(events, m))
    ensures Appears(events + [e], |events|) <==>
              e.Attach? && e.generation > 0 && Exit !in events
              && forall m :: 0 <= m < |events| && events[m].Attach? ==> events[m].generation < e.generation
  {
    assert (events + [e])[..|events|] == events;
    assert forall m :: 0 <= m < |events| ==> (events + [e])[..m] == events[..m];
  }

  lemma ReportAdds(events: seq<Event>, e: Event, generation: u64)
    ensures LastResumed(events + [e], generation) <==>
              if e.Resume? && e.generation == generation then e.resumed else LastResumed(events, generation)
  {
    var more, n := events + [e], |events|;
    assert more[n + 1..] == [];
    if LastResumed(more, generation) {
      var r :| 0 <= r <= n && more[r] == Resume(generation, true) && Resume(generation, false) !in more[r + 1..];
      if r < n { assert more[r + 1..] == events[r + 1..] + [e]; }
    }
    if e == Resume(generation, true) { assert more[n] == Resume(generation, true); }
    if LastResumed(events, generation) && e != Resume(generation, false) {
      var r :| 0 <= r < n && events[r] == Resume(generation, true) && Resume(generation, false) !in events[r + 1..];
      assert more[r + 1..] == events[r + 1..] + [e];
      assert more[r] == Resume(generation, true) && Resume(generation, false) !in more[r + 1..];
    }
  }

  /** A peek delivers exactly while something presents and a share is pending: its tokens and its target. */
  lemma PeekedIff(p: Phone)
    ensures Peeked(p).Some? <==>
              && p.life.ready && !p.life.exiting && p.box.pending.Some?
              && p.life.activity.Some? && p.life.activity.value.resumed && p.life.activity.value.webviewReady
    ensures Peeked(p).Some? ==>
              && Peeked(p).value.target == p.box.pending.value.target
              && Decimal.ToString(p.box.pending.value.revision) == Peeked(p).value.revision
              && Decimal.ToString(p.life.activity.value.generation) == Peeked(p).value.generation
  {
  }

  /** An acknowledgment clears the share exactly if it repeats the tokens that a peek would deliver now. */
  lemma AckTakesIff(p: Phone, revision: string, token: string)
    ensures var q := Next(p, Ack(revision, token));
            && q.life == p.life && q.box.last == p.box.last
            && (if Peeked(p).Some? && Peeked(p).value.revision == revision && Peeked(p).value.generation == token
                then q.box.pending.None? else q == p)
  {
  }
}
