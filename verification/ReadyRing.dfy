/** Per-link queues behind a round-robin ready ring. */
module ReadyRing {
  import opened Common

  type Link = seq<int>

  /** A deposit; `serial` tells apart deposits with equal payloads. */
  datatype Job = Job(serial: nat, link: Link, proof: bool, resource: bool)

  datatype Ring = Ring(queues: map<Link, seq<Job>>, ready: seq<Link>)

  const EMPTY: Ring := Ring(map[], [])

  /** `ready` lists each link with a waiting job exactly once, and jobs wait under their own link. */
  ghost predicate WellFormed(r: Ring) {
    && (forall i, j :: 0 <= i < j < |r.ready| ==> r.ready[i] != r.ready[j])
    && (forall l :: l in r.ready <==> l in r.queues)
    && (forall l :: l in r.queues ==> r.queues[l] != [] && forall j :: j in r.queues[l] ==> j.link == l)
  }

  function Queue(r: Ring, l: Link): seq<Job> { if l in r.queues then r.queues[l] else [] }

  function Push(r: Ring, j: Job): Ring {
    Ring(r.queues[j.link := Queue(r, j.link) + [j]], if Queue(r, j.link) == [] then r.ready + [j.link] else r.ready)
  }

  /** The job at the front of the ring; a link listed without a waiting job yields none. */
  function Head(r: Ring): Option<Job> {
    if r.ready == [] || Queue(r, r.ready[0]) == [] then None else Some(Queue(r, r.ready[0])[0])
  }

  function Pop(r: Ring): Ring {
    if r.ready == [] then r
    else
      var l := r.ready[0];
      if Queue(r, l) == [] then r.(ready := r.ready[1..])
      else if |Queue(r, l)| == 1 then Ring(r.queues - {l}, r.ready[1..])
      else Ring(r.queues[l := Queue(r, l)[1..]], r.ready[1..] + [l])
  }

  lemma PushKeeps(r: Ring, j: Job)
    requires WellFormed(r)
    ensures WellFormed(Push(r, j))
  {
    var p := Push(r, j);
    forall l ensures l in p.ready <==> l in p.queues {}
  }

  lemma PopKeeps(r: Ring)
    requires WellFormed(r)
    ensures WellFormed(Pop(r)) && (r.ready != [] ==> Head(r).Some?)
  {
    if r.ready != [] {
      var p, l := Pop(r), r.ready[0];
      assert r.ready == [l] + r.ready[1..] && l !in r.ready[1..];
      forall k ensures k in p.ready <==> k in p.queues {
        assert k in r.ready <==> k == l || k in r.ready[1..];
      }
      assert Queue(r, l) == [Queue(r, l)[0]] + Queue(r, l)[1..];
    }
  }

  // ----- Runs -----

  datatype Event = Enqueue(job: Job) | Dispatch

  function Step(r: Ring, e: Event): Ring {
    match e
    case Enqueue(j) => Push(r, j)
    case Dispatch => Pop(r)
  }

  function Run(r: Ring, events: seq<Event>): Ring {
    if events == [] then r else Step(Run(r, events[..|events| - 1]), events[|events| - 1])
  }

  lemma StepKeeps(r: Ring, e: Event)
    requires WellFormed(r)
    ensures WellFormed(Step(r, e))
  {
    match e
    case Enqueue(j) => PushKeeps(r, j);
    case Dispatch => PopKeeps(r);
  }

  /** In every run `ready` lists each link with a waiting job exactly once. */
  lemma {:induction false} RunKeeps(r: Ring, events: seq<Event>)
    requires WellFormed(r)
    ensures WellFormed(Run(r, events))
  {
    hide WellFormed;
    if events != [] {
      RunKeeps(r, events[..|events| - 1]);
      StepKeeps(Run(r, events[..|events| - 1]), events[|events| - 1]);
    }
  }

  function HandedOut(before: Ring, e: Event): seq<Job> {
    if e.Dispatch? && Head(before).Some? then [Head(before).value] else []
  }

  function TakenIn(e: Event): seq<Job> { if e.Enqueue? then [e.job] else [] }

  /** The jobs a run hands to workers, in order. */
  function Dispatched(r: Ring, events: seq<Event>): seq<Job> {
    if events == [] then []
    else
      var init, last := events[..|events| - 1], events[|events| - 1];
      Dispatched(r, init) + HandedOut(Run(r, init), last)
  }

  /** The jobs a run enqueues, in order. */
  function Enqueued(events: seq<Event>): seq<Job> {
    if events == [] then []
    else Enqueued(events[..|events| - 1]) + TakenIn(events[|events| - 1])
  }

  function Of(jobs: seq<Job>, l: Link): seq<Job> {
    if jobs == [] then []
    else Of(jobs[..|jobs| - 1], l) + if jobs[|jobs| - 1].link == l then [jobs[|jobs| - 1]] else []
  }

  lemma OfAppend(jobs: seq<Job>, j: Job, l: Link)
    ensures Of(jobs + [j], l) == Of(jobs, l) + if j.link == l then [j] else []
  {
    assert (jobs + [j])[..|jobs|] == jobs;
  }

  lemma PushFifo(r: Ring, j: Job, l: Link)
    ensures Queue(Push(r, j), l) == Queue(r, l) + if j.link == l then [j] else []
  {
  }

  lemma PopFifo(r: Ring, l: Link)
    requires WellFormed(r) && r.ready != []
    ensures Head(r).Some? && Head(r).value.link == r.ready[0]
    ensures (if Head(r).value.link == l then [Head(r).value] else []) + Queue(Pop(r), l) == Queue(r, l)
  {
    var first := r.ready[0];
    assert first in r.ready && first in r.queues;
    assert Queue(r, first)[0] in r.queues[first];
    assert Queue(r, first) == [Queue(r, first)[0]] + Queue(r, first)[1..];
  }

  lemma Regroup<T>(a: seq<T>, b: seq<T>, c: seq<T>)
    ensures a + (b + c) == (a + b) + c
  {
  }

  lemma FifoStep(before: Ring, e: Event, start: seq<Job>, done: seq<Job>, entered: seq<Job>, l: Link)
    requires WellFormed(before) && Of(done, l) + Queue(before, l) == start + Of(entered, l)
    ensures Of(done + HandedOut(before, e), l) + Queue(Step(before, e), l) == start + Of(entered + TakenIn(e), l)
  {
    assert done + [] == done && entered + [] == entered;
    match e
    case Enqueue(j) =>
      var own := if j.link == l then [j] else [];
      OfAppend(entered, j, l);
      PushFifo(before, j, l);
      Regroup(Of(done, l), Queue(before, l), own);
      Regroup(start, Of(entered, l), own);
    case Dispatch =>
      if before.ready != [] {
        PopFifo(before, l);
        var head := Head(before).value;
        OfAppend(done, head, l);
        Regroup(Of(done, l), if head.link == l then [head] else [], Queue(Pop(before), l));
      }
  }

  /**
   * First in, first out per link: what was dispatched for a link, followed by
   * what still waits, is exactly what waited at the start followed by what was
   * enqueued for it since.
   */
  lemma {:induction false} FifoPerLink(r: Ring, events: seq<Event>, l: Link)
    requires WellFormed(r)
    ensures Of(Dispatched(r, events), l) + Queue(Run(r, events), l) == Queue(r, l) + Of(Enqueued(events), l)
  {
    hide WellFormed, Of, Queue, HandedOut, TakenIn, Step;
    if events == [] {
      NothingOf(l);
      assert [] + Queue(r, l) == Queue(r, l) + [];
    } else {
      var init, last := events[..|events| - 1], events[|events| - 1];
      FifoPerLink(r, init, l);
      RunKeeps(r, init);
      FifoStep(Run(r, init), last, Queue(r, l), Dispatched(r, init), Enqueued(init), l);
    }
  }

  lemma NothingOf(l: Link)
    ensures Of([], l) == []
  {
  }

  function Links(jobs: seq<Job>): seq<Link> { seq(|jobs|, i requires 0 <= i < |jobs| => jobs[i].link) }

  /** Ring order as a state: `done` were served in order, the others still lead the ring. */
  ghost predicate Serving(start: seq<Link>, done: seq<Job>, ready: seq<Link>) {
    |done| <= |start| && Links(done) == start[..|done|] && start[|done|..] <= ready
  }

  lemma ServeNext(start: seq<Link>, done: seq<Job>, before: Ring, e: Event)
    requires WellFormed(before) && Serving(start, done, before.ready)
    requires |done + HandedOut(before, e)| <= |start|
    ensures Serving(start, done + HandedOut(before, e), Step(before, e).ready)
  {
    if e.Dispatch? && before.ready != [] {
      PopFifo(before, before.ready[0]);
      var head := Head(before).value;
      assert start[|done|..][0] == before.ready[0];
      assert Links(done + [head]) == Links(done) + [head.link];
      assert start[..|done| + 1] == start[..|done|] + [start[|done|]];
      assert start[|done| + 1..] == start[|done|..][1..];
      assert start[|done|..][1..] <= before.ready[1..];
    } else {
      assert done + [] == done;
    }
  }

  /**
   * Round robin: as long as no more jobs are dispatched than links were ready,
   * the dispatches serve exactly those links in ring order, and links that
   * become ready meanwhile line up behind the ones still to be served.
   */
  lemma {:induction false} RingOrder(r: Ring, events: seq<Event>)
    requires WellFormed(r) && |Dispatched(r, events)| <= |r.ready|
    ensures Serving(r.ready, Dispatched(r, events), Run(r, events).ready)
  {
    if events == [] {
      assert Links([]) == [];
    } else {
      hide WellFormed, Serving, HandedOut, Step;
      var init, last := events[..|events| - 1], events[|events| - 1];
      RingOrder(r, init);
      RunKeeps(r, init);
      ServeNext(r.ready, Dispatched(r, init), Run(r, init), last);
    }
  }

  /**
   * Between two dispatches of a link that stays non-empty every other link is
   * dispatched at most once, and the wait is at most one turn of the ring.
   */
  lemma OneTurnBetweenDispatches(r: Ring, events: seq<Event>)
    requires WellFormed(r) && r.ready != [] && |Queue(r, r.ready[0])| > 1
    requires r.ready[0] !in Links(Dispatched(Pop(r), events))
    ensures |Dispatched(Pop(r), events)| < |r.ready|
    ensures var served := Links(Dispatched(Pop(r), events));
            forall i, j :: 0 <= i < j < |served| ==> served[i] != served[j]
    ensures |Dispatched(Pop(r), events)| == |r.ready| - 1 ==>
              var next := Head(Run(Pop(r), events)); next.Some? && next.value.link == r.ready[0]
  {
    var l, p := r.ready[0], Pop(r);
    PopKeeps(r);
    assert p.ready == r.ready[1..] + [l];
    NotServedWithinTurn(p, events, l);
    RingOrder(p, events);
    RunKeeps(p, events);
    var d := |Dispatched(p, events)|;
    if d == |r.ready| - 1 {
      assert p.ready[d..] == [l];
      PopFifo(Run(p, events), l);
    }
  }

  lemma NotServedWithinTurn(p: Ring, events: seq<Event>, l: Link)
    requires WellFormed(p) && p.ready != [] && p.ready[|p.ready| - 1] == l
    requires l !in Links(Dispatched(p, events))
    ensures |Dispatched(p, events)| < |p.ready|
  {
    var turn := |p.ready|;
    if |Dispatched(p, events)| >= turn {
      TurnServesLast(p, events);
      assert false;
    }
  }

  lemma TurnServesLast(p: Ring, events: seq<Event>)
    requires WellFormed(p) && p.ready != [] && |Dispatched(p, events)| >= |p.ready|
    ensures p.ready[|p.ready| - 1] in Links(Dispatched(p, events))
  {
    var turn := |p.ready|;
    var m := PrefixWith(p, events, turn);
    RingOrder(p, events[..m]);
    DispatchedGrows(p, events, m);
    assert Links(Dispatched(p, events[..m]))[turn - 1] == p.ready[turn - 1];
    assert Links(Dispatched(p, events))[turn - 1] == p.ready[turn - 1];
  }

  lemma {:induction false} DispatchedGrows(r: Ring, events: seq<Event>, m: nat)
    requires m <= |events|
    ensures Dispatched(r, events[..m]) <= Dispatched(r, events)
    decreases |events|
  {
    if m == |events| {
      assert events[..m] == events;
    } else {
      DispatchedGrows(r, events[..|events| - 1], m);
      assert events[..|events| - 1][..m] == events[..m];
    }
  }

  /** The shortest prefix of a run with exactly this many dispatches. */
  lemma {:induction false} PrefixWith(r: Ring, events: seq<Event>, d: nat) returns (m: nat)
    requires d <= |Dispatched(r, events)|
    ensures m <= |events| && |Dispatched(r, events[..m])| == d
    decreases |events|
  {
    if |Dispatched(r, events)| == d {
      m := |events|;
      assert events[..m] == events;
    } else {
      m := PrefixWith(r, events[..|events| - 1], d);
      assert events[..|events| - 1][..m] == events[..m];
    }
  }
}
