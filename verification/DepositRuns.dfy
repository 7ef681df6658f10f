/** Several deposits at once: the node is locked for one step at a time, and files are written in between. */
module DepositRuns {
  import opened Common
  import opened Hosted

  type Tid = seq<byte>
  type Worker = nat

  /** A worker at message `i` of its validated batch. */
  datatype Place =
    | Planning      // about to ask the node to admit the message
    | Verifying     // the node has it; about to check the stored file
    | Persisting    // holds the reservation; writing the file
    | Committing    // holds the reservation; about to publish
    | Aborting      // holds the reservation; the write failed
    | Ended(outcome: Outcome)

  datatype Deposit = Deposit(batch: seq<Tid>, i: nat, at: Place)

  /** The node, and what is known of its history. */
  datatype Node = Node(
    stored: set<Tid>,
    reserved: set<Tid>,
    written: set<Tid>,      // every message whose file was durably written
    published: set<Tid>,    // every message ever published
    abandoned: set<Tid>     // reservations that a failed publication left in the node
  )

  datatype World = World(node: Node, workers: map<Worker, Deposit>)

  const FRESH: World := World(Node({}, {}, {}, {}, {}), map[])

  /** `ok` is the answer of the environment at that step: room in the node, an intact file, a durable write, a publication. */
  datatype Event = Begin(w: Worker, batch: seq<Tid>) | Act(w: Worker, ok: bool) | Purge(tid: Tid)

  predicate Holds(d: Deposit) { d.i < |d.batch| && (d.at.Persisting? || d.at.Committing? || d.at.Aborting?) }

  /** The message that the worker holds reserved. */
  function Held(d: Deposit): Option<Tid> { if Holds(d) then Some(d.batch[d.i]) else None }

  function Move(n: Node, d: Deposit, ok: bool): (Node, Deposit) {
    var next := d.(i := d.i + 1, at := Planning);
    if d.i >= |d.batch| then (n, d.(at := if d.at.Ended? then d.at else Ended(Stored)))
    else
      var tid := d.batch[d.i];
      match d.at
      case Planning =>
        if tid in n.stored then (n, d.(at := Verifying))
        else if tid in n.reserved then (n, d.(at := Ended(AwaitOther)))
        else if ok then (n.(reserved := n.reserved + {tid}), d.(at := Persisting))
        else (n, d.(at := Ended(Unavailable)))
      case Verifying => (n, if ok then next else d.(at := Ended(Unavailable)))
      case Persisting =>
        if ok then (n.(written := n.written + {tid}), d.(at := Committing)) else (n, d.(at := Aborting))
      case Committing =>
        if ok then
          (n.(stored := n.stored + {tid}, reserved := n.reserved - {tid}, published := n.published + {tid}), next)
        else (n.(abandoned := n.abandoned + {tid}), d.(at := Ended(Unavailable)))
      case Aborting => (n.(reserved := n.reserved - {tid}), d.(at := Ended(Unavailable)))
      case Ended(_) => (n, d)
  }

  function Next(w: World, e: Event): World {
    match e
    case Begin(k, batch) => if k in w.workers then w else w.(workers := w.workers[k := Deposit(batch, 0, Planning)])
    case Act(k, ok) =>
      if k !in w.workers then w
      else
        var (n, d) := Move(w.node, w.workers[k], ok);
        World(n, w.workers[k := d])
    case Purge(tid) => w.(node := w.node.(stored := w.node.stored - {tid}))
  }

  function Run(events: seq<Event>): World {
    if events == [] then FRESH else Next(Run(events[..|events| - 1]), events[|events| - 1])
  }

  // ----- One writer for every message -----

  ghost predicate HeldBySome(w: World, tid: Tid) { exists k :: k in w.workers && Held(w.workers[k]) == Some(tid) }

  /** No two workers hold the same message, and what they hold is reserved. */
  ghost predicate Apart(w: World) {
    && (forall k, m :: k in w.workers && m in w.workers && k != m && Held(w.workers[k]).Some? ==>
          Held(w.workers[k]) != Held(w.workers[m]))
    && (forall k :: k in w.workers && Held(w.workers[k]).Some? ==>
          Held(w.workers[k]).value in w.node.reserved && Held(w.workers[k]).value !in w.node.abandoned)
  }

  /** Reservations are those of the workers that write, one each, and those that a failed publication left. */
  ghost predicate Exclusive(w: World) {
    && Apart(w)
    && (forall tid :: tid in w.node.reserved && tid !in w.node.abandoned ==> HeldBySome(w, tid))
    && w.node.abandoned <= w.node.reserved && w.node.stored !! w.node.reserved
  }

  /** Everything before a worker's place has been published, and a finished batch has been published whole. */
  ghost predicate Advanced(w: World) {
    && w.node.stored <= w.node.published <= w.node.written
    && (forall k :: k in w.workers && w.workers[k].at.Committing? && w.workers[k].i < |w.workers[k].batch| ==>
          w.workers[k].batch[w.workers[k].i] in w.node.written)
    && (forall k, j :: k in w.workers && 0 <= j < w.workers[k].i && j < |w.workers[k].batch| ==>
          w.workers[k].batch[j] in w.node.published)
    && (forall k :: k in w.workers && w.workers[k].at.Verifying? && w.workers[k].i < |w.workers[k].batch| ==>
          w.workers[k].batch[w.workers[k].i] in w.node.published)
    && (forall k :: k in w.workers && w.workers[k].at == Ended(Stored) ==> w.workers[k].i >= |w.workers[k].batch|)
  }

  lemma MoveKeepsExclusive(n: Node, d: Deposit, ok: bool)
    requires n.abandoned <= n.reserved && n.stored !! n.reserved
    requires Held(d).Some? ==> Held(d).value in n.reserved && Held(d).value !in n.abandoned
    ensures var (m, c) := Move(n, d, ok);
            && m.abandoned <= m.reserved && m.stored !! m.reserved
            && (Held(c).Some? ==> Held(c).value in m.reserved && Held(c).value !in m.abandoned)
            && (Held(c).Some? && Held(c) != Held(d) ==> Held(c).value !in n.reserved)
            && (forall tid :: Held(d) != Some(tid) && Held(c) != Some(tid) ==>
                  (tid in m.reserved <==> tid in n.reserved) && (tid in m.abandoned <==> tid in n.abandoned))
            && (forall tid :: Held(d) == Some(tid) && Held(c) != Some(tid) ==> tid in m.reserved ==> tid in m.abandoned)
  {
  }

  lemma ActKeepsApart(w: World, e: Event)
    requires Exclusive(w) && e.Act? && e.w in w.workers
    ensures Apart(Next(w, e))
  {
    hide Move, Held, Next, HeldBySome;
    ActPlaces(w, e);
    MoveKeepsExclusive(w.node, w.workers[e.w], e.ok);
  }

  lemma HeldIsReserved(w: World, k: Worker)
    requires Apart(w) && k in w.workers && Held(w.workers[k]).Some?
    ensures Held(w.workers[k]).value in w.node.reserved && Held(w.workers[k]).value !in w.node.abandoned
  {
    hide Held;
  }

  /** Only the acting worker and the node change. */
  lemma ActPlaces(w: World, e: Event)
    requires e.Act? && e.w in w.workers
    ensures var x := Next(w, e);
            && x.workers.Keys == w.workers.Keys && (forall k :: k in w.workers && k != e.w ==> x.workers[k] == w.workers[k])
            && (x.node, x.workers[e.w]) == Move(w.node, w.workers[e.w], e.ok)
  {
    hide Move;
  }

  lemma ActKeepsExclusive(w: World, e: Event)
    requires Exclusive(w) && e.Act? && e.w in w.workers
    ensures Exclusive(Next(w, e))
  {
    var x := Next(w, e);
    hide Move, Held, Apart, Next;
    ActPlaces(w, e);
    if Held(w.workers[e.w]).Some? { HeldIsReserved(w, e.w); }
    ActKeepsApart(w, e);
    MoveKeepsExclusive(w.node, w.workers[e.w], e.ok);
    forall tid | tid in x.node.reserved && tid !in x.node.abandoned ensures HeldBySome(x, tid) {
      if Held(x.workers[e.w]) != Some(tid) {
        assert Held(w.workers[e.w]) != Some(tid) && HeldBySome(w, tid);
      }
    }
  }

  lemma StillHeld(w: World, e: Event, tid: Tid)
    requires !e.Act? && HeldBySome(w, tid)
    ensures HeldBySome(Next(w, e), tid)
  {
    var k :| k in w.workers && Held(w.workers[k]) == Some(tid);
    assert k in Next(w, e).workers && Next(w, e).workers[k] == w.workers[k];
  }

  lemma NextKeepsExclusive(w: World, e: Event)
    requires Exclusive(w)
    ensures Exclusive(Next(w, e))
  {
    if e.Act? {
      if e.w in w.workers { ActKeepsExclusive(w, e); }
    } else {
      var x := Next(w, e);
      forall k | k in x.workers && Held(x.workers[k]).Some? ensures k in w.workers && x.workers[k] == w.workers[k] {}
      forall tid | tid in x.node.reserved && tid !in x.node.abandoned ensures HeldBySome(x, tid) {
        StillHeld(w, e, tid);
      }
    }
  }

  ghost predicate Ahead(n: Node, d: Deposit) {
    && (forall j :: 0 <= j < d.i && j < |d.batch| ==> d.batch[j] in n.published)
    && (d.at.Verifying? && d.i < |d.batch| ==> d.batch[d.i] in n.published)
    && (d.at.Committing? && d.i < |d.batch| ==> d.batch[d.i] in n.written)
    && (d.at == Ended(Stored) ==> d.i >= |d.batch|)
  }

  lemma MoveAdvances(n: Node, d: Deposit, ok: bool)
    requires n.stored <= n.published <= n.written && Ahead(n, d)
    ensures var (m, c) := Move(n, d, ok);
            && m.stored <= m.published <= m.written && n.published <= m.published && n.written <= m.written && Ahead(m, c)
  {
  }

  lemma NextAdvances(w: World, e: Event)
    requires Advanced(w)
    ensures Advanced(Next(w, e)) && w.node.published <= Next(w, e).node.published && w.node.written <= Next(w, e).node.written
  {
    if e.Act? && e.w in w.workers {
      assert Ahead(w.node, w.workers[e.w]);
      MoveAdvances(w.node, w.workers[e.w], e.ok);
      hide Move;
    }
  }

  /**
   * Every interleaving: no message is written by two workers, a batch reported
   * stored has been published whole, and a reservation without a writer is one
   * that a failed publication left.
   */
  lemma {:induction false} EveryRun(events: seq<Event>)
    ensures Exclusive(Run(events)) && Advanced(Run(events))
  {
    if events != [] {
      var n := |events| - 1;
      EveryRun(events[..n]);
      NextKeepsExclusive(Run(events[..n]), events[n]);
      NextAdvances(Run(events[..n]), events[n]);
    }
  }

  /** When all deposits have ended, the only reservations left are those of failed publications. */
  lemma NothingStaysReserved(events: seq<Event>)
    requires forall k :: k in Run(events).workers ==> Run(events).workers[k].at.Ended?
    ensures Run(events).node.reserved == Run(events).node.abandoned
  {
    EveryRun(events);
  }

  /** A deposit reported stored had every message written and published, whatever others did meanwhile. */
  lemma StoredMeansPublished(events: seq<Event>, k: Worker)
    requires k in Run(events).workers && Run(events).workers[k].at == Ended(Stored)
    ensures forall tid :: tid in Run(events).workers[k].batch ==> tid in Run(events).node.published && tid in Run(events).node.written
  {
    EveryRun(events);
  }

  /** At event `n` the worker passes message `j`: its stored file proved intact, or its own publication landed. */
  ghost predicate Passes(events: seq<Event>, n: nat, k: Worker, j: nat)
    requires n < |events|
  {
    var w := Run(events[..n]);
    && events[n] == Act(k, true) && k in w.workers && w.workers[k].i == j
    && (w.workers[k].at.Verifying? || w.workers[k].at.Committing?)
  }

  lemma MovePasses(n: Node, d: Deposit, ok: bool)
    ensures var c := Move(n, d, ok).1;
            && c.batch == d.batch
            && (c.i == d.i || (c.i == d.i + 1 && c.i <= |d.batch| && ok && (d.at.Verifying? || d.at.Committing?)))
            && (c.at == Ended(Stored) && d.at != Ended(Stored) ==> c.i == d.i >= |d.batch|)
  {
  }

  /** A worker gets past a message only by a verified copy or a publication of its own. */
  lemma {:induction false} EveryMessageIsPassed(events: seq<Event>, k: Worker, j: nat) returns (n: nat)
    requires k in Run(events).workers && j < Run(events).workers[k].i
    ensures n < |events| && Passes(events, n, k, j)
  {
    hide Move;
    var last := |events| - 1;
    var before := Run(events[..last]);
    if k in before.workers && j < before.workers[k].i {
      n := EveryMessageIsPassed(events[..last], k, j);
      assert events[..last][..n] == events[..n];
    } else {
      n := last;
      if k in before.workers && events[last].Act? && events[last].w == k {
        MovePasses(before.node, before.workers[k], events[last].ok);
      }
    }
  }

  /** Behind a deposit reported stored, the worker itself verified or published every message. */
  lemma StoredMeansPassed(events: seq<Event>, k: Worker, j: nat) returns (n: nat)
    requires k in Run(events).workers && Run(events).workers[k].at == Ended(Stored) && j < |Run(events).workers[k].batch|
    ensures n < |events| && Passes(events, n, k, j)
  {
    EveryRun(events);
    n := EveryMessageIsPassed(events, k, j);
  }

  // ----- What the history says -----

  /** At event `n` a worker at this place, for this message, gets the answer `ok`. */
  ghost predicate Answers(events: seq<Event>, n: nat, at: Place, tid: Tid, ok: bool)
    requires n < |events|
  {
    var w, e := Run(events[..n]), events[n];
    && e.Act? && e.ok == ok && e.w in w.workers && w.workers[e.w].at == at
    && w.workers[e.w].i < |w.workers[e.w].batch| && w.workers[e.w].batch[w.workers[e.w].i] == tid
  }

  ghost predicate Answered(events: seq<Event>, at: Place, tid: Tid, ok: bool) {
    exists n :: 0 <= n < |events| && Answers(events, n, at, tid, ok)
  }

  lemma AnsweredMore(events: seq<Event>, at: Place, tid: Tid, ok: bool)
    requires events != []
    ensures Answered(events, at, tid, ok) <==>
              Answered(events[..|events| - 1], at, tid, ok) || Answers(events, |events| - 1, at, tid, ok)
  {
    hide Run;
    var last := |events| - 1;
    var before := events[..last];
    forall n | 0 <= n < last ensures Answers(before, n, at, tid, ok) <==> Answers(events, n, at, tid, ok) {
      assert before[..n] == events[..n];
    }
  }

  lemma MoveRecords(n: Node, d: Deposit, ok: bool, tid: Tid)
    ensures var m, here := Move(n, d, ok).0, d.i < |d.batch| && d.batch[d.i] == tid;
            && (tid in m.written <==> tid in n.written || (here && d.at == Persisting && ok))
            && (tid in m.published <==> tid in n.published || (here && d.at == Committing && ok))
            && (tid in m.abandoned <==> tid in n.abandoned || (here && d.at == Committing && !ok))
  {
  }

  /**
   * Over every run: a message counts as written exactly if some write of it was
   * durable, as published exactly if some publication landed, and as abandoned
   * exactly if one failed.
   */
  lemma {:induction false} HistoryIs(events: seq<Event>, tid: Tid)
    ensures tid in Run(events).node.written <==> Answered(events, Persisting, tid, true)
    ensures tid in Run(events).node.published <==> Answered(events, Committing, tid, true)
    ensures tid in Run(events).node.abandoned <==> Answered(events, Committing, tid, false)
  {
    hide Move, Answered;
    if events == [] {
      NothingAnswered(tid);
    } else {
      var w, e := Run(events[..|events| - 1]), events[|events| - 1];
      HistoryIs(events[..|events| - 1], tid);
      AnsweredMore(events, Persisting, tid, true);
      AnsweredMore(events, Committing, tid, true);
      AnsweredMore(events, Committing, tid, false);
      if e.Act? && e.w in w.workers { MoveRecords(w.node, w.workers[e.w], e.ok, tid); }
    }
  }

  lemma NothingAnswered(tid: Tid)
    ensures forall at, ok :: !Answered([], at, tid, ok)
  {
  }

  /** A failed write takes the reservation back and ends the deposit as unavailable. */
  lemma FailedWriteEnds(n: Node, d: Deposit, ok: bool)
    requires d.i < |d.batch| && d.at == Persisting
    ensures var (m, c) := Move(n, d, false);
            && m == n && c == d.(at := Aborting)
            && Move(m, c, ok) == (n.(reserved := n.reserved - {d.batch[d.i]}), d.(at := Ended(Unavailable)))
  {
  }

  // ----- A worker that nobody disturbs -----

  /** `steps` moves of one worker, with every answer favourable. */
  function Alone(n: Node, d: Deposit, steps: nat): (Node, Deposit)
    decreases steps
  {
    if steps == 0 then (n, d) else var (m, c) := Move(n, d, true); Alone(m, c, steps - 1)
  }

  lemma {:induction false} AloneMore(n: Node, d: Deposit, first: nat, second: nat)
    ensures Alone(n, d, first + second) == Alone(Alone(n, d, first).0, Alone(n, d, first).1, second)
    decreases first
  {
    if first > 0 {
      var (m, c) := Move(n, d, true);
      AloneMore(m, c, first - 1, second);
    }
  }

  function Tids(batch: seq<Tid>): set<Tid> { set i | 0 <= i < |batch| :: batch[i] }

  /** One message that nobody else is writing is stored in two or three moves. */
  lemma OneMessage(n: Node, d: Deposit) returns (steps: nat)
    requires d.at.Planning? && d.i < |d.batch| && (d.batch[d.i] in n.stored || d.batch[d.i] !in n.reserved)
    ensures var (m, c) := Alone(n, d, steps);
            && c == d.(i := d.i + 1) && m.stored == n.stored + {d.batch[d.i]}
            && m.reserved == n.reserved
  {
    steps := if d.batch[d.i] in n.stored then 2 else 3;
    var (n1, d1) := Move(n, d, true);
    var (n2, d2) := Move(n1, d1, true);
    var (n3, d3) := Move(n2, d2, true);
    assert Alone(n3, d3, 0) == (n3, d3);
    assert Alone(n2, d2, 1) == Alone(n3, d3, 0) && Alone(n2, d2, 0) == (n2, d2);
    assert Alone(n1, d1, 2) == Alone(n2, d2, 1) && Alone(n1, d1, 1) == Alone(n2, d2, 0);
  }

  /**
   * Left alone, a worker does what a deposit does under one lock: it stores the
   * whole batch, unless somebody else already holds one of its messages.
   */
  lemma {:induction false} UndisturbedOutcome(n: Node, d: Deposit) returns (steps: nat)
    requires d.at.Planning? && d.i <= |d.batch|
    ensures var (m, c) := Alone(n, d, steps);
            && c.at == Ended(if Tids(d.batch[d.i..]) !! n.reserved - n.stored then Stored else AwaitOther)
            && m.reserved == n.reserved && n.stored <= m.stored
            && (c.at == Ended(Stored) ==> m.stored == n.stored + Tids(d.batch[d.i..]))
    decreases |d.batch| - d.i
  {
    if d.i == |d.batch| {
      steps := 1;
      assert Alone(n, d, 1) == Alone(Move(n, d, true).0, Move(n, d, true).1, 0);
    } else {
      var tid := d.batch[d.i];
      var rest := d.batch[d.i + 1..];
      assert Tids(d.batch[d.i..]) == Tids(rest) + {tid} by { TidsSplit(d.batch, d.i); }
      if tid !in n.stored && tid in n.reserved {
        steps := 1;
        assert Alone(n, d, 1) == Alone(Move(n, d, true).0, Move(n, d, true).1, 0);
        assert tid in n.reserved - n.stored;
      } else {
        var first := OneMessage(n, d);
        var (m, c) := Alone(n, d, first);
        var more := UndisturbedOutcome(m, c);
        AloneMore(n, d, first, more);
        steps := first + more;
      }
    }
  }

  lemma TidsSplit(batch: seq<Tid>, i: nat)
    requires i < |batch|
    ensures Tids(batch[i..]) == Tids(batch[i + 1..]) + {batch[i]}
  {
    var all, rest := batch[i..], batch[i + 1..];
    assert forall k :: 0 <= k < |rest| ==> rest[k] == all[k + 1];
    forall t | t in Tids(all) ensures t in Tids(rest) + {batch[i]} {
      var k :| 0 <= k < |all| && all[k] == t;
      if k > 0 { assert rest[k - 1] == t; }
    }
  }
}
