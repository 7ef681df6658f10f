/** The hosted relay loop: queues, four workers, a pending set and admission leases. */
module Hosted {
  import opened Common
  import opened ReadyRing

  const WORKERS := 4
  const RESOURCE_SLOTS := 3

  type Digest = seq<byte>

  /** What a storage worker reports about one deposit. */
  datatype Outcome = Stored | InvalidStamp | Unavailable | AwaitOther

  /** What the sender's receipt is told. */
  datatype Answer = Proved | Rejected | Closed

  // ----- Where a job is -----

  ghost predicate Waiting(r: Ring, j: Job) { j in Queue(r, j.link) }

  ghost predicate NoRepeats(r: Ring) {
    forall l, i, k :: l in r.queues && 0 <= i < k < |r.queues[l]| ==> r.queues[l][i] != r.queues[l][k]
  }

  /** The queues hold exactly these jobs, each once. */
  ghost predicate Holds(r: Ring, waiting: set<Job>) {
    && WellFormed(r) && NoRepeats(r)
    && (forall j {:trigger Waiting(r, j)} :: Waiting(r, j) <==> j in waiting)
  }

  /** Every admitted job waits, works, is pending or is resolved, and is in one place only. */
  ghost predicate Placed(
    waiting: set<Job>, workers: set<Job>, pending: set<Job>, resolved: set<Job>, admitted: set<Job>)
  {
    && admitted == waiting + workers + pending + resolved
    && waiting !! workers && waiting !! pending && waiting !! resolved
    && workers !! pending && workers !! resolved && pending !! resolved
  }

  lemma EnterPlaced(q: set<Job>, w: set<Job>, p: set<Job>, d: set<Job>, a: set<Job>, j: Job)
    requires Placed(q, w, p, d, a) && (j !in a || j in p)
    ensures Placed(q + {j}, w, p - {j}, d, a + {j})
  {
  }

  lemma StartPlaced(q: set<Job>, w: set<Job>, p: set<Job>, d: set<Job>, a: set<Job>, j: Job)
    requires Placed(q, w, p, d, a) && j in q
    ensures Placed(q - {j}, w + {j}, p, d, a) && j !in w
  {
  }

  lemma DonePlaced(q: set<Job>, w: set<Job>, p: set<Job>, d: set<Job>, a: set<Job>, j: Job)
    requires Placed(q, w, p, d, a) && j in w
    ensures Placed(q, w - {j}, p, d + {j}, a) && {j} <= a - d
  {
  }

  lemma WaitPlaced(q: set<Job>, w: set<Job>, p: set<Job>, d: set<Job>, a: set<Job>, j: Job)
    requires Placed(q, w, p, d, a) && j in w
    ensures Placed(q, w - {j}, p + {j}, d, a)
  {
  }

  lemma FailPlaced(q: set<Job>, w: set<Job>, p: set<Job>, d: set<Job>, a: set<Job>, gone: set<Job>)
    requires Placed(q, w, p, d, a) && gone <= p
    ensures Placed(q, w, p - gone, d + gone, a) && gone <= a - d
  {
  }

  lemma ClearPlaced(q: set<Job>, w: set<Job>, p: set<Job>, d: set<Job>, a: set<Job>)
    requires Placed(q, w, p, d, a)
    ensures Placed({}, w, p, d + q, a) && q <= a - d
  {
  }

  lemma PendingIsAdmitted(q: set<Job>, w: set<Job>, p: set<Job>, d: set<Job>, a: set<Job>, j: Job)
    requires Placed(q, w, p, d, a) && j in p
    ensures a + {j} == a
  {
  }

  function QueuedJobs(r: Ring): set<Job> { set l, j | l in r.queues && j in r.queues[l] :: j }

  lemma QueuedAreWaiting(r: Ring, waiting: set<Job>)
    requires Holds(r, waiting)
    ensures QueuedJobs(r) == waiting
  {
    forall j ensures j in QueuedJobs(r) <==> j in waiting {
      if Waiting(r, j) {
        assert j.link in r.queues && j in r.queues[j.link];
      }
    }
  }

  lemma PushHolds(r: Ring, waiting: set<Job>, j: Job)
    requires Holds(r, waiting) && j !in waiting
    ensures Holds(Push(r, j), waiting + {j})
  {
    PushKeeps(r, j);
    assert !Waiting(r, j);
    forall k ensures Waiting(Push(r, j), k) <==> k == j || Waiting(r, k) {
      PushFifo(r, j, k.link);
    }
  }

  lemma PopHolds(r: Ring, waiting: set<Job>)
    requires Holds(r, waiting) && r.ready != []
    ensures Head(r).Some? && Head(r).value in waiting && Holds(Pop(r), waiting - {Head(r).value})
  {
    PopKeeps(r);
    var l := r.ready[0];
    PopFifo(r, l);
    var head := Head(r).value;
    assert Queue(Pop(r), l) == Queue(r, l)[1..];
    assert Queue(r, l) == [head] + Queue(Pop(r), l);
    assert Waiting(r, head);
    forall k ensures Waiting(Pop(r), k) <==> k != head && Waiting(r, k) {
      PopFifo(r, k.link);
    }
  }

  lemma NothingHeld()
    ensures Holds(EMPTY, {})
  {
    forall j ensures !Waiting(EMPTY, j) {}
  }

  // ----- Resource permits -----

  /** Resource deposits whose permit has not been given back. */
  function Leases(jobs: set<Job>): set<Job> { set j | j in jobs && j.resource }

  lemma OneLease(j: Job)
    ensures |Leases({j})| == if j.resource then 1 else 0
  {
    assert Leases({j}) == if j.resource then {j} else {};
  }

  /** No permit is lost and none is given back twice. */
  ghost predicate Leased(owners: map<Link, Digest>, slots: nat, admitted: set<Job>, resolved: set<Job>) {
    slots + |owners| + |Leases(admitted - resolved)| == RESOURCE_SLOTS
  }

  lemma OwnerBecomesJob(owners: map<Link, Digest>, slots: nat, a: set<Job>, d: set<Job>, j: Job)
    requires Leased(owners, slots, a, d) && j.link in owners && j.resource && j !in a && d <= a
    ensures Leased(owners - {j.link}, slots, a + {j}, d)
  {
    assert (owners - {j.link}).Keys == owners.Keys - {j.link};
    assert Leases(a + {j} - d) == Leases(a - d) + {j};
  }

  lemma PacketTakesNoLease(owners: map<Link, Digest>, slots: nat, a: set<Job>, d: set<Job>, j: Job)
    requires Leased(owners, slots, a, d) && !j.resource
    ensures Leased(owners, slots, a + {j}, d)
  {
    assert Leases(a + {j} - d) == Leases(a - d);
  }

  lemma DropReturns(owners: map<Link, Digest>, slots: nat, a: set<Job>, d: set<Job>, gone: set<Job>)
    requires Leased(owners, slots, a, d) && gone <= a - d
    ensures Leased(owners, slots + |Leases(gone)|, a, d + gone)
  {
    assert Leases(a - d) == Leases(a - (d + gone)) + Leases(gone);
    assert Leases(a - (d + gone)) !! Leases(gone);
  }

  lemma OwnersReturn(owners: map<Link, Digest>, slots: nat, a: set<Job>, d: set<Job>, gone: set<Link>)
    requires Leased(owners, slots, a, d) && gone <= owners.Keys
    ensures Leased(owners - gone, slots + |gone|, a, d)
  {
    assert (owners - gone).Keys == owners.Keys - gone;
  }

  // ----- The loop's state, and what each event makes of it -----

  datatype Loop = Loop(
    ring: Ring,
    waiting: set<Job>,
    workers: set<Job>,
    pending: set<Job>,
    stopping: bool,
    owners: map<Link, Digest>,
    slots: nat,
    next: nat,
    admitted: set<Job>,
    resolved: set<Job>,
    log: seq<Event>
  )

  lemma NothingReady()
    ensures WellFormed(EMPTY)
  {
  }

  /** The ring that a log of arrivals and dispatches leads to. */
  ghost function Replay(log: seq<Event>): Ring { Run(EMPTY, log) }

  /** The jobs that left the ring, in order. */
  ghost function Departed(log: seq<Event>): seq<Job> { Dispatched(EMPTY, log) }

  /** Everything but the permits. */
  ghost predicate Orderly(s: Loop) {
    && Holds(s.ring, s.waiting)
    && Placed(s.waiting, s.workers, s.pending, s.resolved, s.admitted)
    && |s.workers| <= WORKERS
    && (forall j :: j in s.admitted ==> j.serial < s.next)
    && s.ring == if s.stopping then EMPTY else Replay(s.log)
  }

  ghost predicate Sound(s: Loop) { Orderly(s) && Leased(s.owners, s.slots, s.admitted, s.resolved) }

  /** A worker takes the head of the ring. */
  ghost function Started(s: Loop): Loop {
    var popped := s.(ring := Pop(s.ring), log := s.log + [Event.Dispatch]);
    match Head(s.ring)
    case None => popped
    case Some(job) => popped.(waiting := s.waiting - {job}, workers := s.workers + {job})
  }

  ghost function StartedMany(s: Loop, n: nat): Loop {
    if n == 0 then s else Started(StartedMany(s, n - 1))
  }

  ghost function Entered(s: Loop, j: Job): Loop {
    s.(ring := Push(s.ring, j), waiting := s.waiting + {j}, pending := s.pending - {j},
       admitted := s.admitted + {j}, log := s.log + [Event.Enqueue(j)])
  }

  ghost function FromPacket(s: Loop, j: Job): Loop { Entered(s.(next := s.next + 1), j) }

  ghost function FromResource(s: Loop, j: Job): Loop {
    Entered(s.(next := s.next + 1, owners := s.owners - {j.link}), j)
  }

  ghost function Dropped(s: Loop, gone: set<Job>): Loop {
    s.(slots := s.slots + |Leases(gone)|, resolved := s.resolved + gone)
  }

  ghost function WorkerDone(s: Loop, j: Job, waits: bool): Loop {
    var left := s.(workers := s.workers - {j});
    if waits && !s.stopping then left.(pending := s.pending + {j}) else Dropped(left, {j})
  }

  ghost function PendingDone(s: Loop, j: Job, again: bool): Loop {
    if again then Entered(s, j) else Dropped(s.(pending := s.pending - {j}), {j})
  }

  /** A link keeps the advertisement it started with, and a new one needs a permit. */
  predicate Admissible(s: Loop, link: Link, original: Digest) {
    if link in s.owners then s.owners[link] == original else s.slots > 0
  }

  ghost function Owned(s: Loop, link: Link, original: Digest): Loop {
    if link in s.owners || s.slots == 0 then s else s.(owners := s.owners[link := original], slots := s.slots - 1)
  }

  ghost function OwnersGone(s: Loop, gone: set<Link>): Loop {
    s.(owners := s.owners - gone, slots := s.slots + |gone|)
  }

  ghost function QueueGone(s: Loop): Loop {
    Dropped(s.(stopping := true, ring := EMPTY, waiting := {}), s.waiting)
  }

  ghost function PendingGone(s: Loop): Loop { Dropped(s.(pending := {}), s.pending) }

  ghost function Stopped(s: Loop, shutdown: bool): Loop {
    var quiet := QueueGone(s);
    if shutdown then PendingGone(OwnersGone(quiet, quiet.owners.Keys)) else quiet
  }

  lemma Extends(log: seq<Event>, e: Event)
    ensures Replay(log + [e]) == Step(Replay(log), e)
    ensures Departed(log + [e]) == Departed(log) + HandedOut(Replay(log), e)
    ensures Enqueued(log + [e]) == Enqueued(log) + TakenIn(e)
  {
    assert (log + [e])[..|log|] == log;
  }

  lemma StartedKeeps(s: Loop)
    requires Sound(s) && !s.stopping && |s.workers| < WORKERS && s.ring.ready != []
    ensures Sound(Started(s)) && |Started(s).workers| == |s.workers| + 1
  {
    PopHolds(s.ring, s.waiting);
    StartPlaced(s.waiting, s.workers, s.pending, s.resolved, s.admitted, Head(s.ring).value);
    Extends(s.log, Event.Dispatch);
  }

  lemma EnteredKeeps(s: Loop, j: Job)
    requires Orderly(s) && !s.stopping && j.serial < s.next && (j !in s.admitted || j in s.pending)
    ensures Orderly(Entered(s, j))
  {
    EnterPlaced(s.waiting, s.workers, s.pending, s.resolved, s.admitted, j);
    PushHolds(s.ring, s.waiting, j);
    Extends(s.log, Event.Enqueue(j));
  }

  lemma FromPacketKeeps(s: Loop, j: Job)
    requires Sound(s) && !s.stopping && j.serial == s.next && !j.resource
    ensures Sound(FromPacket(s, j)) && j !in s.admitted
  {
    EnteredKeeps(s.(next := s.next + 1), j);
    PacketTakesNoLease(s.owners, s.slots, s.admitted, s.resolved, j);
  }

  lemma FromResourceKeeps(s: Loop, j: Job)
    requires Sound(s) && !s.stopping && j.serial == s.next && j.resource && j.link in s.owners
    ensures Sound(FromResource(s, j)) && j !in s.admitted
  {
    EnteredKeeps(s.(next := s.next + 1, owners := s.owners - {j.link}), j);
    OwnerBecomesJob(s.owners, s.slots, s.admitted, s.resolved, j);
  }

  lemma WorkerDoneKeeps(s: Loop, j: Job, waits: bool)
    requires Sound(s) && j in s.workers
    ensures Sound(WorkerDone(s, j, waits))
  {
    if !waits || s.stopping {
      DonePlaced(s.waiting, s.workers, s.pending, s.resolved, s.admitted, j);
      DropReturns(s.owners, s.slots, s.admitted, s.resolved, {j});
    } else {
      WaitPlaced(s.waiting, s.workers, s.pending, s.resolved, s.admitted, j);
    }
  }

  lemma ResumedKeeps(s: Loop, j: Job)
    requires Sound(s) && !s.stopping && j in s.pending
    ensures Sound(Entered(s, j))
  {
    PendingIsAdmitted(s.waiting, s.workers, s.pending, s.resolved, s.admitted, j);
    EnteredKeeps(s, j);
  }

  lemma PendingFailedKeeps(s: Loop, j: Job)
    requires Sound(s) && !s.stopping && j in s.pending
    ensures Sound(PendingDone(s, j, false))
  {
    FailPlaced(s.waiting, s.workers, s.pending, s.resolved, s.admitted, {j});
    DropReturns(s.owners, s.slots, s.admitted, s.resolved, {j});
  }

  lemma PendingDoneKeeps(s: Loop, j: Job, again: bool)
    requires Sound(s) && !s.stopping && j in s.pending
    ensures Sound(PendingDone(s, j, again))
  {
    if again { ResumedKeeps(s, j); } else { PendingFailedKeeps(s, j); }
  }

  lemma OwnersGoneKeeps(s: Loop, gone: set<Link>)
    requires Sound(s) && gone <= s.owners.Keys
    ensures Sound(OwnersGone(s, gone))
  {
    OwnersReturn(s.owners, s.slots, s.admitted, s.resolved, gone);
  }

  lemma QueueGoneKeeps(s: Loop)
    requires Sound(s) && !s.stopping
    ensures Sound(QueueGone(s)) && QueuedJobs(s.ring) == s.waiting
  {
    QueuedAreWaiting(s.ring, s.waiting);
    NothingHeld();
    ClearPlaced(s.waiting, s.workers, s.pending, s.resolved, s.admitted);
    DropReturns(s.owners, s.slots, s.admitted, s.resolved, s.waiting);
  }

  lemma PendingGoneKeeps(s: Loop)
    requires Sound(s) && s.stopping
    ensures Sound(PendingGone(s))
  {
    FailPlaced(s.waiting, s.workers, s.pending, s.resolved, s.admitted, s.pending);
    assert s.pending - s.pending == {};
    DropReturns(s.owners, s.slots, s.admitted, s.resolved, s.pending);
  }

  lemma StoppedKeeps(s: Loop, shutdown: bool)
    requires Sound(s) && !s.stopping
    ensures Sound(Stopped(s, shutdown))
  {
    QueueGoneKeeps(s);
    var quiet := QueueGone(s);
    if shutdown {
      OwnersGoneKeeps(quiet, quiet.owners.Keys);
      PendingGoneKeeps(OwnersGone(quiet, quiet.owners.Keys));
    }
  }

  /** Nothing is left behind: with no worker and nothing pending, a stopped loop has resolved every job. */
  lemma AllResolved(s: Loop)
    requires Sound(s) && s.stopping && s.workers == {} && s.pending == {}
    ensures s.resolved == s.admitted && s.slots + |s.owners| == RESOURCE_SLOTS
  {
    forall j ensures j !in s.waiting {
      assert !Waiting(EMPTY, j);
    }
    assert s.resolved == s.admitted;
    assert Leases(s.admitted - s.resolved) == {};
  }

  /** Each link's jobs leave the ring in the order in which they entered it. */
  lemma DepartInOrder(log: seq<Event>, link: Link)
    ensures Of(Departed(log), link) + Queue(Replay(log), link) == Of(Enqueued(log), link)
  {
    hide WellFormed, Run, Dispatched, Of, Enqueued;
    NothingReady();
    FifoPerLink(EMPTY, log, link);
    assert Queue(EMPTY, link) == [];
    assert [] + Of(Enqueued(log), link) == Of(Enqueued(log), link);
  }

  lemma OwnedKeeps(s: Loop, link: Link, original: Digest)
    requires Sound(s)
    ensures Sound(Owned(s, link, original))
  {
    assert s.owners[link := original].Keys == s.owners.Keys + {link};
  }

  // ----- Runs -----

  datatype Happening =
    | Arrives(link: Link, proof: bool)
    | Accepts(link: Link, original: Digest)
    | Completes(link: Link)
    | Closes(link: Link)
    | Starts
    | Finishes(job: Job, waits: bool)
    | Resumes(job: Job, again: bool)
    | Stops(shutdown: bool)

  ghost function Next(s: Loop, h: Happening): Loop {
    match h
    case Arrives(link, proof) => if s.stopping then s else FromPacket(s, Job(s.next, link, proof, false))
    case Accepts(link, original) => Owned(s, link, original)
    case Completes(link) =>
      if s.stopping || link !in s.owners then s else FromResource(s, Job(s.next, link, false, true))
    case Closes(link) => if link in s.owners then OwnersGone(s, {link}) else s
    case Starts => if s.stopping || |s.workers| >= WORKERS || s.ring.ready == [] then s else Started(s)
    case Finishes(job, waits) => if job in s.workers then WorkerDone(s, job, waits) else s
    case Resumes(job, again) => if s.stopping || job !in s.pending then s else PendingDone(s, job, again)
    case Stops(shutdown) => if s.stopping then s else Stopped(s, shutdown)
  }

  /** What the sender is told when a worker returns its job, or panics (`None`). */
  function Reply(job: Job, outcome: Option<Outcome>, stopping: bool, serving: bool): Option<Answer> {
    if outcome.None? || outcome.value == AwaitOther || stopping || !serving || !job.proof then None
    else Some(match outcome.value
              case Stored => Proved
              case InvalidStamp => Rejected
              case _ => Closed)
  }

  const FRESH: Loop := Loop(EMPTY, {}, {}, {}, false, map[], RESOURCE_SLOTS, 0, {}, {}, [])

  lemma NextKeeps(s: Loop, h: Happening)
    requires Sound(s)
    ensures Sound(Next(s, h))
  {
    hide Sound, Orderly;
    match h
    case Arrives(link, proof) => if !s.stopping { FromPacketKeeps(s, Job(s.next, link, proof, false)); }
    case Accepts(link, original) => OwnedKeeps(s, link, original);
    case Completes(link) =>
      if !s.stopping && link in s.owners { FromResourceKeeps(s, Job(s.next, link, false, true)); }
    case Closes(link) => if link in s.owners { OwnersGoneKeeps(s, {link}); }
    case Starts => if !s.stopping && |s.workers| < WORKERS && s.ring.ready != [] { StartedKeeps(s); }
    case Finishes(job, waits) => if job in s.workers { WorkerDoneKeeps(s, job, waits); }
    case Resumes(job, again) => if !s.stopping && job in s.pending { PendingDoneKeeps(s, job, again); }
    case Stops(shutdown) => if !s.stopping { StoppedKeeps(s, shutdown); }
  }

  ghost function After(happenings: seq<Happening>): Loop {
    if happenings == [] then FRESH else Next(After(happenings[..|happenings| - 1]), happenings[|happenings| - 1])
  }

  lemma {:induction false} AfterIsSound(happenings: seq<Happening>)
    ensures Sound(After(happenings))
  {
    if happenings == [] {
      NothingHeld();
      assert Leases({}) == {};
    } else {
      hide Sound;
      AfterIsSound(happenings[..|happenings| - 1]);
      NextKeeps(After(happenings[..|happenings| - 1]), happenings[|happenings| - 1]);
    }
  }

  /**
   * Every run: at most four workers; every job ever admitted is in exactly one
   * place; no permit is lost; and every link's jobs have started in the order in
   * which they were queued.
   */
  lemma EveryRun(happenings: seq<Happening>, link: Link)
    ensures var s := After(happenings);
            && |s.workers| <= WORKERS
            && Placed(s.waiting, s.workers, s.pending, s.resolved, s.admitted)
            && (forall j {:trigger Waiting(s.ring, j)} :: Waiting(s.ring, j) <==> j in s.waiting)
            && s.slots + |s.owners| + |Leases(s.admitted - s.resolved)| == RESOURCE_SLOTS
            && Of(Departed(s.log), link) <= Of(Enqueued(s.log), link)
  {
    AfterIsSound(happenings);
    DepartInOrder(After(happenings).log, link);
  }

  // ----- Where an event takes a job -----

  /** The job whose turn it is. */
  ghost predicate Foremost(r: Ring, j: Job) { r.ready != [] && Queue(r, r.ready[0]) != [] && Queue(r, r.ready[0])[0] == j }

  /** The event is a stop, and the first one. */
  predicate StopsNow(s: Loop, h: Happening) { h.Stops? && !s.stopping }

  /**
   * A job is resolved only by a worker that need not wait, by a failed wait, or
   * by a stop; one whose worker must wait for another is not.
   */
  lemma ResolvedIff(s: Loop, h: Happening, j: Job)
    requires Sound(s)
    ensures j in Next(s, h).resolved <==>
              || j in s.resolved
              || (h.Finishes? && h.job == j && j in s.workers && (!h.waits || s.stopping))
              || (h.Resumes? && h.job == j && j in s.pending && !s.stopping && !h.again)
              || (StopsNow(s, h) && (j in s.waiting || (h.shutdown && j in s.pending)))
  {
    hide Sound, Leases;
  }

  lemma PendingIsOld(s: Loop, j: Job)
    requires Sound(s) && j in s.pending
    ensures j.serial < s.next && j !in s.resolved && WellFormed(s.ring)
  {
    assert j in s.admitted;
  }

  /** A job waits for another writer from its worker's return until the wait ends or the host is shut down. */
  lemma PendingIff(s: Loop, h: Happening, j: Job)
    requires Sound(s)
    ensures j in Next(s, h).pending <==>
              || (h.Finishes? && h.job == j && j in s.workers && h.waits && !s.stopping)
              || (j in s.pending && !(h.Resumes? && h.job == j && !s.stopping) && !(StopsNow(s, h) && h.shutdown))
  {
    hide Sound, Leases, Push, Pop, Head;
    if j in s.pending { PendingIsOld(s, j); }
  }

  lemma WorkersIff(s: Loop, h: Happening, j: Job)
    ensures j in Next(s, h).workers <==>
              || (h.Starts? && !s.stopping && |s.workers| < 4 && Foremost(s.ring, j))
              || (j in s.workers && !(h.Finishes? && h.job == j))
  {
    hide Leases, Push, Pop;
  }

  /** The queue of a link grows only at its back and shrinks only at its front, or is dropped by a stop. */
  lemma QueueAfter(s: Loop, h: Happening, l: Link)
    requires Sound(s)
    ensures Queue(Next(s, h).ring, l) ==
            if StopsNow(s, h) then []
            else if s.stopping then Queue(s.ring, l)
            else if h.Arrives? && h.link == l then Queue(s.ring, l) + [Job(s.next, l, h.proof, false)]
            else if h.Completes? && h.link == l && l in s.owners then Queue(s.ring, l) + [Job(s.next, l, false, true)]
            else if h.Resumes? && h.again && h.job in s.pending && h.job.link == l then Queue(s.ring, l) + [h.job]
            else if h.Starts? && |s.workers| < 4 && s.ring.ready != [] && s.ring.ready[0] == l then Queue(s.ring, l)[1..]
            else Queue(s.ring, l)
  {
    hide Leases, Placed, Leased, Replay;
    if h.Starts? && s.ring.ready != [] {
      PopHolds(s.ring, s.waiting);
      PopFifo(s.ring, l);
      if s.ring.ready[0] == l {
        assert Queue(s.ring, l)[0] == Head(s.ring).value;
        assert Queue(s.ring, l)[1..] == Queue(Pop(s.ring), l);
      }
    }
  }

  /** What an event does to the permits of the transfers. */
  lemma OwnersAfter(s: Loop, h: Happening)
    ensures Next(s, h).owners ==
            if h.Accepts? && h.link !in s.owners && s.slots > 0 then s.owners[h.link := h.original]
            else if h.Completes? && !s.stopping then s.owners - {h.link}
            else if h.Closes? then s.owners - {h.link}
            else if StopsNow(s, h) && h.shutdown then map[]
            else s.owners
  {
  }

  /** A job that must wait stays pending until its wait ends or the host is shut down. */
  lemma {:induction false} StaysPending(happenings: seq<Happening>, i: nat, k: nat, j: Job)
    requires i <= k <= |happenings| && j in After(happenings[..i]).pending
    requires forall n :: i <= n < k ==> !(happenings[n].Resumes? && happenings[n].job == j)
    requires forall n :: i <= n < k ==> !(happenings[n].Stops? && happenings[n].shutdown)
    ensures j in After(happenings[..k]).pending
    decreases k
  {
    hide *;
    if i < k {
      StaysPending(happenings, i, k - 1, j);
      var s := After(happenings[..k - 1]);
      AfterIsSound(happenings[..k - 1]);
      AfterOneMore(happenings, k - 1);
      StopsByEvent(s, happenings[k - 1]);
      PendingIff(s, happenings[k - 1], j);
    }
  }

  lemma AfterOneMore(happenings: seq<Happening>, k: nat)
    requires k < |happenings|
    ensures After(happenings[..k + 1]) == Next(After(happenings[..k]), happenings[k])
  {
    hide Next;
    assert happenings[..k + 1][..k] == happenings[..k];
  }

  lemma StopsByEvent(s: Loop, h: Happening)
    ensures StopsNow(s, h) ==> h.Stops?
  {
  }

  /** Behind every resolved job of a run stands an event that may resolve it. */
  lemma {:induction false} WhyResolved(happenings: seq<Happening>, j: Job) returns (n: nat)
    requires j in After(happenings).resolved
    ensures n < |happenings|
    ensures var s, h := After(happenings[..n]), happenings[n];
            || (h.Finishes? && h.job == j && (!h.waits || s.stopping))
            || (h.Resumes? && h.job == j && !h.again)
            || StopsNow(s, h)
  {
    if happenings != [] {
      n := |happenings| - 1;
      var before := happenings[..n];
      if j in After(before).resolved {
        n := WhyResolved(before, j);
        assert before[..n] == happenings[..n];
      } else {
        AfterIsSound(before);
        hide Sound, Next;
        ResolvedIff(After(before), happenings[n], j);
      }
    }
  }

  /** Once its wait has ended well, it stands at the back of its own link's queue. */
  lemma ResumesAtBack(s: Loop, j: Job)
    requires Sound(s) && !s.stopping && j in s.pending
    ensures var t := Next(s, Resumes(j, true));
            && Queue(t.ring, j.link) == Queue(s.ring, j.link) + [j] && j.link in t.ring.ready
            && j !in t.pending && j !in t.resolved && t.slots == s.slots
            && forall l :: l != j.link ==> Queue(t.ring, l) == Queue(s.ring, l)
  {
    hide Sound, Leases, Replay;
    PendingIsOld(s, j);
    PushKeeps(s.ring, j);
  }

  // ----- The loop -----

  /** What dispatching needs: nobody works on a job that still waits. */
  ghost predicate Dispatchable(s: Loop) { Holds(s.ring, s.waiting) && s.waiting !! s.workers }

  /** Mid-way through a round of dispatching. */
  ghost predicate InRound(before: Loop, started: nat, now: Loop) {
    && now == StartedMany(before, started) && Dispatchable(now)
    && |now.workers| == |before.workers| + started && now.stopping == before.stopping
    && (now.stopping ==> started == 0)
  }

  lemma RoundBegins(s: Loop)
    requires Dispatchable(s)
    ensures InRound(s, 0, s)
  {
  }

  lemma RoundContinues(before: Loop, started: nat, now: Loop)
    requires InRound(before, started, now)
    requires !now.stopping && |now.workers| < WORKERS && now.ring.ready != []
    ensures InRound(before, started + 1, Started(now))
  {
    PopHolds(now.ring, now.waiting);
  }

  class Host {
    var queues: map<Link, seq<Job>>
    var ready: seq<Link>
    var workers: set<Job>
    var pending: set<Job>
    var stopping: bool
    var owners: map<Link, Digest>
    /** Permits of the resource semaphore not held by this host. */
    var slots: nat
    var next: nat
    /** The jobs in `queues`. */
    ghost var waiting: set<Job>
    ghost var admitted: set<Job>
    ghost var resolved: set<Job>
    /** Everything that entered or left the ring so far. */
    ghost var log: seq<Event>

    ghost function State(): Loop
      reads this
    {
      Loop(Ring(queues, ready), waiting, workers, pending, stopping, owners, slots, next, admitted, resolved, log)
    }

    constructor ()
      ensures State() == FRESH
    {
      queues, ready, workers, pending, stopping := map[], [], {}, {}, false;
      owners, slots, next := map[], RESOURCE_SLOTS, 0;
      waiting, admitted, resolved, log := {}, {}, {}, [];
    }

    /** The accept handler; hosting may be off, the advertisement too large, or the last permit contended. */
    method Accept(link: Link, original: Digest, hosting: bool, fits: bool, contended: bool) returns (taken: bool)
      modifies this`owners, this`slots
      ensures taken ==> hosting && fits && Admissible(old(State()), link, original)
      ensures hosting && fits && !contended && Admissible(old(State()), link, original) ==> taken
      ensures State() == if taken then Owned(old(State()), link, original) else old(State())
      ensures taken ==> link in owners && owners[link] == original
      ensures taken ==> hosting && fits && slots == old(slots) - if link in old(owners) then 0 else 1
      ensures !taken ==> owners == old(owners) && slots == old(slots)
      ensures hosting && fits && !contended ==>
                (taken <==> if link in old(owners) then old(owners)[link] == original else old(slots) > 0)
    {
      if !hosting || !fits {
        return false;
      }
      if link in owners {
        return owners[link] == original;
      }
      if contended || slots == 0 {
        return false;
      }
      owners, slots := owners[link := original], slots - 1;
      return true;
    }

    /**
     * Fills free workers from the ring. `permits` is how many worker permits the
     * semaphore still has to give; an earlier host's workers may hold the others.
     */
    method Dispatch(permits: nat) returns (started: nat)
      requires Dispatchable(State())
      modifies this`queues, this`ready, this`waiting, this`workers, this`log
      ensures InRound(old(State()), started, State())
      ensures started <= permits
      ensures stopping || started == permits || |workers| >= WORKERS || ready == []
    {
      hide *;
      started := 0;
      ghost var before := State();
      RoundBegins(before);
      var more := true;
      while more
        invariant InRound(before, started, State()) && started <= permits
        invariant more || stopping || started == permits || |workers| >= WORKERS || ready == []
        decreases more, permits - started
      {
        more := StartOne(before, started, permits);
        if more {
          started := started + 1;
        }
      }
    }

    method StartOne(ghost before: Loop, started: nat, permits: nat) returns (more: bool)
      requires InRound(before, started, State()) && started <= permits
      modifies this`queues, this`ready, this`waiting, this`workers, this`log
      ensures more ==> InRound(before, started + 1, State()) && started < permits
      ensures !more ==> State() == old(State()) && (stopping || started == permits || |workers| >= WORKERS || ready == [])
    {
      if stopping || |workers| >= WORKERS || started == permits || ready == [] {
        return false;
      }
      RoundContinues(before, started, State());
      StartNext();
      return true;
    }

    /** Pops the ring; a link that no longer has a queue, or has an empty one, is passed over. */
    method StartNext()
      requires ready != []
      modifies this`queues, this`ready, this`waiting, this`workers, this`log
      ensures State() == Started(old(State()))
      ensures var link := old(ready)[0];
              if link in old(queues) && old(queues)[link] != [] then
                && workers == old(workers) + {old(queues)[link][0]}
                && (if |old(queues)[link]| == 1 then queues == old(queues) - {link} && ready == old(ready)[1..]
                    else queues == old(queues)[link := old(queues)[link][1..]] && ready == old(ready)[1..] + [link])
              else workers == old(workers) && queues == old(queues) && ready == old(ready)[1..]
    {
      var link := ready[0];
      var queue := if link in queues then queues[link] else [];
      ready := ready[1..];
      log := log + [Event.Dispatch];
      if queue != [] {
        var job, rest := queue[0], queue[1..];
        if rest == [] {
          queues := queues - {link};
        } else {
          queues, ready := queues[link := rest], ready + [link];
        }
        workers := workers + {job};
        waiting := waiting - {job};
      }
    }

    method Enqueue(job: Job)
      modifies this`queues, this`ready, this`waiting, this`pending, this`admitted, this`log
      ensures State() == Entered(old(State()), job)
      ensures queues == old(queues)[job.link := old(if job.link in queues then queues[job.link] else []) + [job]]
      ensures ready == old(ready) + if job.link in old(queues) && old(queues)[job.link] != [] then [] else [job.link]
    {
      var queue := if job.link in queues then queues[job.link] else [];
      if queue == [] {
        ready := ready + [job.link];
      }
      queues := queues[job.link := queue + [job]];
      pending := pending - {job};
      waiting, admitted := waiting + {job}, admitted + {job};
      log := log + [Event.Enqueue(job)];
    }

    /** A link packet carries its own receipt. */
    method Packet(link: Link, proof: bool)
      requires !stopping
      modifies this
      ensures State() == Next(old(State()), Arrives(link, proof))
      ensures link in queues && queues[link] == old(if link in queues then queues[link] else []) + [Job(old(next), link, proof, false)]
    {
      var job := Job(next, link, proof, false);
      next := next + 1;
      Enqueue(job);
    }

    /** A completed transfer takes its owner's permit along; one without an owner is ignored. */
    method ResourceCompleted(link: Link)
      requires !stopping
      modifies this
      ensures State() == Next(old(State()), Completes(link))
      ensures owners == old(owners) - {link} && slots == old(slots)
      ensures link in old(owners) ==>
                link in queues && queues[link] == old(if link in queues then queues[link] else []) + [Job(old(next), link, false, true)]
      ensures link !in old(owners) ==> queues == old(queues) && ready == old(ready) && next == old(next)
    {
      if link in owners {
        var job := Job(next, link, false, true);
        next, owners := next + 1, owners - {link};
        Enqueue(job);
      }
    }

    /** A link that closes, or a transfer that fails, gives its owner's permit back. */
    method LinkClosed(link: Link)
      modifies this`owners, this`slots
      ensures State() == Next(old(State()), Closes(link))
      ensures owners == old(owners) - {link} && slots == old(slots) + if link in old(owners) then 1 else 0
    {
      if link in owners {
        owners, slots := owners - {link}, slots + 1;
      }
    }

    /** Dropping a job returns its lease. */
    method Resolve(gone: set<Job>)
      modifies this`slots, this`resolved
      ensures State() == Dropped(old(State()), gone)
    {
      slots := slots + |Leases(gone)|;
      resolved := resolved + gone;
    }

    /**
     * A worker returns its job, or panics (`None`). Only a stored deposit is ever
     * proved, and only while the host still serves; a job that must wait for
     * another writer of the same message becomes pending.
     */
    method FinishWorker(job: Job, outcome: Option<Outcome>, serving: bool) returns (answer: Option<Answer>)
      requires job in workers
      modifies this`workers, this`pending, this`slots, this`resolved
      ensures State() == WorkerDone(old(State()), job, outcome == Some(AwaitOther))
      ensures workers == old(workers) - {job}
      ensures outcome == Some(AwaitOther) && !stopping ==>
                pending == old(pending) + {job} && resolved == old(resolved) && slots == old(slots)
      ensures outcome != Some(AwaitOther) || stopping ==>
                && pending == old(pending) && resolved == old(resolved) + {job}
                && slots == old(slots) + if job.resource then 1 else 0
      ensures answer == Reply(job, outcome, stopping, serving)
      ensures answer.Some? <==> job.proof && serving && !stopping && outcome.Some? && outcome.value != AwaitOther
      ensures answer.Some? ==> (answer.value == Proved <==> outcome == Some(Stored))
      ensures answer.Some? ==> (answer.value == Rejected <==> outcome == Some(InvalidStamp))
    {
      workers := workers - {job};
      OneLease(job);
      if outcome == Some(AwaitOther) && !stopping {
        pending := pending + {job};
        return None;
      }
      Resolve({job});
      if outcome.None? || outcome.value == AwaitOther || stopping || !serving || !job.proof {
        return None;
      }
      match outcome.value
      case Stored => return Some(Proved);
      case InvalidStamp => return Some(Rejected);
      case _ => return Some(Closed);
    }

    /** The other writer committed, failed, or its waiter was lost (`None`). */
    method FinishPending(job: Job, committed: Option<bool>) returns (answer: Option<Answer>)
      requires job in pending && !stopping
      modifies this
      ensures State() == PendingDone(old(State()), job, committed == Some(true))
      ensures pending == old(pending) - {job}
      ensures committed == Some(true) ==>
                && job.link in queues && queues[job.link] == old(if job.link in queues then queues[job.link] else []) + [job]
                && resolved == old(resolved) && slots == old(slots)
      ensures committed != Some(true) ==>
                && queues == old(queues) && ready == old(ready) && resolved == old(resolved) + {job}
                && slots == old(slots) + if job.resource then 1 else 0
      ensures answer == if committed == Some(false) && job.proof then Some(Closed) else None
    {
      answer := None;
      OneLease(job);
      if committed == Some(true) {
        Enqueue(job);
      } else {
        pending := pending - {job};
        Resolve({job});
        if committed == Some(false) && job.proof {
          answer := Some(Closed);
        }
      }
    }

    /** Shutdown drops what waits, what is pending and every owner; a closed channel only drops what waits. */
    method Stop(shutdown: bool)
      requires Holds(State().ring, waiting) && !stopping
      modifies this
      ensures State() == Stopped(old(State()), shutdown)
      ensures stopping && queues == map[] && ready == [] && workers == old(workers)
      ensures shutdown ==> pending == {} && owners == map[] && resolved == old(resolved) + old(waiting) + old(pending)
      ensures !shutdown ==> pending == old(pending) && owners == old(owners) && resolved == old(resolved) + old(waiting)
    {
      ClearQueues();
      if shutdown {
        slots, owners := slots + |owners.Keys|, owners - owners.Keys;
        AbortPending();
      }
    }

    method ClearQueues()
      requires Holds(State().ring, waiting)
      modifies this
      ensures State() == QueueGone(old(State()))
    {
      QueuedAreWaiting(State().ring, waiting);
      var dropped := QueuedJobs(Ring(queues, ready));
      stopping, queues, ready := true, map[], [];
      waiting := {};
      Resolve(dropped);
    }

    method AbortPending()
      modifies this`pending, this`slots, this`resolved
      ensures State() == PendingGone(old(State()))
    {
      var dropped := pending;
      pending := {};
      Resolve(dropped);
    }

    /** The loop ends once stopped workers have returned: every job has been resolved. */
    method Leave()
      requires Sound(State()) && stopping && workers == {}
      modifies this`pending, this`slots, this`resolved
      ensures State() == PendingGone(old(State()))
      ensures resolved == admitted && slots + |owners| == RESOURCE_SLOTS
    {
      PendingGoneKeeps(State());
      AllResolved(PendingGone(State()));
      AbortPending();
    }
  }
}
