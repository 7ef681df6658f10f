/**
 * The relay loop and its storage workers in one run: what a sender is told
 * against what is durably stored.
 */
module Relay {
  import opened Common
  import opened ReadyRing
  import opened Hosted
  import Runs = DepositRuns

  /** `running` says which deposit a worker's job is; `proved` lists the jobs whose senders got a proof. */
  datatype State = State(loop: Loop, deposits: Runs.World, running: map<Job, Runs.Worker>, proved: seq<Job>)

  datatype Step =
    | Outside(h: Happening)                                // anything but the start and the return of a worker
    | Begin(k: Runs.Worker)                                // a worker takes the head of the ring
    | Store(e: Runs.Event)                                 // one step of a worker, or of the node's own purge
    | Refuse(job: Job, outcome: Outcome, serving: bool)    // the batch is not even validated
    | Return(job: Job, serving: bool)                      // a deposit has ended
    | Panic(job: Job)

  const IDLE: State := State(Hosted.FRESH, Runs.FRESH, map[], [])

  /** The worker's return, as the loop handles it. */
  ghost function Returned(s: State, job: Job, outcome: Option<Outcome>, serving: bool): State {
    s.(loop := Next(s.loop, Finishes(job, outcome == Some(AwaitOther))), running := s.running - {job},
       proved := if Reply(job, outcome, s.loop.stopping, serving) == Some(Proved) then s.proved + [job] else s.proved)
  }

  /** `messages` is the validated batch a job carries. */
  ghost function After(s: State, messages: Job -> seq<Runs.Tid>, e: Step): State {
    match e
    case Outside(h) => if h.Starts? || h.Finishes? then s else s.(loop := Next(s.loop, h))
    case Begin(k) =>
      if s.loop.stopping || |s.loop.workers| >= WORKERS || Head(s.loop.ring).None? || k in s.deposits.workers then s
      else
        var job := Head(s.loop.ring).value;
        s.(loop := Next(s.loop, Starts), running := s.running[job := k],
           deposits := Runs.Next(s.deposits, Runs.Event.Begin(k, messages(job))))
    case Store(x) => if x.Begin? then s else s.(deposits := Runs.Next(s.deposits, x))
    case Refuse(job, outcome, serving) =>
      if job !in s.loop.workers || outcome !in {InvalidStamp, Unavailable} then s else Returned(s, job, Some(outcome), serving)
    case Return(job, serving) =>
      if job !in s.loop.workers || job !in s.running || s.running[job] !in s.deposits.workers
         || !s.deposits.workers[s.running[job]].at.Ended? then s
      else Returned(s, job, Some(s.deposits.workers[s.running[job]].at.outcome), serving)
    case Panic(job) => if job !in s.loop.workers then s else Returned(s, job, None, false)
  }

  ghost function Run(messages: Job -> seq<Runs.Tid>, steps: seq<Step>): State {
    if steps == [] then IDLE else After(Run(messages, steps[..|steps| - 1]), messages, steps[|steps| - 1])
  }

  // ----- What holds -----

  /** Every message of the job's batch has been written and then published. */
  ghost predicate Durable(n: Runs.Node, batch: seq<Runs.Tid>) {
    forall tid :: tid in batch ==> tid in n.published && tid in n.written
  }

  /** The deposits that run are those of the loop's workers, each with its own batch. */
  ghost predicate Linked(s: State, messages: Job -> seq<Runs.Tid>) {
    forall j :: j in s.running ==>
      s.running[j] in s.deposits.workers && s.deposits.workers[s.running[j]].batch == messages(j)
  }

  /** Proofs follow durable storage, once for a job, and only for resolved jobs. */
  ghost predicate Honest(s: State, messages: Job -> seq<Runs.Tid>) {
    && (forall i :: 0 <= i < |s.proved| ==> Durable(s.deposits.node, messages(s.proved[i])) && s.proved[i] in s.loop.resolved)
    && (forall i, j :: 0 <= i < j < |s.proved| ==> s.proved[i] != s.proved[j])
    && (forall i :: 0 <= i < |s.proved| ==> s.proved[i].proof)
  }

  ghost predicate Good(s: State, messages: Job -> seq<Runs.Tid>) {
    Sound(s.loop) && Runs.Advanced(s.deposits) && Linked(s, messages) && Honest(s, messages)
  }

  /** A resolved job stays so, and a returned job that need not wait is resolved. */
  lemma ResolvedGrows(s: Loop, h: Happening)
    ensures s.resolved <= Next(s, h).resolved
    ensures h.Finishes? && !h.waits && h.job in s.workers ==> h.job in Next(s, h).resolved
  {
  }

  lemma NodeGrows(w: Runs.World, e: Runs.Event, batch: seq<Runs.Tid>)
    requires Runs.Advanced(w) && Durable(w.node, batch)
    ensures Durable(Runs.Next(w, e).node, batch)
  {
    Runs.NextAdvances(w, e);
  }

  /** A deposit keeps its batch for good. */
  lemma BatchesStay(w: Runs.World, e: Runs.Event, k: Runs.Worker)
    requires k in w.workers
    ensures k in Runs.Next(w, e).workers && Runs.Next(w, e).workers[k].batch == w.workers[k].batch
  {
  }

  lemma EndedIsDurable(w: Runs.World, k: Runs.Worker)
    requires Runs.Advanced(w) && k in w.workers && w.workers[k].at == Runs.Ended(Stored)
    ensures Durable(w.node, w.workers[k].batch)
  {
  }

  lemma DepositStepIsGood(s: State, messages: Job -> seq<Runs.Tid>, e: Runs.Event)
    requires Good(s, messages)
    ensures Good(s.(deposits := Runs.Next(s.deposits, e)), messages)
  {
    var t := s.(deposits := Runs.Next(s.deposits, e));
    hide Sound, Runs.Advanced, Runs.Next, Durable;
    Runs.NextAdvances(s.deposits, e);
    forall j | j in t.running
      ensures t.running[j] in t.deposits.workers && t.deposits.workers[t.running[j]].batch == messages(j)
    {
      BatchesStay(s.deposits, e, s.running[j]);
    }
    forall i | 0 <= i < |s.proved| ensures Durable(t.deposits.node, messages(s.proved[i])) {
      NodeGrows(s.deposits, e, messages(s.proved[i]));
    }
  }

  lemma LoopStepIsGood(s: State, messages: Job -> seq<Runs.Tid>, h: Happening)
    requires Good(s, messages)
    ensures Good(s.(loop := Next(s.loop, h)), messages)
  {
    hide Sound, Runs.Advanced, Durable, Next;
    NextKeeps(s.loop, h);
    ResolvedGrows(s.loop, h);
  }

  lemma WorkingIsUnresolved(s: Loop, job: Job)
    requires Sound(s) && job in s.workers
    ensures job !in s.resolved
  {
  }

  lemma ReturnIsGood(s: State, messages: Job -> seq<Runs.Tid>, job: Job, outcome: Option<Outcome>, serving: bool)
    requires Good(s, messages) && job in s.loop.workers
    requires outcome == Some(Stored) ==> Durable(s.deposits.node, messages(job))
    ensures Good(Returned(s, job, outcome, serving), messages)
  {
    hide Sound, Runs.Advanced, Durable, Next, Honest;
    var h := Finishes(job, outcome == Some(AwaitOther));
    LoopStepIsGood(s, messages, h);
    WorkingIsUnresolved(s.loop, job);
    ResolvedGrows(s.loop, h);
    if Reply(job, outcome, s.loop.stopping, serving) == Some(Proved) {
      OneMoreProof(s, messages, job, Next(s.loop, h));
    }
    HonestElsewhere(s.(loop := Next(s.loop, h)), Returned(s, job, outcome, serving), messages);
  }

  lemma OneMoreProof(s: State, messages: Job -> seq<Runs.Tid>, job: Job, after: Loop)
    requires Honest(s, messages) && job !in s.loop.resolved && job.proof && Durable(s.deposits.node, messages(job))
    requires s.loop.resolved <= after.resolved && job in after.resolved
    ensures Honest(s.(loop := after, proved := s.proved + [job]), messages)
  {
    hide Durable;
  }

  /** Honesty does not depend on which jobs run. */
  lemma HonestElsewhere(s: State, t: State, messages: Job -> seq<Runs.Tid>)
    requires t.loop == s.loop && t.deposits == s.deposits
    ensures t.proved == s.proved && Honest(s, messages) ==> Honest(t, messages)
    ensures Honest(s.(proved := t.proved), messages) ==> Honest(t, messages)
  {
    hide Durable;
  }

  lemma BeginIsGood(s: State, messages: Job -> seq<Runs.Tid>, k: Runs.Worker)
    requires Good(s, messages)
    ensures Good(After(s, messages, Begin(k)), messages)
  {
    hide Sound, Runs.Advanced, Next;
    if After(s, messages, Begin(k)) != s {
      var job := Head(s.loop.ring).value;
      var e := Runs.Event.Begin(k, messages(job));
      LoopStepIsGood(s, messages, Starts);
      DepositStepIsGood(s.(loop := Next(s.loop, Starts)), messages, e);
      assert Runs.Next(s.deposits, e).workers[k].batch == messages(job);
    }
  }

  lemma StepIsGood(s: State, messages: Job -> seq<Runs.Tid>, e: Step)
    requires Good(s, messages)
    ensures Good(After(s, messages, e), messages)
  {
    hide Sound, Runs.Advanced, Honest, Durable;
    match e
    case Outside(h) => LoopStepIsGood(s, messages, h);
    case Begin(k) => BeginIsGood(s, messages, k);
    case Store(x) => DepositStepIsGood(s, messages, x);
    case Refuse(job, outcome, serving) =>
      if job in s.loop.workers && outcome != Stored { ReturnIsGood(s, messages, job, Some(outcome), serving); }
    case Return(job, serving) =>
      if job in s.loop.workers && job in s.running && s.deposits.workers[s.running[job]].at.Ended? {
        var k := s.running[job];
        if s.deposits.workers[k].at.outcome == Stored { EndedIsDurable(s.deposits, k); }
        ReturnIsGood(s, messages, job, Some(s.deposits.workers[k].at.outcome), serving);
      }
    case Panic(job) => if job in s.loop.workers { ReturnIsGood(s, messages, job, None, false); }
  }

  lemma StartsGood(messages: Job -> seq<Runs.Tid>)
    ensures Good(IDLE, messages)
  {
    AfterIsSound([]);
  }

  /**
   * Over every run of the loop and of any number of interleaved deposits: a
   * sender is proved only a job whose every message has been durably written
   * and published by then, and no job is proved twice.
   */
  lemma {:induction false} ProofsFollowStorage(messages: Job -> seq<Runs.Tid>, steps: seq<Step>)
    ensures Good(Run(messages, steps), messages)
  {
    hide Good, After;
    if steps == [] {
      StartsGood(messages);
    } else {
      var n := |steps| - 1;
      ProofsFollowStorage(messages, steps[..n]);
      StepIsGood(Run(messages, steps[..n]), messages, steps[n]);
    }
  }

  lemma ProvedIsDurable(messages: Job -> seq<Runs.Tid>, steps: seq<Step>, i: nat, tid: Runs.Tid)
    requires i < |Run(messages, steps).proved| && tid in messages(Run(messages, steps).proved[i])
    ensures var s := Run(messages, steps);
            && tid in s.deposits.node.written && tid in s.deposits.node.published
            && s.proved[i].proof && forall j :: 0 <= j < |s.proved| && j != i ==> s.proved[j] != s.proved[i]
  {
    hide Run, Sound, Runs.Advanced;
    ProofsFollowStorage(messages, steps);
    var s := Run(messages, steps);
    assert Durable(s.deposits.node, messages(s.proved[i]));
  }
}
