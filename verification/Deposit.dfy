/** Storing one deposit: the whole batch is validated before anything is reserved or published. */
module Deposit {
  import opened Common
  import opened Hosted

  type Tid = seq<byte>

  /** One message of a batch: its transient id, and whether its stamp meets the node's cost. */
  datatype Entry = Entry(tid: Tid, stamped: bool)

  /** The environment's answers for one message: room in the node, an intact stored file, a durable write, a publication. */
  datatype Answers = Answers(room: bool, intact: bool, written: bool, published: bool)

  datatype Plan = Reserved | CommittedDuplicate | Pending | Rejected

  function Tids(entries: seq<Entry>): set<Tid> { set i | 0 <= i < |entries| :: entries[i].tid }

  /** The propagation node as its callers see it. */
  class Node {
    var durable: bool
    var stored: set<Tid>
    var reserved: set<Tid>

    constructor (durable: bool)
      ensures this.durable == durable && stored == {} && reserved == {}
    {
      this.durable, stored, reserved := durable, {}, {};
    }

    /** Admission: a stored message is a duplicate, a reserved one is being written by somebody else. */
    method PlanAdmission(tid: Tid, room: bool) returns (plan: Plan)
      modifies this`reserved
      ensures plan == if tid in stored then CommittedDuplicate else if tid in old(reserved) then Pending
                      else if room then Reserved else Plan.Rejected
      ensures reserved == if plan == Reserved then old(reserved) + {tid} else old(reserved)
    {
      if tid in stored {
        return CommittedDuplicate;
      }
      if tid in reserved {
        return Pending;
      }
      if !room {
        return Plan.Rejected;
      }
      reserved := reserved + {tid};
      return Reserved;
    }

    /** Publishing a written file; without it the message stays unpublished and its reservation in the node's hands. */
    method CommitStoreWrite(tid: Tid, published: bool)
      requires tid in reserved
      modifies this`stored, this`reserved
      ensures stored == if published then old(stored) + {tid} else old(stored)
      ensures reserved == if published then old(reserved) - {tid} else old(reserved)
    {
      if published {
        stored, reserved := stored + {tid}, reserved - {tid};
      }
    }

    method AbortStoreWrite(tid: Tid)
      modifies this`reserved
      ensures reserved == old(reserved) - {tid}
    {
      reserved := reserved - {tid};
    }
  }

  /**
   * One message: plan, write, publish. `None` means it is stored and the batch
   * goes on; a stored copy counts only once its file has been verified.
   */
  method StoreOne(node: Node, tid: Tid, a: Answers) returns (stop: Option<Outcome>)
    modifies node
    ensures stop == if tid in old(node.stored) then (if a.intact then None else Some(Unavailable))
                    else if tid in old(node.reserved) then Some(AwaitOther)
                    else if a.room && a.written && a.published then None else Some(Unavailable)
    ensures node.durable == old(node.durable)
    ensures node.stored == if stop.None? then old(node.stored) + {tid} else old(node.stored)
    ensures node.reserved == old(node.reserved) + if tid !in old(node.stored) && a.room && a.written && !a.published then {tid} else {}
  {
    var plan := node.PlanAdmission(tid, a.room);
    match plan {
      case CommittedDuplicate => return if a.intact then None else Some(Unavailable);
      case Pending => return Some(AwaitOther);
      case Rejected => return Some(Unavailable);
      case Reserved =>
        if !a.written {
          node.AbortStoreWrite(tid);
          return Some(Unavailable);
        }
        node.CommitStoreWrite(tid, a.published);
        return if a.published then None else Some(Unavailable);
    }
  }

  /** Message `k` came to be stored: its stored copy was intact, or it was admitted, written and published. */
  ghost predicate Got(stored: set<Tid>, entries: seq<Entry>, answers: nat -> Answers, k: nat)
    requires k < |entries|
  {
    var a := answers(k);
    if entries[k].tid in stored + Tids(entries[..k]) then a.intact else a.room && a.written && a.published
  }

  /** Somebody else is writing message `k`. */
  ghost predicate Taken(stored: set<Tid>, reserved: set<Tid>, entries: seq<Entry>, k: nat)
    requires k < |entries|
  {
    entries[k].tid in reserved && entries[k].tid !in stored + Tids(entries[..k])
  }

  /**
   * A deposit (`None` when its wrapper cannot be unpacked) is reported stored
   * exactly when every message in it is verified or written and published; one
   * bad stamp leaves the node untouched; and what is stored is a prefix of the batch.
   */
  method Execute(node: Node, batch: Option<seq<Entry>>, answers: nat -> Answers) returns (outcome: Outcome, ghost published: nat)
    modifies node
    ensures !old(node.durable) || batch.None? ==> outcome == Unavailable
    ensures outcome == InvalidStamp <==> old(node.durable) && batch.Some? && exists e :: e in batch.value && !e.stamped
    ensures outcome == InvalidStamp || !old(node.durable) || batch.None? ==>
              node.stored == old(node.stored) && node.reserved == old(node.reserved) && published == 0
    ensures outcome == Stored ==> batch.Some? && published == |batch.value|
    ensures batch.Some? ==> published <= |batch.value| && node.stored == old(node.stored) + Tids(batch.value[..published])
    ensures batch.Some? ==> forall k :: 0 <= k < published ==>
              Got(old(node.stored), batch.value, answers, k) && !Taken(old(node.stored), old(node.reserved), batch.value, k)
    ensures old(node.durable) && batch.Some? && published < |batch.value| && outcome != InvalidStamp ==>
              if Taken(old(node.stored), old(node.reserved), batch.value, published) then outcome == AwaitOther
              else outcome == Unavailable && !Got(old(node.stored), batch.value, answers, published)
    ensures node.reserved == old(node.reserved) || (
              && outcome == Unavailable && batch.Some? && published < |batch.value|
              && node.reserved == old(node.reserved) + {batch.value[published].tid}
              && answers(published).room && answers(published).written && !answers(published).published)
    ensures old(node.durable) && batch.Some? && (forall e :: e in batch.value ==> e.stamped)
              && (forall k: nat :: answers(k) == Answers(true, true, true, true)) ==>
              outcome == if Tids(batch.value) !! old(node.reserved - node.stored) then Stored else AwaitOther
    ensures outcome == AwaitOther ==> batch.Some? && published < |batch.value|
  {
    published := 0;
    if !node.durable {
      return Unavailable, 0;
    }
    if batch.None? {
      return Unavailable, 0;
    }
    var entries := batch.value;
    var i := 0;
    while i < |entries|
      invariant 0 <= i <= |entries| && forall k :: 0 <= k < i ==> entries[k].stamped
    {
      if !entries[i].stamped {
        assert entries[i] in entries;
        return InvalidStamp, 0;
      }
      i := i + 1;
    }
    i := 0;
    while i < |entries|
      invariant 0 <= i <= |entries| && node.stored == old(node.stored) + Tids(entries[..i])
      invariant node.reserved == old(node.reserved) && node.durable == old(node.durable)
      invariant Tids(entries[..i]) !! old(node.reserved - node.stored)
      invariant forall k :: 0 <= k < i ==>
                  Got(old(node.stored), entries, answers, k) && !Taken(old(node.stored), old(node.reserved), entries, k)
    {
      TidsAppend(entries, i);
      assert entries[i].tid in Tids(entries);
      var stop := StoreOne(node, entries[i].tid, answers(i));
      if stop.Some? {
        return stop.value, i;
      }
      i := i + 1;
    }
    return Stored, i;
  }

  lemma TidsAppend(entries: seq<Entry>, i: nat)
    requires i < |entries|
    ensures Tids(entries[..i + 1]) == Tids(entries[..i]) + {entries[i].tid}
  {
    var more, less := entries[..i + 1], entries[..i];
    assert forall k :: 0 <= k < i ==> more[k] == less[k];
    forall t ensures t in Tids(more) <==> t in Tids(less) || t == entries[i].tid {
      if t in Tids(less) {
        var k :| 0 <= k < i && less[k].tid == t;
        assert more[k].tid == t;
      }
      if t == entries[i].tid {
        assert more[i].tid == t;
      }
      if t in Tids(more) {
        var k :| 0 <= k <= i && more[k].tid == t;
        assert k < i ==> less[k].tid == t;
      }
    }
  }
}
