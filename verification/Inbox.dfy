/** The one-slot inbox for native channel shares. */
module Inbox {
  import opened Common
  import Decimal

  /** A parsed share target; `None` stands for a payload the parser rejects. */
  type Target = seq<byte>
  type Payload = Option<Target>

  datatype Share = Share(revision: u64, target: Target)

  datatype Box = Box(last: u64, pending: Option<Share>)

  const EMPTY: Box := Box(0, None)

  /** The newest payload the parser accepts. */
  function Newest(payloads: seq<Payload>): Option<Target> {
    if payloads == [] then None
    else if payloads[|payloads| - 1].Some? then payloads[|payloads| - 1]
    else Newest(payloads[..|payloads| - 1])
  }

  /** The last of the payloads that the parser accepts, if it accepts one. */
  lemma {:induction false} NewestIsLast(payloads: seq<Payload>)
    ensures Newest(payloads).None? <==> forall i :: 0 <= i < |payloads| ==> payloads[i].None?
    ensures Newest(payloads).Some? ==>
              exists i :: 0 <= i < |payloads| && payloads[i] == Newest(payloads)
                          && forall j :: i < j < |payloads| ==> payloads[j].None?
  {
    if payloads != [] && payloads[|payloads| - 1].None? {
      var n := |payloads| - 1;
      NewestIsLast(payloads[..n]);
      if Newest(payloads).Some? {
        var i :| 0 <= i < n && payloads[..n][i] == Newest(payloads) && forall j :: i < j < n ==> payloads[..n][j].None?;
        assert payloads[i] == Newest(payloads);
        forall j | i < j < |payloads| ensures payloads[j].None? { if j < n { assert payloads[..n][j] == payloads[j]; } }
      }
    }
  }

  /** A repeated target is coalesced, and at exhaustion the current one is kept: no token is ever reused. */
  function Accepted(b: Box, payloads: seq<Payload>): Box {
    match Newest(payloads)
    case None => b
    case Some(target) =>
      if b.pending.Some? && b.pending.value.target == target then b
      else if b.last == U64_MAX then b
      else Box(b.last + 1, Some(Share(b.last + 1, target)))
  }

  predicate Acknowledges(b: Box, token: string) {
    b.pending.Some? && Decimal.ToString(b.pending.value.revision) == token
  }

  function Acknowledged(b: Box, token: string): Box { if Acknowledges(b, token) then b.(pending := None) else b }

  class ChannelShareInbox {
    var lastRevision: u64
    var pending: Option<Share>

    ghost function State(): Box
      reads this
    {
      Box(lastRevision, pending)
    }

    constructor ()
      ensures State() == EMPTY
    {
      lastRevision, pending := 0, None;
    }

    method AcceptPayloads(payloads: seq<Payload>) returns (changed: bool)
      modifies this
      ensures State() == Accepted(old(State()), payloads)
      ensures changed <==> State() != old(State())
      ensures changed ==> exists i :: 0 <= i < |payloads| && payloads[i].Some?
                                      && (forall j :: i < j < |payloads| ==> payloads[j].None?)
                                      && lastRevision == old(lastRevision) + 1
                                      && pending == Some(Share(lastRevision, payloads[i].value))
      ensures changed ==> old(pending).Some? ==> old(pending).value.target != pending.value.target
      ensures !changed ==>
                || old(lastRevision) == U64_MAX || (forall i :: 0 <= i < |payloads| ==> payloads[i].None?)
                || (pending.Some? && exists i :: 0 <= i < |payloads| && payloads[i] == Some(pending.value.target)
                                                 && forall j :: i < j < |payloads| ==> payloads[j].None?)
    {
      var latest: Option<Target> := None;
      for i := 0 to |payloads|
        invariant latest == Newest(payloads[..i])
        invariant unchanged(this)
      {
        assert payloads[..i + 1][..i] == payloads[..i];
        if payloads[i].Some? {
          latest := payloads[i];
        }
      }
      assert payloads[..|payloads|] == payloads;
      NewestIsLast(payloads);
      if latest.None? {
        return false;
      }
      if pending.Some? && pending.value.target == latest.value {
        return false;
      }
      if lastRevision == U64_MAX {
        return false;
      }
      lastRevision := lastRevision + 1;
      pending := Some(Share(lastRevision, latest.value));
      return true;
    }

    method Peek() returns (delivery: Option<(string, Target)>)
      ensures delivery == if pending.None? then None
                          else Some((Decimal.ToString(pending.value.revision), pending.value.target))
    {
      if pending.None? {
        return None;
      }
      return Some((Decimal.ToString(pending.value.revision), pending.value.target));
    }

    method Acknowledge(token: string) returns (accepted: bool)
      modifies this`pending
      ensures accepted <==> Acknowledges(old(State()), token)
      ensures State() == Acknowledged(old(State()), token)
    {
      accepted := pending.Some? && Decimal.ToString(pending.value.revision) == token;
      if accepted {
        pending := None;
      }
    }
  }
}
