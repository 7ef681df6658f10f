/** Safety of the admission tables over whole runs of every writer. */
module Runs {
  import opened Tables
  import opened Admission
  import opened Deletion

  /**
   * One committed or abandoned transaction. `Elsewhere` stands for the writers
   * of application, suppression and journal rows; `Forget` is the cascade that
   * deletes an identity.
   */
  datatype Event =
    | Admit(p: Plan, h: Handlers, purge: set<Key>, fate: Fate)
    | Erase(scope: Scope, now: nat, landed: bool)
    | EraseGame(identity: string, session: string, at: nat, committed: bool)
    | Elsewhere
    | Forget(owner: string)

  function Others<T>(rows: map<Key, T>, identity: string): map<Key, T> {
    map k | k in rows && k.identity != identity :: rows[k]
  }

  ghost predicate Step(t: Tables, e: Event, after: Tables) {
    match e
    case Admit(p, h, purge, fate) =>
      Purgeable(t.receipts, p.at, purge) && after == Outcome(t, p, h, purge, fate).0
    case Erase(scope, now, landed) =>
      if landed && Refusal(t, scope).None? then Deletes(t, scope, now, after) else after == t
    case EraseGame(identity, session, now, landed) =>
      if landed && Terminal(t, identity, session) then GameDeletes(t, identity, session, now, after) else after == t
    case Elsewhere =>
      after == t.(app := after.app, suppression := after.suppression, journal := after.journal, nextJournal := after.nextJournal)
    case Forget(owner) =>
      && after.effects == Others(t.effects, owner)
      && after.receipts == Others(t.receipts, owner)
      && after.deleted == Others(t.deleted, owner)
  }

  ghost predicate Run(states: seq<Tables>, events: seq<Event>) {
    && |states| == |events| + 1
    && forall i :: 0 <= i < |events| ==> Step(states[i], events[i], states[i + 1])
  }

  /** The event commits this message's application effect. */
  predicate Applies(t: Tables, e: Event, key: Key) {
    && e.Admit? && !e.fate.Lost? && MessageKey(e.p) == key
    && Transact(t, e.p, e.h, e.purge).Ok?
    && Transact(t, e.p, e.h, e.purge).value.1.disposition == Committed
  }

  predicate Known(t: Tables, key: Key) { key in t.effects || key in t.deleted }

  lemma StepKeepsConsistent(t: Tables, e: Event, after: Tables)
    requires Consistent(t) && Step(t, e, after)
    ensures Consistent(after)
  {
    match e
    case Admit(p, h, purge, fate) =>
      if Transact(t, p, h, purge).Ok? {
        TransactKeepsConsistent(t, p, h, purge);
      }
    case Erase(scope, now, _) =>
      if after != t {
        ErasureKeepsConsistent(t, Doomed(Selected(t.app, scope)), now, after);
      }
    case EraseGame(identity, session, now, _) =>
      if after != t {
        ErasureKeepsConsistent(t, GameKeys(t.effects, identity, session), now, after);
      }
    case Elsewhere =>
      assert forall k :: k in after.receipts ==> Grounded(t, k);
    case Forget(owner) =>
      LedgerShrinks(after.receipts, t.receipts);
      forall k | k in after.receipts ensures Grounded(after, k) {
        assert Grounded(t, k);
      }
  }

  /** A known message stays known, a live effect never changes, and a tombstone never lifts. */
  lemma StepKeepsKnown(t: Tables, e: Event, after: Tables, key: Key)
    requires Consistent(t) && Step(t, e, after) && e != Forget(key.identity)
    ensures Known(t, key) ==> Known(after, key) && !Applies(t, e, key)
    ensures Applies(t, e, key) ==> key in after.effects
    ensures key in t.effects && key in after.effects ==> after.effects[key] == t.effects[key]
    ensures key in t.deleted ==> key in after.deleted && key !in after.effects
  {
    if e.Admit? {
      AdmitKeepsKnown(t, e, after, key);
    }
  }

  lemma AdmitKeepsKnown(t: Tables, e: Event, after: Tables, key: Key)
    requires Disjoint(t) && e.Admit? && Step(t, e, after)
    ensures Known(t, key) ==> Known(after, key) && !Applies(t, e, key)
    ensures Applies(t, e, key) ==> key in after.effects
    ensures key in t.effects ==> key in after.effects && after.effects[key] == t.effects[key]
    ensures key in t.deleted ==> key in after.deleted && key !in after.effects
  {
    if Transact(t, e.p, e.h, e.purge).Ok? {
      CommittedWasFresh(t, e.p, e.h, e.purge);
    }
  }

  /** Both ledger caps and the grounding of every receipt hold in every reachable state. */
  lemma {:induction false} RunKeepsConsistent(states: seq<Tables>, events: seq<Event>, i: nat)
    requires Run(states, events) && Consistent(states[0]) && i < |states|
    ensures Consistent(states[i])
  {
    if i > 0 {
      RunKeepsConsistent(states, events, i - 1);
      StepKeepsConsistent(states[i - 1], events[i - 1], states[i]);
    }
  }

  /** Until its identity is forgotten, a known message is in effects or tombstones forever. */
  lemma {:induction false} KnownForever(states: seq<Tables>, events: seq<Event>, i: nat, j: nat, key: Key)
    requires Run(states, events) && Consistent(states[0]) && i <= j < |states| && Known(states[i], key)
    requires forall n :: i <= n < j ==> events[n] != Forget(key.identity)
    ensures Known(states[j], key)
    ensures key in states[i].deleted ==> key in states[j].deleted
    decreases j
  {
    if i < j {
      KnownForever(states, events, i, j - 1, key);
      RunKeepsConsistent(states, events, j - 1);
      StepKeepsKnown(states[j - 1], events[j - 1], states[j], key);
    }
  }

  /**
   * Exactly-once effects: whatever deletions, expiries, uncertain commits and
   * repeats a run contains, two commits of one message's effect are separated
   * by the deletion of its identity.
   */
  lemma EffectsApplyOnce(states: seq<Tables>, events: seq<Event>, i: nat, j: nat, key: Key)
    requires Run(states, events) && Consistent(states[0]) && i < j < |events|
    requires Applies(states[i], events[i], key) && Applies(states[j], events[j], key)
    ensures exists n :: i < n < j && events[n] == Forget(key.identity)
  {
    if forall n :: i < n < j ==> events[n] != Forget(key.identity) {
      RunKeepsConsistent(states, events, i);
      StepKeepsKnown(states[i], events[i], states[i + 1], key);
      KnownForever(states, events, i + 1, j, key);
      RunKeepsConsistent(states, events, j);
      StepKeepsKnown(states[j], events[j], states[j + 1], key);
    }
  }

  /**
   * A message the user deleted is never shown again: every later admission of it
   * is refused or answered `UserDeleted`, and changes no application row.
   */
  lemma DeletedNeverReturns(states: seq<Tables>, events: seq<Event>, i: nat, j: nat, key: Key)
    requires Run(states, events) && Consistent(states[0]) && i <= j < |events| && key in states[i].deleted
    requires forall n :: i <= n < j ==> events[n] != Forget(key.identity)
    requires events[j].Admit? && MessageKey(events[j].p) == key
    ensures var e := events[j];
            && states[j + 1].app == states[j].app && states[j + 1].effects == states[j].effects
            && (Transact(states[j], e.p, e.h, e.purge).Ok? ==>
                  Transact(states[j], e.p, e.h, e.purge).value.1.disposition == UserDeleted)
  {
    KnownForever(states, events, i, j, key);
  }
}
