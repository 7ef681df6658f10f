/**
 * The durable admission transaction: a downloaded message's effect and its
 * receipt are committed together, or not at all.
 */
module Admission {
  import opened Common
  import opened Tables
  import Hex

  /** What applying a message to the application tables comes to. */
  datatype Application =
    | Failed(error: AdmissionError)
    | Discarded(app: App)
    | Performed(kind: string, app: App)

  datatype Plan = Plan(identity: string, transient: Digest, node: Node, message: Digest, wire: Digest,
                       archive: string, files: seq<FileRef>, game: Option<GameRef>, at: nat)

  /** The caller's closures: re-verification of retained files, and the application effect. */
  datatype Handlers = Handlers(verify: (string, Digest, seq<FileRef>) -> Option<AdmissionError>,
                               apply: App -> Application)

  /** How the database's commit call ends; an uncertain commit may or may not have landed. */
  datatype Fate = Certain | Landed | Lost

  datatype Ticket = Ticket(plan: Plan, stored: Option<Digest>, disposition: Disposition)

  datatype Verdict = Verdict(disposition: Disposition, stored: Option<Digest>,
                             effects: map<Key, Effect>, app: App)

  function MessageKey(p: Plan): Key { Key(p.identity, p.message) }

  function ReceiptKey(p: Plan): Key { Key(p.identity, p.transient) }

  function RowOf(p: Plan): RowKey { RowKey(p.identity, Hex.Encode(p.message)) }

  function Expired(receipts: map<Key, Receipt>, now: nat): set<Key> {
    set k | k in receipts && receipts[k].expires.Some? && receipts[k].expires.value <= now
  }

  /** `LIMIT 256` deletes some expired rows, all of them when they are no more than that. */
  ghost predicate Purgeable(receipts: map<Key, Receipt>, now: nat, purge: set<Key>) {
    purge <= Expired(receipts, now) && |purge| == Min(BATCH, |Expired(receipts, now)|)
  }

  /** The live row under this transient id is for another message or another wire image. */
  predicate Conflicts(receipts: map<Key, Receipt>, p: Plan) {
    var k := ReceiptKey(p);
    k in receipts && (receipts[k].message != p.message || receipts[k].received != p.wire)
  }

  predicate GameRetained(app: App, game: Option<GameRef>) {
    game.Some? && Action(game.value.identity, game.value.session, game.value.envelope) in app.actions
  }

  /** What a retained effect needs from the application tables to still be shown. */
  predicate Visible(app: App, e: Effect, row: RowKey) {
    && (e.kind == "game" ==> GameRetained(app, e.game))
    && (e.kind == "message" ==> row in app.messages)
  }

  function Judge(t: Tables, p: Plan, h: Handlers): Result<Verdict, AdmissionError> {
    var key := MessageKey(p);
    if key in t.deleted then Ok(Verdict(UserDeleted, None, t.effects, t.app))
    else if key in t.effects then
      var e := t.effects[key];
      var refused := h.verify(e.archive, e.stored, e.files);
      if refused.Some? then Err(refused.value)
      else if !Visible(t.app, e, RowOf(p)) then Err(MissingEffect)
      else Ok(Verdict(Duplicate, Some(e.stored), t.effects, t.app))
    else
      match h.apply(t.app)
      case Failed(error) => Err(error)
      case Discarded(app) => Ok(Verdict(PolicyDiscard, None, t.effects, app))
      case Performed(kind, app) =>
        if kind !in {"message", "reaction", "game", "service"} then Err(MissingEffect)
        else if kind == "game" && !GameRetained(app, p.game) then Err(MissingEffect)
        else Ok(Verdict(Committed, Some(p.wire),
                        t.effects[key := Effect(p.wire, p.archive, p.files, p.game, kind, p.at)], app))
  }

  predicate Full(receipts: map<Key, Receipt>, p: Plan) {
    && ReceiptKey(p) !in receipts
    && (|Ledger(receipts)| >= MAX_POLICY_GLOBAL || |LedgerOf(receipts, p.identity)| >= MAX_POLICY_PER_IDENTITY)
  }

  function NewReceipt(p: Plan, disposition: Disposition, stored: Option<Digest>): (r: Receipt) {
    Receipt(p.node, p.message, p.wire, stored, disposition, p.at,
            if disposition in {PolicyDiscard, UserDeleted}
            then Some(SaturatingAdd(p.at, POLICY_RECEIPT_SECONDS)) else None)
  }

  /** Admitting a message ends its suppression at every node. */
  function Unsuppressed(suppression: map<SlotKey, Slot>, p: Plan): map<SlotKey, Slot> {
    map s | s in suppression && !(s.identity == p.identity && s.transient == p.transient) :: suppression[s]
  }

  /** The state and ticket of a transaction whose commit succeeds, or the error that abandons it. */
  function Transact(t: Tables, p: Plan, h: Handlers, purge: set<Key>): Result<(Tables, Ticket), AdmissionError> {
    var live := t.receipts - purge;
    if Conflicts(live, p) then Err(MissingEffect)
    else
      var judged := Judge(t, p, h);
      if judged.Err? then Err(judged.error)
      else
        var v := judged.value;
        var receipt := NewReceipt(p, v.disposition, v.stored);
        if Counted(receipt) && Full(live, p) then Err(LedgerFull)
        else
          Ok((t.(effects := v.effects,
                 receipts := live[ReceiptKey(p) := receipt],
                 suppression := Unsuppressed(t.suppression, p),
                 app := v.app),
              Ticket(p, v.stored, v.disposition)))
  }

  /** One commit call: the resulting tables and the caller's answer. */
  function Outcome(t: Tables, p: Plan, h: Handlers, purge: set<Key>, fate: Fate)
    : (Tables, Result<Ticket, AdmissionError>)
  {
    match Transact(t, p, h, purge)
    case Err(error) => (t, Err(error))
    case Ok((after, ticket)) =>
      match fate
      case Certain => (after, Ok(ticket))
      case Landed => (after, Err(CommitUncertain))
      case Lost => (t, Err(CommitUncertain))
  }

  /** The branch on tombstone, retained effect or fresh application. */
  method Decide(t: Tables, p: Plan, h: Handlers) returns (r: Result<Verdict, AdmissionError>)
    ensures r == Judge(t, p, h)
  {
    var key := MessageKey(p);
    var disposition, stored := UserDeleted, None;
    var effects, after := t.effects, t.app;
    if key !in t.deleted {
      if key in t.effects {
        var e := t.effects[key];
        var refused := h.verify(e.archive, e.stored, e.files);
        if refused.Some? {
          return Err(refused.value);
        }
        if e.kind == "game" {
          if !GameRetained(t.app, e.game) {
            return Err(MissingEffect);
          }
        }
        if e.kind == "message" {
          if RowOf(p) !in t.app.messages {
            return Err(MissingEffect);
          }
        }
        disposition, stored := Duplicate, Some(e.stored);
      } else {
        var application := h.apply(t.app);
        match application {
          case Failed(error) =>
            return Err(error);
          case Discarded(app) =>
            after := app;
            disposition := PolicyDiscard;
          case Performed(kind, app) =>
            if kind !in {"message", "reaction", "game", "service"} {
              return Err(MissingEffect);
            }
            after := app;
            if kind == "game" {
              if !GameRetained(after, p.game) {
                return Err(MissingEffect);
              }
            }
            effects := effects[key := Effect(p.wire, p.archive, p.files, p.game, kind, p.at)];
            disposition, stored := Committed, Some(p.wire);
        }
      }
    }
    return Ok(Verdict(disposition, stored, effects, after));
  }

  /** Insert the receipt, or refresh the row already under its transient id. */
  method Upsert(receipts: map<Key, Receipt>, p: Plan, disposition: Disposition, stored: Option<Digest>)
    returns (r: map<Key, Receipt>)
    requires !Conflicts(receipts, p)
    ensures r == receipts[ReceiptKey(p) := NewReceipt(p, disposition, stored)]
  {
    var slot := ReceiptKey(p);
    var expires := None;
    if disposition == PolicyDiscard || disposition == UserDeleted {
      expires := Some(SaturatingAdd(p.at, POLICY_RECEIPT_SECONDS));
    }
    if slot in receipts {
      // On conflict the message id and the received hash keep their old values.
      r := receipts[slot := receipts[slot].(node := p.node, stored := stored, disposition := disposition,
                                            at := p.at, expires := expires)];
    } else {
      r := receipts[slot := Receipt(p.node, p.message, p.wire, stored, disposition, p.at, expires)];
    }
  }

  /** The statements of the transaction, run on a private image of the tables. */
  method Execute(t: Tables, p: Plan, h: Handlers, purge: set<Key>)
    returns (r: Result<(Tables, Ticket), AdmissionError>)
    ensures r == Transact(t, p, h, purge)
  {
    var receipts := t.receipts - purge;
    var slot := ReceiptKey(p);
    if slot in receipts {
      var prior := receipts[slot];
      if prior.message != p.message || prior.received != p.wire {
        return Err(MissingEffect);
      }
    }
    var judged := Decide(t, p, h);
    if judged.Err? {
      return Err(judged.error);
    }
    var disposition, stored := judged.value.disposition, judged.value.stored;
    if disposition == PolicyDiscard || disposition == UserDeleted {
      var global := |Ledger(receipts)|;
      var mine := |LedgerOf(receipts, p.identity)|;
      if slot !in receipts && (global >= MAX_POLICY_GLOBAL || mine >= MAX_POLICY_PER_IDENTITY) {
        return Err(LedgerFull);
      }
    }
    receipts := Upsert(receipts, p, disposition, stored);
    var after := t.(effects := judged.value.effects, receipts := receipts,
                    suppression := Unsuppressed(t.suppression, p), app := judged.value.app);
    return Ok((after, Ticket(p, stored, disposition)));
  }

  // ----- What one transaction keeps -----

  lemma PurgeKeepsConsistent(t: Tables, purge: set<Key>)
    requires Consistent(t)
    ensures Consistent(t.(receipts := t.receipts - purge))
  {
    var after := t.(receipts := t.receipts - purge);
    LedgerShrinks(after.receipts, t.receipts);
    assert forall k :: k in after.receipts ==> Grounded(t, k);
  }

  /**
   * The ledger caps let an existing row be rewritten without being counted again.
   * That is sound: such a row was already one of the counted ones.
   */
  lemma RewrittenRowWasCounted(t: Tables, p: Plan, h: Handlers)
    requires Consistent(t) && !Conflicts(t.receipts, p) && ReceiptKey(p) in t.receipts
    requires Judge(t, p, h).Ok? && Judge(t, p, h).value.disposition in {PolicyDiscard, UserDeleted}
    ensures Counted(t.receipts[ReceiptKey(p)])
  {
    assert Grounded(t, ReceiptKey(p));
  }

  lemma TransactKeepsGrounded(t: Tables, p: Plan, h: Handlers, purge: set<Key>)
    requires Consistent(t) && Transact(t, p, h, purge).Ok?
    ensures var after := Transact(t, p, h, purge).value.0;
            Disjoint(after) && forall j :: j in after.receipts ==> Grounded(after, j)
  {
    var after := Transact(t, p, h, purge).value.0;
    CommittedWasFresh(t, p, h, purge);
    forall j | j in after.receipts ensures Grounded(after, j) {
      if j != ReceiptKey(p) {
        assert Grounded(t, j);
      }
    }
  }

  lemma UncountedKeepsBounded(receipts: map<Key, Receipt>, k: Key, r: Receipt)
    requires Bounded(receipts) && !Counted(r)
    ensures Bounded(receipts[k := r])
  {
    var after := receipts[k := r];
    SubsetSize(Ledger(after), Ledger(receipts));
    forall identity ensures |LedgerOf(after, identity)| <= MAX_POLICY_PER_IDENTITY {
      SubsetSize(LedgerOf(after, identity), LedgerOf(receipts, identity));
    }
  }

  lemma OneMoreKeepsBounded(receipts: map<Key, Receipt>, k: Key, r: Receipt)
    requires Bounded(receipts) && k !in receipts
    requires |Ledger(receipts)| < MAX_POLICY_GLOBAL && |LedgerOf(receipts, k.identity)| < MAX_POLICY_PER_IDENTITY
    ensures Bounded(receipts[k := r])
  {
    var after := receipts[k := r];
    SubsetSize(Ledger(after), Ledger(receipts) + {k});
    forall identity ensures |LedgerOf(after, identity)| <= MAX_POLICY_PER_IDENTITY {
      if identity == k.identity {
        SubsetSize(LedgerOf(after, identity), LedgerOf(receipts, identity) + {k});
      } else {
        SubsetSize(LedgerOf(after, identity), LedgerOf(receipts, identity));
      }
    }
  }

  lemma TransactKeepsBounded(t: Tables, p: Plan, h: Handlers, purge: set<Key>)
    requires Consistent(t) && Transact(t, p, h, purge).Ok?
    ensures Bounded(Transact(t, p, h, purge).value.0.receipts)
  {
    var live := t.(receipts := t.receipts - purge);
    PurgeKeepsConsistent(t, purge);
    var receipt := Transact(t, p, h, purge).value.0.receipts[ReceiptKey(p)];
    if !Counted(receipt) {
      UncountedKeepsBounded(live.receipts, ReceiptKey(p), receipt);
    } else if ReceiptKey(p) in live.receipts {
      assert Judge(live, p, h) == Judge(t, p, h);
      RewrittenRowWasCounted(live, p, h);
      LedgerShrinks(live.receipts[ReceiptKey(p) := receipt], live.receipts);
    } else {
      OneMoreKeepsBounded(live.receipts, ReceiptKey(p), receipt);
    }
  }

  /** Every admission keeps the tables consistent, both ledger caps included. */
  lemma TransactKeepsConsistent(t: Tables, p: Plan, h: Handlers, purge: set<Key>)
    requires Consistent(t) && Transact(t, p, h, purge).Ok?
    ensures Consistent(Transact(t, p, h, purge).value.0)
  {
    TransactKeepsGrounded(t, p, h, purge);
    TransactKeepsBounded(t, p, h, purge);
  }

  /** An effect is applied only for a message neither retained nor deleted, and is then retained. */
  lemma CommittedWasFresh(t: Tables, p: Plan, h: Handlers, purge: set<Key>)
    requires Transact(t, p, h, purge).Ok?
    ensures var (after, ticket) := Transact(t, p, h, purge).value;
            && after.deleted == t.deleted
            && (ticket.disposition == Committed <==> MessageKey(p) !in t.effects && MessageKey(p) in after.effects)
            && (ticket.disposition == Committed ==>
                  && MessageKey(p) !in t.deleted
                  && after.effects == t.effects[MessageKey(p) := after.effects[MessageKey(p)]]
                  && after.effects[MessageKey(p)].stored == p.wire)
            && (ticket.disposition != Committed ==> after.effects == t.effects)
            && (ticket.disposition !in {Committed, PolicyDiscard} ==> after.app == t.app)
  {
  }

  /**
   * What a landed admission leaves, row by row: the receipt under its transient
   * id, at most its own effect, no suppression of the admitted download at any
   * node, and everything else as it was but for the purged receipts.
   */
  ghost predicate Recorded(t: Tables, p: Plan, h: Handlers, purge: set<Key>, after: Tables, ticket: Ticket) {
    var slot, key := Key(p.identity, p.transient), Key(p.identity, p.message);
    && after.deleted == t.deleted && after.journal == t.journal && after.nextJournal == t.nextJournal
    && (forall s :: s in after.suppression <==> s in t.suppression && !(s.identity == p.identity && s.transient == p.transient))
    && (forall s :: s in after.suppression ==> after.suppression[s] == t.suppression[s])
    && (forall k :: k in after.receipts <==> k == slot || (k in t.receipts && k !in purge))
    && (forall k :: k in after.receipts && k != slot ==> after.receipts[k] == t.receipts[k])
    && after.receipts[slot] == Receipt(p.node, p.message, p.wire, ticket.stored, ticket.disposition, p.at,
         if ticket.disposition == PolicyDiscard || ticket.disposition == UserDeleted
         then Some(if p.at + 7_776_000 > U64_MAX then U64_MAX else p.at + 7_776_000) else None)
    && (forall k :: k in after.effects && k != key ==> k in t.effects && after.effects[k] == t.effects[k])
    && (forall k :: k in t.effects ==> k in after.effects && after.effects[k] == t.effects[k])
    && if key in t.deleted then
         ticket.disposition == UserDeleted && ticket.stored.None? && after.app == t.app && after.effects == t.effects
       else if key in t.effects then
         && ticket.disposition == Duplicate && ticket.stored == Some(t.effects[key].stored)
         && after.app == t.app && after.effects == t.effects
       else
         match h.apply(t.app)
         case Failed(_) => false
         case Discarded(app) =>
           ticket.disposition == PolicyDiscard && ticket.stored.None? && after.app == app && after.effects == t.effects
         case Performed(kind, app) =>
           && ticket.disposition == Committed && ticket.stored == Some(p.wire) && after.app == app
           && key in after.effects && after.effects[key] == Effect(p.wire, p.archive, p.files, p.game, kind, p.at)
  }

  /** The receipts that have run out by now, or 256 of them when there are more. */
  ghost predicate RunOut(receipts: map<Key, Receipt>, now: nat, purge: set<Key>) {
    var due := set k | k in receipts && receipts[k].expires.Some? && receipts[k].expires.value <= now;
    purge <= due && |purge| == if |due| <= 256 then |due| else 256
  }

  lemma PurgeableIff(receipts: map<Key, Receipt>, now: nat, purge: set<Key>)
    ensures Purgeable(receipts, now, purge) <==> RunOut(receipts, now, purge)
  {
    assert Expired(receipts, now) == set k | k in receipts && receipts[k].expires.Some? && receipts[k].expires.value <= now;
  }

  lemma AdmissionRecords(t: Tables, p: Plan, h: Handlers, purge: set<Key>)
    requires Transact(t, p, h, purge).Ok?
    ensures Recorded(t, p, h, purge, Transact(t, p, h, purge).value.0, Transact(t, p, h, purge).value.1)
  {
    hide Full, Conflicts, Visible, GameRetained;
  }

  /** A game must have its action in the application tables, a message its row. */
  ghost predicate Shown(app: App, kind: string, game: Option<GameRef>, row: RowKey) {
    && (kind == "message" ==> row in app.messages)
    && (kind == "game" ==>
          game.Some? && Action(game.value.identity, game.value.session, game.value.envelope) in app.actions)
  }

  /** What the message comes to can be answered for: its files and rows, or its application. */
  ghost predicate Answerable(t: Tables, p: Plan, h: Handlers) {
    var key := Key(p.identity, p.message);
    key !in t.deleted ==>
      if key in t.effects then
        var e := t.effects[key];
        && h.verify(e.archive, e.stored, e.files).None?
        && Shown(t.app, e.kind, e.game, RowKey(p.identity, Hex.Encode(p.message)))
      else
        match h.apply(t.app)
        case Failed(_) => false
        case Discarded(_) => true
        case Performed(kind, app) =>
          && kind in {"message", "reaction", "game", "service"}
          && (kind == "game" ==> Shown(app, kind, p.game, RowKey(p.identity, Hex.Encode(p.message))))
  }

  /** The answer is a counted one: deleted by the user, or discarded by policy. */
  ghost predicate AnswersCounted(t: Tables, p: Plan, h: Handlers) {
    var key := Key(p.identity, p.message);
    key in t.deleted || (key !in t.effects && h.apply(t.app).Discarded?)
  }

  /**
   * An admission is refused exactly when the live row under its transient id is
   * for something else, when it cannot be answered for, or when a new counted
   * receipt meets 65,536 counted rows in all or 16,384 of its identity.
   */
  lemma RefusedIff(t: Tables, p: Plan, h: Handlers, purge: set<Key>)
    ensures var slot, live := Key(p.identity, p.transient), t.receipts - purge;
            Transact(t, p, h, purge).Err? <==>
              || (slot in live && !(live[slot].message == p.message && live[slot].received == p.wire))
              || !Answerable(t, p, h)
              || (AnswersCounted(t, p, h) && slot !in live && Crowded(live, p.identity))
    ensures var slot, live := Key(p.identity, p.transient), t.receipts - purge;
            Transact(t, p, h, purge).Err? ==>
              Blames(t, p, h, slot in live && !(live[slot].message == p.message && live[slot].received == p.wire),
                     Transact(t, p, h, purge).error)
  {
    LedgersAre(t.receipts - purge, p.identity);
    hide Ledger, LedgerOf, Crowded;
  }

  /** 65,536 receipts of discarded and deleted messages, or 16,384 of the identity. */
  predicate Crowded(live: map<Key, Receipt>, identity: string) {
    || |set k | k in live && (live[k].disposition == PolicyDiscard || live[k].disposition == UserDeleted)| >= 65_536
    || |set k | k in live && k.identity == identity
                && (live[k].disposition == PolicyDiscard || live[k].disposition == UserDeleted)| >= 16_384
  }

  lemma LedgersAre(live: map<Key, Receipt>, identity: string)
    ensures Crowded(live, identity) <==> |Ledger(live)| >= 65_536 || |LedgerOf(live, identity)| >= 16_384
  {
    assert Ledger(live) == set k | k in live && (live[k].disposition == PolicyDiscard || live[k].disposition == UserDeleted);
    assert LedgerOf(live, identity) == set k | k in live && k.identity == identity
                && (live[k].disposition == PolicyDiscard || live[k].disposition == UserDeleted);
  }

  /** The first reason there is: a reused transient id, what verification or the application says, or a full ledger. */
  ghost predicate Blames(t: Tables, p: Plan, h: Handlers, reused: bool, error: AdmissionError) {
    var key := Key(p.identity, p.message);
    if reused then error == MissingEffect
    else if Answerable(t, p, h) then error == LedgerFull
    else if key in t.effects && h.verify(t.effects[key].archive, t.effects[key].stored, t.effects[key].files).Some? then
      Some(error) == h.verify(t.effects[key].archive, t.effects[key].stored, t.effects[key].files)
    else if key !in t.effects && h.apply(t.app).Failed? then error == h.apply(t.app).error
    else error == MissingEffect
  }

  /** A live transient id is never reused for another message or another wire image. */
  lemma ReusedTransientIdIsRefused(t: Tables, p: Plan, h: Handlers, purge: set<Key>, fate: Fate)
    requires Conflicts(t.receipts, p) && ReceiptKey(p) !in purge
    ensures Outcome(t, p, h, purge, fate) == (t, Err(MissingEffect))
  {
  }

  // ----- Crash convergence -----

  /** What the application closure promises: a discard writes nothing, a message leaves its row. */
  ghost predicate HonestClosure(p: Plan, h: Handlers) {
    forall app ::
      match h.apply(app)
      case Failed(_) => true
      case Discarded(after) => after == app
      case Performed(kind, after) => kind == "message" ==> RowOf(p) in after.messages
  }

  predicate SameReceipt(a: Receipt, b: Receipt) {
    && a.node == b.node && a.message == b.message && a.received == b.received && a.stored == b.stored
    && (a.disposition == b.disposition || {a.disposition, b.disposition} == {Committed, Duplicate})
  }

  /** Equal up to timestamps, Committed versus Duplicate, and receipts already expired at `now`. */
  ghost predicate Converged(a: Tables, b: Tables, k: Key, now: nat) {
    && a.deleted == b.deleted && a.app == b.app && a.suppression == b.suppression
    && a.journal == b.journal && a.nextJournal == b.nextJournal
    && a.effects.Keys == b.effects.Keys
    && (forall e :: e in a.effects ==> a.effects[e].(at := 0) == b.effects[e].(at := 0))
    && k in a.receipts && k in b.receipts && SameReceipt(a.receipts[k], b.receipts[k])
    && (forall j :: j != k && j in a.receipts && j in b.receipts ==> a.receipts[j] == b.receipts[j])
    && (forall j :: j != k && j in a.receipts && j !in b.receipts ==> j in Expired(a.receipts, now))
    && (forall j :: j != k && j in b.receipts && j !in a.receipts ==> j in Expired(b.receipts, now))
  }

  /** What a transaction writes: its judgement, and one receipt among those the purge left. */
  lemma Written(t: Tables, p: Plan, h: Handlers, purge: set<Key>)
    requires Transact(t, p, h, purge).Ok?
    ensures Judge(t, p, h).Ok?
    ensures var v := Judge(t, p, h).value;
            Transact(t, p, h, purge).value.0 ==
            t.(effects := v.effects,
               receipts := (t.receipts - purge)[ReceiptKey(p) := NewReceipt(p, v.disposition, v.stored)],
               suppression := Unsuppressed(t.suppression, p), app := v.app)
  {
    hide Judge, Full, Conflicts, NewReceipt, Unsuppressed;
  }

  lemma JudgedAgain(t: Tables, p: Plan, h: Handlers, again: Handlers, now: nat)
    requires again.apply == h.apply && Judge(t, p, h).Ok? && Judge(t, p.(at := now), again).Ok?
    ensures var v, w := Judge(t, p, h).value, Judge(t, p.(at := now), again).value;
            && v.disposition == w.disposition && v.stored == w.stored && v.app == w.app
            && v.effects.Keys == w.effects.Keys
            && forall e :: e in v.effects ==> v.effects[e].(at := 0) == w.effects[e].(at := 0)
  {
    hide Visible, GameRetained;
  }

  lemma PurgedApart(receipts: map<Key, Receipt>, k: Key, a: Receipt, b: Receipt, purge: set<Key>, purgeAgain: set<Key>,
                    at: nat, now: nat)
    requires Purgeable(receipts, at, purge) && Purgeable(receipts, now, purgeAgain) && at <= now
    ensures var once, twice := (receipts - purge)[k := a], (receipts - purgeAgain)[k := b];
            && (forall j :: j != k && j in once && j in twice ==> once[j] == twice[j])
            && (forall j :: j != k && j in once && j !in twice ==> j in Expired(once, now))
            && (forall j :: j != k && j in twice && j !in once ==> j in Expired(twice, now))
  {
  }

  lemma LostConverges(t: Tables, p: Plan, h: Handlers, purge: set<Key>,
                      again: Handlers, now: nat, purgeAgain: set<Key>)
    requires Purgeable(t.receipts, p.at, purge) && Purgeable(t.receipts, now, purgeAgain)
    requires Transact(t, p, h, purge).Ok? && again.apply == h.apply && p.at <= now
    requires Transact(t, p.(at := now), again, purgeAgain).Ok?
    ensures Converged(Transact(t, p, h, purge).value.0, Transact(t, p.(at := now), again, purgeAgain).value.0,
                      ReceiptKey(p), now)
  {
    hide Transact, Judge, Purgeable, Expired;
    Written(t, p, h, purge);
    Written(t, p.(at := now), again, purgeAgain);
    JudgedAgain(t, p, h, again, now);
    var once, twice := Transact(t, p, h, purge).value.0, Transact(t, p.(at := now), again, purgeAgain).value.0;
    var k := ReceiptKey(p);
    PurgedApart(t.receipts, k, once.receipts[k], twice.receipts[k], purge, purgeAgain, p.at, now);
  }

  /** A landed commit judged again: the effect it left is found, or its answer stands. */
  lemma JudgedAfterLanding(t: Tables, p: Plan, h: Handlers, once: Tables, again: Handlers, now: nat)
    requires Disjoint(t) && HonestClosure(p, h) && again.apply == h.apply && Judge(t, p, h).Ok?
    requires once.effects == Judge(t, p, h).value.effects && once.app == Judge(t, p, h).value.app
    requires once.deleted == t.deleted && Judge(once, p.(at := now), again).Ok?
    ensures var v, w := Judge(t, p, h).value, Judge(once, p.(at := now), again).value;
            && w.effects == once.effects && w.app == once.app && v.stored == w.stored
            && (v.disposition == w.disposition || (v.disposition == Committed && w.disposition == Duplicate))
  {
    hide Visible, GameRetained;
    if Judge(t, p, h).value.disposition == PolicyDiscard {
      assert h.apply(t.app).Discarded?;
    }
  }

  lemma PurgedOnce(receipts: map<Key, Receipt>, k: Key, b: Receipt, purge: set<Key>, now: nat)
    requires Purgeable(receipts, now, purge)
    ensures var twice := (receipts - purge)[k := b];
            && (forall j :: j != k && j in receipts && j in twice ==> receipts[j] == twice[j])
            && (forall j :: j != k && j in receipts && j !in twice ==> j in Expired(receipts, now))
            && (forall j :: j != k && j in twice ==> j in receipts)
  {
  }

  lemma LandedConverges(t: Tables, p: Plan, h: Handlers, purge: set<Key>,
                        again: Handlers, now: nat, purgeAgain: set<Key>)
    requires Consistent(t) && Transact(t, p, h, purge).Ok? && HonestClosure(p, h) && again.apply == h.apply
    requires Purgeable(Transact(t, p, h, purge).value.0.receipts, now, purgeAgain)
    requires Transact(Transact(t, p, h, purge).value.0, p.(at := now), again, purgeAgain).Ok?
    ensures var once := Transact(t, p, h, purge).value.0;
            Converged(once, Transact(once, p.(at := now), again, purgeAgain).value.0, ReceiptKey(p), now)
  {
    hide Transact, Judge, Purgeable, Expired, HonestClosure;
    var once := Transact(t, p, h, purge).value.0;
    var twice := Transact(once, p.(at := now), again, purgeAgain).value.0;
    Written(t, p, h, purge);
    Written(once, p.(at := now), again, purgeAgain);
    JudgedAfterLanding(t, p, h, once, again, now);
    PurgedOnce(once.receipts, ReceiptKey(p), twice.receipts[ReceiptKey(p)], purgeAgain, now);
    assert twice.suppression == once.suppression;
  }

  /**
   * After an uncertain commit, repeating the plan at a later time ends in the
   * state one certain commit would have left, whether or not the first landed.
   */
  lemma CrashConvergence(t: Tables, p: Plan, h: Handlers, purge: set<Key>, fate: Fate,
                         again: Handlers, now: nat, purgeAgain: set<Key>)
    requires Consistent(t) && Purgeable(t.receipts, p.at, purge)
    requires Transact(t, p, h, purge).Ok? && !fate.Certain?
    requires HonestClosure(p, h) && again.apply == h.apply && p.at <= now
    requires Purgeable(Outcome(t, p, h, purge, fate).0.receipts, now, purgeAgain)
    ensures var once := Transact(t, p, h, purge).value.0;
            var (twice, answer) := Outcome(Outcome(t, p, h, purge, fate).0, p.(at := now), again, purgeAgain, Certain);
            answer.Ok? ==> Converged(once, twice, ReceiptKey(p), now)
  {
    var start := Outcome(t, p, h, purge, fate).0;
    if Transact(start, p.(at := now), again, purgeAgain).Ok? {
      if fate.Landed? {
        LandedConverges(t, p, h, purge, again, now, purgeAgain);
      } else {
        LostConverges(t, p, h, purge, again, now, purgeAgain);
      }
    }
  }

  /** The retained files and rows of the effect a landed commit left, or none was needed. */
  predicate Intact(t: Tables, p: Plan, h: Handlers) {
    MessageKey(p) in t.effects ==>
      var e := t.effects[MessageKey(p)];
      h.verify(e.archive, e.stored, e.files).None? && Visible(t.app, e, RowOf(p))
  }

  /** Exactly when the repeat of a landed commit is accepted: at any later time, or until its own receipt expires. */
  lemma LandedRetryAccepted(t: Tables, p: Plan, h: Handlers, purge: set<Key>,
                            again: Handlers, now: nat, purgeAgain: set<Key>)
    requires Consistent(t) && Transact(t, p, h, purge).Ok?
    requires HonestClosure(p, h) && again.apply == h.apply
    requires p.at <= now
    requires Transact(t, p, h, purge).value.1.disposition in {PolicyDiscard, UserDeleted} ==>
               now < SaturatingAdd(p.at, POLICY_RECEIPT_SECONDS)
    requires Purgeable(Outcome(t, p, h, purge, Landed).0.receipts, now, purgeAgain)
    ensures var once := Transact(t, p, h, purge).value.0;
            var retry := Transact(once, p.(at := now), again, purgeAgain);
            && (retry.Ok? <==> Intact(once, p, again))
            && (retry.Ok? ==> retry.value.1.disposition != Committed)
  {
    var once := Transact(t, p, h, purge).value.0;
    var q := p.(at := now);
    assert ReceiptKey(q) !in Expired(once.receipts, now);
    assert Disjoint(once) by { TransactKeepsConsistent(t, p, h, purge); }
    if once.receipts[ReceiptKey(p)].disposition == PolicyDiscard {
      assert h.apply(t.app).Discarded? && once.app == t.app;
    }
  }

  /**
   * Exactly when the repeat of a lost commit is accepted: the files an existing
   * effect needs still verify, and the second purge left neither a conflicting
   * row nor a full ledger behind.
   */
  lemma LostRetryAccepted(t: Tables, p: Plan, h: Handlers, purge: set<Key>,
                          again: Handlers, now: nat, purgeAgain: set<Key>)
    requires Consistent(t) && Transact(t, p, h, purge).Ok? && again.apply == h.apply
    ensures var live := t.receipts - purgeAgain;
            var counted := Transact(t, p, h, purge).value.1.disposition in {PolicyDiscard, UserDeleted};
            Transact(t, p.(at := now), again, purgeAgain).Ok? <==>
              !Conflicts(live, p) && Intact(t, p, again) && !(counted && Full(live, p))
  {
  }

  // ----- Recovery -----

  /** The rows `receipts` hands back after a restart. */
  predicate Recoverable(t: Tables, k: Key, now: nat)
    requires k in t.receipts
  {
    var r := t.receipts[k];
    var key := Key(k.identity, r.message);
    && (r.expires.None? || r.expires.value > now)
    && (Counted(r) || (key in t.effects && r.stored == Some(t.effects[key].stored)
                       && (t.effects[key].kind == "message" ==> RowKey(k.identity, Hex.Encode(r.message)) in t.app.messages)))
    && (key in t.effects && t.effects[key].kind == "game" ==> GameRetained(t.app, t.effects[key].game))
  }

  /**
   * In consistent tables recovery hands back exactly the unexpired receipts whose
   * message row or game action is still there; a discarded or deleted message needs no row.
   */
  lemma RecoveredIff(t: Tables, k: Key, now: nat)
    requires Consistent(t) && k in t.receipts
    ensures var r, key := t.receipts[k], Key(k.identity, t.receipts[k].message);
            Recoverable(t, k, now) <==>
              && (r.expires.Some? ==> now < r.expires.value)
              && (r.disposition == Committed || r.disposition == Duplicate ==>
                    key in t.effects && Shown(t.app, t.effects[key].kind, t.effects[key].game, RowKey(k.identity, Hex.Encode(r.message))))
              && (key in t.effects && t.effects[key].kind == "game" ==>
                    Shown(t.app, "game", t.effects[key].game, RowKey(k.identity, Hex.Encode(r.message))))
  {
    assert Grounded(t, k);
  }

  /**
   * In consistent tables recovery drops an unexpired receipt only because its
   * message row or game action is gone, so every accepted commit is recovered.
   */
  lemma AcceptedIsRecoverable(t: Tables, p: Plan, h: Handlers, purge: set<Key>, now: nat)
    requires Consistent(t) && Transact(t, p, h, purge).Ok? && HonestClosure(p, h)
    ensures var (after, ticket) := Transact(t, p, h, purge).value;
            Recoverable(after, ReceiptKey(p), now) <==>
              (ticket.disposition in {PolicyDiscard, UserDeleted} ==> now < SaturatingAdd(p.at, POLICY_RECEIPT_SECONDS))
  {
    assert Disjoint(Transact(t, p, h, purge).value.0) by { TransactKeepsConsistent(t, p, h, purge); }
  }
}
