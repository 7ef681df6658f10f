/**
 * The store object: every call runs one or more transactions over a private
 * image of the tables and publishes each at its commit.
 */
module Store {
  import opened Common
  import opened Tables
  import Admission
  import Deletion
  import Hex
  import Codec = SuppressionCodec
  import opened Suppression

  type Fate = Admission.Fate

  lemma SuppressionIsApart(t: Tables, u: Tables)
    requires Consistent(t) && JournalOk(t) && u == t.(suppression := u.suppression)
    ensures Consistent(u) && JournalOk(u)
  {
    assert forall k :: k in u.receipts ==> Grounded(t, k);
  }

  lemma KeepsSlots(t: Slots, u: Slots)
    requires Capped(t) && WellFormed(t) && forall k :: k in u ==> k in t && u[k] == t[k]
    ensures Capped(u) && WellFormed(u)
  {
    SubsetKeepsCapped(u, t);
  }

  lemma FewerRows(t: Slots, some: set<SlotKey>)
    requires Capped(t) && WellFormed(t)
    ensures Capped(t - some) && WellFormed(t - some)
  {
    SubsetKeepsCapped(t - some, t);
  }

  /** Clearing part of a scope leaves exactly the rest of it. */
  lemma ScopeShrinks(t: Slots, some: set<SlotKey>, identity: string, node: Node)
    requires some <= OfNode(t, identity, node)
    ensures OfNode(t - some, identity, node) == OfNode(t, identity, node) - some
    ensures |OfNode(t - some, identity, node)| == |OfNode(t, identity, node)| - |some|
    ensures ClearsOnly(t, t - some, identity, node) && ClearsOnly(t, t, identity, node)
  {
    assert OfNode(t - some, identity, node) == OfNode(t, identity, node) - some;
  }

  lemma AdmissionKeepsTables(t: Tables, p: Admission.Plan, h: Admission.Handlers, purge: set<Key>)
    requires Consistent(t) && JournalOk(t) && Capped(t.suppression) && WellFormed(t.suppression)
    requires Admission.Transact(t, p, h, purge).Ok?
    ensures var after := Admission.Transact(t, p, h, purge).value.0;
            Consistent(after) && JournalOk(after) && Capped(after.suppression) && WellFormed(after.suppression)
  {
    hide Admission.Judge, Admission.Full, Admission.Conflicts;
    Admission.TransactKeepsConsistent(t, p, h, purge);
    hide Capped, WellFormed, Consistent;
    KeepsSlots(t.suppression, Admission.Transact(t, p, h, purge).value.0.suppression);
  }

  class DurableInboundStore {
    /** The committed contents of the database. */
    var tables: Tables

    ghost predicate Valid()
      reads this
    {
      Consistent(tables) && JournalOk(tables) && Capped(tables.suppression) && WellFormed(tables.suppression)
    }

    /** Only suppression rows changed, so every other invariant is as it was. */
    twostate lemma SuppressionOnly()
      requires old(Valid()) && Capped(tables.suppression) && WellFormed(tables.suppression)
      requires tables == old(tables).(suppression := tables.suppression)
      ensures Valid()
    {
      hide Consistent, JournalOk, Capped, WellFormed;
      SuppressionIsApart(old(tables), tables);
    }

    constructor ()
      ensures Valid() && tables.effects == map[] && tables.receipts == map[] && tables.deleted == map[]
    {
      tables := Tables(map[], map[], map[], map[], map[], 1, App(map[], {}, {}, map[], {}, {}, {}));
      new;
      assert Ledger(tables.receipts) == {};
      assert forall identity :: LedgerOf(tables.receipts, identity) == {};
      assert tables.suppression.Keys == {};
      assert forall identity :: OfIdentity(tables.suppression, identity) == {};
      assert forall identity, node :: OfNode(tables.suppression, identity, node) == {};
    }

    /** Ends a transaction the way the database decides. */
    method Publish(tx: Tables, fate: Fate)
      modifies this
      ensures tables == if fate.Lost? then old(tables) else tx
    {
      if !fate.Lost? {
        tables := tx;
      }
    }

    /** Admit one message; every error path leaves the tables alone. */
    method Commit(p: Admission.Plan, h: Admission.Handlers, fate: Fate)
      returns (answer: Result<Admission.Ticket, AdmissionError>, ghost purge: set<Key>)
      requires Valid()
      modifies this
      ensures Valid() && Admission.Purgeable(old(tables).receipts, p.at, purge)
      ensures tables == Admission.Outcome(old(tables), p, h, purge, fate).0
      ensures answer == Admission.Outcome(old(tables), p, h, purge, fate).1
      ensures Admission.RunOut(old(tables).receipts, p.at, purge)
      ensures fate.Lost? || Admission.Transact(old(tables), p, h, purge).Err? ==> tables == old(tables)
      ensures !fate.Lost? && Admission.Transact(old(tables), p, h, purge).Ok? ==>
                Admission.Recorded(old(tables), p, h, purge, tables, Admission.Transact(old(tables), p, h, purge).value.1)
    {
      hide Admission.Transact, Admission.Recorded, Admission.RunOut, Capped, WellFormed, Consistent, JournalOk;
      var expired := PickBatch(Admission.Expired(tables.receipts, p.at));
      purge := expired;
      Admission.PurgeableIff(tables.receipts, p.at, purge);
      var r := Admission.Execute(tables, p, h, expired);
      if r.Err? {
        return Err(r.error), purge;
      }
      AdmissionKeepsTables(tables, p, h, expired);
      Admission.AdmissionRecords(tables, p, h, expired);
      Publish(r.value.0, fate);
      answer := if fate.Certain? then Ok(r.value.1) else Err(CommitUncertain);
    }

    /** Delete messages in scope; the files they named are journalled, not removed. */
    method Delete(s: Deletion.Scope, now: nat, fate: Fate)
      returns (answer: Result<Deletion.Deleted, AdmissionError>)
      requires Valid()
      modifies this
      ensures Valid()
      ensures if Deletion.Refusal(old(tables), s).None? && !fate.Lost? then Deletion.Deletes(old(tables), s, now, tables)
              else tables == old(tables)
      ensures Deletion.Refusal(old(tables), s).None? && !fate.Lost? ==>
                Deletion.RowsGo(old(tables), tables,
                                set k | k in old(tables).app.messages && Deletion.Asked(s, k, old(tables).app.messages[k]))
      ensures Deletion.Refusal(old(tables), s).Some? ==> answer == Err(Deletion.Refusal(old(tables), s).value)
      ensures Deletion.Refusal(old(tables), s).None? ==> (answer.Ok? <==> fate.Certain?)
      ensures Deletion.Refusal(old(tables), s).None? && answer.Err? ==> answer.error == CommitUncertain
      ensures answer.Ok? ==> answer.value == Deletion.Deleted(
                Deletion.MediaOfAll(old(tables).app, Deletion.Selected(old(tables).app, s)),
                Deletion.ArchivesOf(old(tables).effects, Deletion.Doomed(Deletion.Selected(old(tables).app, s))),
                Deletion.SelectedIds(s, Deletion.Selected(old(tables).app, s)))
      ensures answer.Ok? ==> Deletion.Reported(old(tables), s, answer.value)
                             && Deletion.Journals(old(tables), tables, answer.value.media + answer.value.archives)
    {
      var r := Deletion.DeleteScoped(tables, s, now);
      if r.Err? {
        return Err(r.error);
      }
      Deletion.ErasureKeepsConsistent(tables, Deletion.Doomed(Deletion.Selected(tables.app, s)), now, r.value.0);
      Deletion.AskedRowsGo(tables, s, now, r.value.0);
      Deletion.ReportedIs(tables, s, now, r.value.0);
      hide Deletion.RowsGo, Deletion.Asked, Deletion.Reported, Deletion.Journals;
      Publish(r.value.0, fate);
      answer := if fate.Certain? then Ok(r.value.1) else Err(CommitUncertain);
    }

    method DeleteGame(identity: string, session: string, now: nat, fate: Fate) returns (answer: Result<bool, AdmissionError>)
      requires Valid()
      modifies this
      ensures Valid()
      ensures if Deletion.Terminal(old(tables), identity, session) && !fate.Lost?
              then Deletion.GameDeletes(old(tables), identity, session, now, tables) else tables == old(tables)
      ensures answer == if !Deletion.Terminal(old(tables), identity, session) then Ok(false)
                        else if fate.Certain? then Ok(true) else Err(CommitUncertain)
      ensures answer == Ok(false) <==>
                var sessions, k := old(tables).app.sessions, Session(identity, session);
                k in sessions ==> sessions[k] != "completed" && sessions[k] != "declined" && sessions[k] != "expired"
    {
      var r := Deletion.DeleteGameSession(tables, identity, session, now);
      if r.None? {
        return Ok(false);
      }
      Deletion.ErasureKeepsConsistent(tables, Deletion.GameKeys(tables.effects, identity, session), now, r.value);
      Publish(r.value, fate);
      answer := if fate.Certain? then Ok(true) else Err(CommitUncertain);
    }

    /** Drop journal rows whose files are known to be gone. */
    method CompleteDeletedArtifacts(ids: set<nat>, fate: Fate) returns (answer: Result<(), AdmissionError>)
      requires Valid()
      modifies this
      ensures Valid() && tables == old(tables).(journal := tables.journal)
      ensures tables.journal == if answer == Err(TooLarge) || fate.Lost? then old(tables).journal else old(tables).journal - ids
      ensures answer == Err(TooLarge) <==> |ids| > BATCH || 0 in ids
      ensures answer != Err(TooLarge) ==> answer == if fate.Certain? || ids == {} then Ok(()) else Err(CommitUncertain)
    {
      if |ids| > BATCH || 0 in ids {
        return Err(TooLarge);
      }
      if ids == {} {
        assert tables.journal - ids == tables.journal;
        return Ok(());
      }
      assert forall k :: k in tables.receipts ==> Grounded(tables, k);
      Publish(tables.(journal := tables.journal - ids), fate);
      answer := if fate.Certain? then Ok(()) else Err(CommitUncertain);
    }

    // ----- Suppression -----

    /** `LIMIT 256` over an unordered set of rows. */
    method PickBatch<T(==)>(candidates: set<T>) returns (some: set<T>)
      ensures some <= candidates && |some| == Min(BATCH, |candidates|)
    {
      some := {};
      var rest := candidates;
      while rest != {} && |some| < BATCH
        invariant some !! rest && some + rest == candidates && |some| <= BATCH
      {
        var k :| k in rest;
        some, rest := some + {k}, rest - {k};
      }
      assert |candidates| == |some| + |rest|;
    }

    /** One batch; refused without a change, or written whole. */
    method WriteSuppression(rows: seq<Row>, remove: seq<SlotKey>, now: nat, fate: Fate)
      returns (answer: Result<(), AdmissionError>)
      requires Capped(tables.suppression)
      modifies this
      ensures Capped(tables.suppression) && tables == old(tables).(suppression := tables.suppression)
      ensures answer == Err(TooLarge) <==> Oversized(rows, remove)
      ensures answer.Ok? ==> fate.Certain?
      ensures answer.Err? ==> answer.error in {TooLarge, LedgerFull} || (answer.error == CommitUncertain && !fate.Certain?)
      ensures answer.Ok? || (answer.error == CommitUncertain && fate.Landed?)
              ==> Wrote(old(tables).suppression, tables.suppression, rows, remove, now)
      ensures answer.Err? && !(answer.error == CommitUncertain && fate.Landed?) ==> tables == old(tables)
      ensures answer == Err(LedgerFull) ==> Refills(old(tables).suppression, rows, remove, now)
      ensures answer.Ok? || (answer.error == CommitUncertain && fate.Landed?) ==>
                Transacts(old(tables).suppression, rows, remove, now, Ok(tables.suppression))
      ensures answer.Err? && answer.error != CommitUncertain ==>
                Transacts(old(tables).suppression, rows, remove, now, Err(answer.error))
    {
      var stale := PickBatch(Stale(tables.suppression, now));
      var r := WriteBatch(tables.suppression, rows, remove, now, stale);
      if r.Err? {
        return Err(r.error);
      }
      Publish(tables.(suppression := r.value), fate);
      answer := if fate.Certain? then Ok(()) else Err(CommitUncertain);
    }

    /** Explicit retry: clears one identity and node, at most 256 rows a transaction; fails only when a commit does. */
    method ClearSuppression(identity: string, node: Node, reliable: bool) returns (answer: Result<(), AdmissionError>)
      requires Valid()
      modifies this
      ensures Valid() && tables == old(tables).(suppression := tables.suppression)
      ensures ClearsOnly(old(tables).suppression, tables.suppression, identity, node)
      ensures answer.Ok? ==> OfNode(tables.suppression, identity, node) == {}
      ensures answer.Ok? ==> Empties(old(tables).suppression, tables.suppression, identity, node)
      ensures answer.Err? ==> answer.error == CommitUncertain && !reliable
    {
      ghost var before := tables.suppression;
      while true
        invariant Valid() && tables == old(tables).(suppression := tables.suppression)
        invariant ClearsOnly(before, tables.suppression, identity, node)
        decreases |OfNode(tables.suppression, identity, node)|
      {
        hide ClearsOnly, Suppression.WellFormed, Capped;
        ghost var mid := tables.suppression;
        var changed, certain := ClearBatch(identity, node, reliable);
        ClearsTwice(before, mid, tables.suppression, identity, node);
        if !certain {
          return Err(CommitUncertain);
        }
        if changed < BATCH {
          ClearedEmpties(before, tables.suppression, identity, node);
          return Ok(());
        }
      }
    }

    /** One transaction of at most 256 rows; says how many it deleted and whether its commit is certain. */
    method ClearBatch(identity: string, node: Node, reliable: bool) returns (changed: nat, certain: bool)
      requires Valid()
      modifies this
      ensures Valid() && tables == old(tables).(suppression := tables.suppression)
      ensures ClearsOnly(old(tables).suppression, tables.suppression, identity, node)
      ensures reliable ==> certain
      ensures changed == Min(BATCH, |OfNode(old(tables).suppression, identity, node)|)
      ensures certain ==> |OfNode(tables.suppression, identity, node)| == |OfNode(old(tables).suppression, identity, node)| - changed
    {
      var scope := OfNode(tables.suppression, identity, node);
      var some := PickBatch(scope);
      hide Capped, WellFormed, OfNode, ClearsOnly, Consistent, JournalOk;
      FewerRows(tables.suppression, some);
      ScopeShrinks(tables.suppression, some, identity, node);
      var fate: Fate :| reliable ==> fate.Certain?;
      Publish(tables.(suppression := tables.suppression - some), fate);
      SuppressionOnly();
      changed, certain := |some|, fate.Certain?;
    }

    /** The unexpired rows of an identity, decoded; refused when there are too many or one does not decode. */
    method LoadLedger(identity: string, now: nat) returns (r: Result<map<SlotKey, Codec.Record>, AdmissionError>)
      ensures var keys := set k | k in OfIdentity(tables.suppression, identity) && tables.suppression[k].expires > now;
              && (r.Ok? <==> |keys| <= MAX_IDENTITY && forall k :: k in keys ==> Codec.Decode(tables.suppression[k].record).Ok?)
              && (r.Ok? ==> r.value.Keys == keys && forall k :: k in keys ==> Codec.Decode(tables.suppression[k].record) == Ok(r.value[k]))
    {
      var keys := set k | k in OfIdentity(tables.suppression, identity) && tables.suppression[k].expires > now;
      if |keys| > MAX_IDENTITY {
        return Err(LedgerFull);
      }
      var loaded: map<SlotKey, Codec.Record>, todo := map[], keys;
      while todo != {}
        invariant todo <= keys && loaded.Keys == keys - todo
        invariant forall k :: k in loaded ==> Codec.Decode(tables.suppression[k].record) == Ok(loaded[k])
      {
        var k :| k in todo;
        var record := Codec.Decode(tables.suppression[k].record);
        if record.Err? {
          return Err(record.error);
        }
        loaded, todo := loaded[k := record.value], todo - {k};
      }
      return Ok(loaded);
    }

    /** In a valid store loading never fails. */
    lemma LoadsAll(identity: string, now: nat)
      requires Valid()
      ensures var keys := set k | k in OfIdentity(tables.suppression, identity) && tables.suppression[k].expires > now;
              |keys| <= MAX_IDENTITY && forall k :: k in keys ==> Codec.Decode(tables.suppression[k].record).Ok?
    {
      var keys := set k | k in OfIdentity(tables.suppression, identity) && tables.suppression[k].expires > now;
      SubsetSize(keys, OfIdentity(tables.suppression, identity));
    }

    /** One transaction that deletes at most 256 rows, at whatever time up to `until` the clock reads. */
    method RemoveBatch(batch: seq<SlotKey>, until: nat, reliable: bool, ghost before: Slots, ghost gone: set<SlotKey>)
      returns (answer: Result<(), AdmissionError>, ghost nowGone: set<SlotKey>)
      requires Capped(tables.suppression) && Evolved(before, tables.suppression, gone, map[], until) && |batch| <= BATCH
      modifies this
      ensures Capped(tables.suppression) && tables == old(tables).(suppression := tables.suppression)
      ensures Evolved(before, tables.suppression, nowGone, map[], until)
      ensures nowGone == gone + Keys(batch) || (answer.Err? && nowGone == gone)
      ensures answer.Err? ==> answer.error == CommitUncertain && !reliable
    {
      var now: nat, fate: Fate :| now <= until && (reliable ==> fate.Certain?);
      nowGone := gone;
      ghost var mid := tables.suppression;
      answer := WriteSuppression([], batch, now, fate);
      NothingRefills(mid, batch, now);
      if answer.Ok? || fate.Landed? {
        RemovalEvolves(before, mid, tables.suppression, gone, until, batch, now);
        nowGone := gone + Keys(batch);
      }
    }

    /** One transaction that writes at most 256 rows. */
    method WriteRows(batch: seq<Row>, until: nat, reliable: bool, ghost before: Slots, ghost gone: set<SlotKey>, ghost put: Slots,
                     ghost room: set<SlotKey>)
      returns (answer: Result<(), AdmissionError>, ghost nowPut: Slots)
      requires Capped(tables.suppression) && Evolved(before, tables.suppression, gone, put, until)
      requires !Oversized(batch, [])
      modifies this
      ensures Capped(tables.suppression) && tables == old(tables).(suppression := tables.suppression)
      ensures Evolved(before, tables.suppression, gone, nowPut, until)
      ensures nowPut == Written(put, batch) || (answer.Err? && nowPut == put)
      ensures answer.Err? ==> answer.error == LedgerFull || (answer.error == CommitUncertain && !reliable)
      ensures Hosts(room, old(tables).suppression, batch) ==> answer != Err(LedgerFull) && tables.suppression.Keys <= room
    {
      var now: nat, fate: Fate :| now <= until && (reliable ==> fate.Certain?);
      nowPut := put;
      ghost var mid := tables.suppression;
      answer := WriteSuppression(batch, [], now, fate);
      if answer.Ok? || (answer.error == CommitUncertain && fate.Landed?) {
        WritingEvolves(before, mid, tables.suppression, gone, put, until, batch, now);
        nowPut := Written(put, batch);
      }
      if Hosts(room, mid, batch) {
        RoomNeverRefills(mid, room, batch, [], now);
        WroteWithin(mid, tables.suppression, batch, now, room);
      }
    }

    /** Deletes the given rows of the snapshot's scope in chunks of 256. */
    method RemoveInBatches(s: Snapshot, remove: seq<SlotKey>, until: nat, reliable: bool)
      returns (answer: Result<(), AdmissionError>, ghost gone: set<SlotKey>)
      requires Capped(tables.suppression)
      modifies this
      ensures Capped(tables.suppression) && tables == old(tables).(suppression := tables.suppression)
      ensures Evolved(old(tables).suppression, tables.suppression, gone, map[], until)
      ensures gone <= Keys(remove) && (answer.Ok? ==> gone == Keys(remove))
      ensures answer.Err? ==> answer.error == CommitUncertain && !reliable
    {
      var i := 0;
      gone := {};
      NothingGoneYet(tables.suppression, until);
      hide Evolved, Capped, Keys;
      while i < |remove|
        invariant i <= |remove| && Capped(tables.suppression) && tables == old(tables).(suppression := tables.suppression)
        invariant Evolved(old(tables).suppression, tables.suppression, gone, map[], until)
        invariant gone == Keys(remove[..i])
        decreases |remove| - i
      {
        var end := Min(i + BATCH, |remove|);
        answer, gone := RemoveBatch(remove[i..end], until, reliable, old(tables).suppression, gone);
        KeysSplit(remove, i, end);
        KeysPrefix(remove, end);
        if answer.Err? {
          KeysPrefix(remove, i);
          return;
        }
        i := end;
      }
      assert remove[..|remove|] == remove;
      answer := Ok(());
    }

    /** Writes the records in batches of 256. */
    method WriteInBatches(rows: seq<Row>, until: nat, reliable: bool, ghost before: Slots, ghost gone: set<SlotKey>,
                          ghost room: set<SlotKey>)
      returns (answer: Result<(), AdmissionError>, ghost written: nat)
      requires Capped(tables.suppression) && Evolved(before, tables.suppression, gone, map[], until)
      requires forall r :: r in rows ==> Fits(r)
      modifies this
      ensures Capped(tables.suppression) && tables == old(tables).(suppression := tables.suppression)
      ensures written <= |rows|
      ensures Evolved(before, tables.suppression, gone, Written(map[], rows[..written]), until)
      ensures answer.Ok? ==> written == |rows|
      ensures answer.Err? ==> answer.error == LedgerFull || (answer.error == CommitUncertain && !reliable)
      ensures Hosts(room, old(tables).suppression, rows) ==> answer != Err(LedgerFull)
    {
      ghost var roomy := Hosts(room, tables.suppression, rows);
      NothingWrittenYet(rows);
      hide Evolved, Capped, Hosts, Fits, Written;
      var batch: seq<Row> := [];
      written := 0;
      for n := 0 to |rows|
        invariant Capped(tables.suppression) && tables == old(tables).(suppression := tables.suppression)
        invariant written <= n && batch == rows[written..n] && |batch| < BATCH
        invariant Evolved(before, tables.suppression, gone, Written(map[], rows[..written]), until)
        invariant roomy ==> Hosts(room, tables.suppression, rows)
      {
        batch := batch + [rows[n]];
        if |batch| == BATCH {
          answer, written := Flush(rows, n + 1, until, reliable, before, gone, n + 1 - BATCH, room);
          if answer.Err? { return; }
          batch := [];
        }
      }
      answer := Ok(());
      if batch != [] {
        answer, written := Flush(rows, |rows|, until, reliable, before, gone, |rows| - |batch|, room);
      }
    }

    /** Writes the rows gathered since the last flush. */
    method Flush(rows: seq<Row>, end: nat, until: nat, reliable: bool, ghost before: Slots, ghost gone: set<SlotKey>, from: nat,
                 ghost room: set<SlotKey>)
      returns (answer: Result<(), AdmissionError>, ghost written: nat)
      requires Capped(tables.suppression) && from <= end <= |rows| && end - from <= BATCH
      requires forall r :: r in rows ==> Fits(r)
      requires Evolved(before, tables.suppression, gone, Written(map[], rows[..from]), until)
      modifies this
      ensures Capped(tables.suppression) && tables == old(tables).(suppression := tables.suppression)
      ensures written <= end && (answer.Ok? ==> written == end)
      ensures Evolved(before, tables.suppression, gone, Written(map[], rows[..written]), until)
      ensures answer.Err? ==> answer.error == LedgerFull || (answer.error == CommitUncertain && !reliable)
      ensures Hosts(room, old(tables).suppression, rows) ==> answer != Err(LedgerFull) && Hosts(room, tables.suppression, rows)
    {
      hide Evolved, Capped, Hosts, Fits, Written, Oversized;
      ghost var put;
      SliceFits(rows, from, end);
      HostsSlice(room, tables.suppression, rows, from, end);
      answer, put := WriteRows(rows[from..end], until, reliable, before, gone, Written(map[], rows[..from]), room);
      WrittenConcat(map[], rows[..from], rows[from..end]);
      assert rows[..from] + rows[from..end] == rows[..end];
      written := if answer.Ok? || put != Written(map[], rows[..from]) then end else from;
    }

    /**
     * Bring the stored rows of one identity and node in line with the client's
     * ledger, while the clock reads at most `until`.
     */
    method PersistSuppression(s: Snapshot, until: nat, reliable: bool) returns (answer: Result<(), AdmissionError>)
      requires Valid() && Filed(s)
      modifies this
      ensures Valid() && tables == old(tables).(suppression := tables.suppression)
      ensures SparesOthers(old(tables).suppression, tables.suppression, s, until)
      ensures answer.Ok? ==> Synced(tables.suppression, s, until) && Mirrors(tables.suppression, s, until)
      ensures Spares(old(tables).suppression, tables.suppression, s, until)
      ensures answer.Err? ==> answer.error == LedgerFull || (answer.error == CommitUncertain && !reliable)
      ensures Roomy(Footprint(old(tables).suppression, s)) ==> answer != Err(LedgerFull)
    {
      var first: nat :| first <= until;
      ghost var before := tables.suppression;
      LoadsAll(Hex.Encode(s.identity), first);
      var loaded := LoadLedger(Hex.Encode(s.identity), first);
      var remove := Missing(s, loaded.value);
      assert Keys(remove) == Forgotten(before, s, first);
      assert forall k :: k in Keys(remove) ==> k in remove;
      var rows := LedgerRows(s);
      forall r | r in rows ensures Fits(r) { LedgerRowFits(s, r); }
      hide Evolved, Synced, SparesOthers, Filed, Suppression.WellFormed, Forgotten, Written, LedgerRow, RowOf, Mine, Fits;
      ghost var gone, written, room := {}, 0, Footprint(before, s);
      answer, gone := RemoveInBatches(s, remove, until, reliable);
      if answer.Ok? {
        FootprintHosts(before, tables.suppression, s, rows, gone, until);
        answer, written := WriteInBatches(rows, until, reliable, before, gone, room);
      }
      PassOutcome(before, tables.suppression, s, gone, rows, written, until, first, answer.Ok?);
      if answer.Ok? { SyncedMirrors(tables.suppression, s, until); }
      SparedIsSpared(before, tables.suppression, s, until);
      SuppressionOnly();
    }
  }

  /** The snapshot's records of its own scope, in whatever order the ledger holds them. */
  method LedgerRows(s: Snapshot) returns (rows: seq<Row>)
    requires Filed(s)
    ensures forall r :: r in rows ==> LedgerRow(s, r)
    ensures forall t :: t in Transients(s) ==> RowOf(s, t) in rows
  {
    rows := [];
    var todo := Transients(s);
    while todo != {}
      invariant todo <= Transients(s)
      invariant forall r :: r in rows ==> LedgerRow(s, r)
      invariant forall t :: t in Transients(s) - todo ==> RowOf(s, t) in rows
    {
      var t :| t in todo;
      rows, todo := rows + [RowOf(s, t)], todo - {t};
    }
  }

  /** The loaded rows of the snapshot's node that its ledger no longer holds. */
  method Missing(s: Snapshot, loaded: map<SlotKey, Codec.Record>) returns (remove: seq<SlotKey>)
    requires forall k :: k in loaded ==> KeyOf(loaded[k].scope) == k && k.identity == Hex.Encode(s.identity)
    ensures Keys(remove) == set k | k in loaded && Mine(s, k) && ScopeOf(s, k.transient) !in s.ledger
    ensures forall k :: k in remove ==> Mine(s, k)
  {
    hide Hex.Encode, Hex.Decode;
    remove := [];
    var todo := loaded.Keys;
    while todo != {}
      invariant todo <= loaded.Keys
      invariant forall k :: k in remove ==> Mine(s, k)
      invariant Keys(remove) == set k | k in loaded.Keys - todo && Mine(s, k) && ScopeOf(s, k.transient) !in s.ledger
    {
      var k :| k in todo;
      var scope := loaded[k].scope;
      Hex.DecodeInvertsEncode(scope.identity);
      Hex.DecodeInvertsEncode(s.identity);
      ghost var before := remove;
      if scope.node == s.node && scope !in s.ledger {
        remove := remove + [SlotKey(Hex.Encode(s.identity), scope.node, scope.transient)];
        assert Keys(remove) == Keys(before) + {k};
      }
      todo := todo - {k};
    }
  }
}
