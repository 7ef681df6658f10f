/** The table of suppressed downloads and the batches that keep it equal to the client's ledger. */
module Suppression {
  import opened Common
  import opened Tables
  import Hex
  import Codec = SuppressionCodec

  type Slots = map<SlotKey, Slot>

  datatype Row = Row(key: SlotKey, slot: Slot)

  const MAX_RECORD: nat := 512
  const MAX_GLOBAL: nat := 65536
  const MAX_IDENTITY: nat := 16384
  const MAX_NODE: nat := 4096

  function OfIdentity(t: Slots, identity: string): set<SlotKey> { set k | k in t && k.identity == identity }

  function OfNode(t: Slots, identity: string, node: Node): set<SlotKey> {
    set k | k in t && k.identity == identity && k.node == node
  }

  /** The three caps, which every write keeps. */
  ghost predicate Capped(t: Slots) {
    && |t.Keys| <= MAX_GLOBAL
    && (forall identity :: |OfIdentity(t, identity)| <= MAX_IDENTITY)
    && (forall identity, node :: |OfNode(t, identity, node)| <= MAX_NODE)
  }

  predicate Room(t: Slots, k: SlotKey) {
    && |t.Keys| < MAX_GLOBAL && |OfIdentity(t, k.identity)| < MAX_IDENTITY
    && |OfNode(t, k.identity, k.node)| < MAX_NODE
  }

  function Stale(t: Slots, now: nat): set<SlotKey> { set k | k in t && t[k].expires <= now }

  predicate Oversized(rows: seq<Row>, remove: seq<SlotKey>) {
    || |rows| + |remove| > BATCH
    || exists r | r in rows :: |r.slot.record| > MAX_RECORD || |r.key.identity| != 32
  }

  /** The table once the rows are written in order, later rows winning. */
  function Written(base: Slots, rows: seq<Row>): Slots {
    if rows == [] then base
    else var last := rows[|rows| - 1]; Written(base, rows[..|rows| - 1])[last.key := last.slot]
  }

  lemma {:induction false} WrittenSplits(base: Slots, rows: seq<Row>)
    ensures Written(base, rows) == base + Written(map[], rows)
  {
    if rows != [] {
      WrittenSplits(base, rows[..|rows| - 1]);
    }
  }

  function Keys(remove: seq<SlotKey>): set<SlotKey> { set k | k in remove }

  /** Some new row of the batch finds a cap reached when its turn comes. */
  ghost predicate Overflows(base: Slots, rows: seq<Row>) {
    exists n :: 0 <= n < |rows| && OverflowsAt(base, rows, n)
  }

  ghost predicate OverflowsAt(base: Slots, rows: seq<Row>, n: nat)
    requires n < |rows|
  {
    var t := Written(base, rows[..n]);
    rows[n].key !in t && !Room(t, rows[n].key)
  }

  lemma SubsetKeepsCapped(small: Slots, large: Slots)
    requires Capped(large) && small.Keys <= large.Keys
    ensures Capped(small)
  {
    SubsetSize(small.Keys, large.Keys);
    forall identity ensures |OfIdentity(small, identity)| <= MAX_IDENTITY {
      SubsetSize(OfIdentity(small, identity), OfIdentity(large, identity));
    }
    forall identity, node ensures |OfNode(small, identity, node)| <= MAX_NODE {
      SubsetSize(OfNode(small, identity, node), OfNode(large, identity, node));
    }
  }

  lemma RoomKeepsCapped(t: Slots, k: SlotKey, s: Slot)
    requires Capped(t) && (k in t || Room(t, k))
    ensures Capped(t[k := s])
  {
    var after := t[k := s];
    if k in t {
      SubsetKeepsCapped(after, t);
    } else {
      assert after.Keys == t.Keys + {k};
      forall identity ensures |OfIdentity(after, identity)| <= MAX_IDENTITY {
        SubsetSize(OfIdentity(after, identity), OfIdentity(t, identity) + if identity == k.identity then {k} else {});
      }
      forall identity, node ensures |OfNode(after, identity, node)| <= MAX_NODE {
        SubsetSize(OfNode(after, identity, node),
                   OfNode(t, identity, node) + if identity == k.identity && node == k.node then {k} else {});
      }
    }
  }

  // ----- What a batch does, row by row -----

  /** Too many changes at once, an oversized record, or a key that names no identity. */
  predicate Refused(rows: seq<Row>, remove: seq<SlotKey>) {
    || |rows| + |remove| > 256
    || exists i :: 0 <= i < |rows| && (|rows[i].slot.record| > 512 || |rows[i].key.identity| != 32)
  }

  /** A key among 65536 in all, 16384 of its identity or 4096 of its node. */
  ghost predicate Crowded(keys: set<SlotKey>, k: SlotKey) {
    || |keys| >= 65536
    || |set m | m in keys && m.identity == k.identity| >= 16384
    || |set m | m in keys && m.identity == k.identity && m.node == k.node| >= 4096
  }

  /** Row `n` is the last of its key. */
  ghost predicate Latest(rows: seq<Row>, n: nat)
    requires n < |rows|
  {
    forall m :: n < m < |rows| ==> rows[m].key != rows[n].key
  }

  ghost predicate Mentions(rows: seq<Row>, k: SlotKey) { exists n :: 0 <= n < |rows| && rows[n].key == k }

  /** The latest row of each key is stored, and no other key changes. */
  ghost predicate Upserted(base: Slots, rows: seq<Row>, after: Slots) {
    && (forall n :: 0 <= n < |rows| && Latest(rows, n) ==> rows[n].key in after && after[rows[n].key] == rows[n].slot)
    && (forall k :: !Mentions(rows, k) ==> (k in after <==> k in base))
    && (forall k :: !Mentions(rows, k) && k in base ==> after[k] == base[k])
  }

  lemma MentionsMore(rows: seq<Row>, row: Row, k: SlotKey)
    ensures Mentions(rows + [row], k) <==> Mentions(rows, k) || k == row.key
  {
    var more := rows + [row];
    if n :| 0 <= n < |rows| && rows[n].key == k { assert more[n].key == k; }
    if k == row.key { assert more[|rows|].key == k; }
    if n :| 0 <= n < |more| && more[n].key == k { assert n < |rows| ==> rows[n].key == k; }
  }

  lemma LatestMore(rows: seq<Row>, row: Row, n: nat)
    requires n < |rows| && Latest(rows + [row], n)
    ensures Latest(rows, n) && rows[n].key != row.key
  {
    var more := rows + [row];
    assert more[|rows|].key != more[n].key;
    forall m | n < m < |rows| ensures rows[m].key != rows[n].key { assert more[m].key != more[n].key; }
  }

  lemma UpsertMore(base: Slots, rows: seq<Row>, row: Row, t: Slots)
    requires Upserted(base, rows, t) && forall k :: k in t <==> k in base || Mentions(rows, k)
    ensures Upserted(base, rows + [row], t[row.key := row.slot])
    ensures forall k :: k in t[row.key := row.slot] <==> k in base || Mentions(rows + [row], k)
  {
    hide Latest, Mentions;
    var more, after := rows + [row], t[row.key := row.slot];
    forall k ensures Mentions(more, k) <==> Mentions(rows, k) || k == row.key { MentionsMore(rows, row, k); }
    forall n | 0 <= n < |more| && Latest(more, n) ensures more[n].key in after && after[more[n].key] == more[n].slot {
      if n < |rows| { LatestMore(rows, row, n); }
    }
  }

  lemma {:induction false} WrittenIs(base: Slots, rows: seq<Row>)
    ensures Upserted(base, rows, Written(base, rows))
    ensures forall k :: k in Written(base, rows) <==> k in base || Mentions(rows, k)
  {
    hide *;
    if rows != [] {
      var fewer, row := rows[..|rows| - 1], rows[|rows| - 1];
      WrittenIs(base, fewer);
      UpsertMore(base, fewer, row, Written(base, fewer));
      assert fewer + [row] == rows;
      WrittenLast(base, rows);
    } else {
      NothingIsUpserted(base);
    }
  }

  lemma NothingIsUpserted(base: Slots)
    ensures Written(base, []) == base && Upserted(base, [], base) && forall k :: !Mentions([], k)
  {
  }

  /** Row `n` is of a new key that finds one of the caps reached. */
  ghost predicate TurnedAway(kept: set<SlotKey>, rows: seq<Row>, n: nat)
    requires n < |rows|
  {
    var keys := kept + set m | 0 <= m < n :: rows[m].key;
    rows[n].key !in keys && Crowded(keys, rows[n].key)
  }

  lemma KeysBefore(base: Slots, rows: seq<Row>, n: nat)
    requires n < |rows|
    ensures Written(base, rows[..n]).Keys == base.Keys + set m | 0 <= m < n :: rows[m].key
  {
    WrittenIs(base, rows[..n]);
    hide Written, Upserted;
    forall k ensures Mentions(rows[..n], k) <==> exists m :: 0 <= m < n && rows[m].key == k {
      if m :| 0 <= m < n && rows[m].key == k { assert rows[..n][m].key == k; }
    }
  }

  lemma OverflowIff(base: Slots, rows: seq<Row>, n: nat)
    requires n < |rows|
    ensures OverflowsAt(base, rows, n) <==> TurnedAway(base.Keys, rows, n)
  {
    hide Written;
    var t := Written(base, rows[..n]);
    var keys := base.Keys + set m | 0 <= m < n :: rows[m].key;
    KeysBefore(base, rows, n);
    var k := rows[n].key;
    assert OfIdentity(t, k.identity) == set m | m in keys && m.identity == k.identity;
    assert OfNode(t, k.identity, k.node) == set m | m in keys && m.identity == k.identity && m.node == k.node;
  }

  /**
   * A batch is refused for its size, or because a new key finds a cap reached;
   * otherwise the rows it removes go, those it writes are stored, and only
   * expired rows may go besides.
   */
  ghost predicate Batched(t: Slots, rows: seq<Row>, remove: seq<SlotKey>, now: nat, purge: set<SlotKey>, r: Result<Slots, AdmissionError>) {
    var kept := set k | k in t && k !in purge && k !in remove;
    && (Refused(rows, remove) ==> r == Err(TooLarge))
    && (!Refused(rows, remove) && (exists n :: 0 <= n < |rows| && TurnedAway(kept, rows, n)) ==> r == Err(LedgerFull))
    && (!Refused(rows, remove) && (forall n :: 0 <= n < |rows| ==> !TurnedAway(kept, rows, n)) ==>
          r.Ok? && Upserted(map k | k in kept :: t[k], rows, r.value))
  }

  /** The expired rows to purge, or any 256 of them when there are more. */
  ghost predicate Purges(t: Slots, now: nat, purge: set<SlotKey>) {
    var expired := set k | k in t && t[k].expires <= now;
    purge <= expired && |purge| == if |expired| < 256 then |expired| else 256
  }

  /** A transaction purges, and then refuses the batch or does it. */
  ghost predicate Transacts(t: Slots, rows: seq<Row>, remove: seq<SlotKey>, now: nat, r: Result<Slots, AdmissionError>) {
    exists purge :: Purges(t, now, purge) && Batched(t, rows, remove, now, purge, r)
  }

  /**
   * One transaction: purge some expired rows, delete, then insert or replace
   * under the caps. A refused batch publishes nothing.
   */
  method WriteBatch(t: Slots, rows: seq<Row>, remove: seq<SlotKey>, now: nat, purge: set<SlotKey>)
    returns (r: Result<Slots, AdmissionError>)
    requires Capped(t) && purge <= Stale(t, now)
    ensures r.Err? ==> r.error == if Oversized(rows, remove) then TooLarge else LedgerFull
    ensures r.Err? <==> Oversized(rows, remove) || Overflows(t - purge - Keys(remove), rows)
    ensures r.Ok? ==> r.value == Written(t - purge - Keys(remove), rows) && Capped(r.value)
    ensures Batched(t, rows, remove, now, purge, r)
  {
    hide *;
    OversizedIff(rows, remove);
    if Oversized(rows, remove) {
      r := Err(TooLarge);
      BatchedWhenRefused(t, rows, remove, now, purge);
      return;
    }
    var tx := DeleteKeys(t - purge, remove);
    SubsetKeepsCapped(tx, t);
    var inserted := InsertRows(tx, rows);
    BatchedIs(t, rows, remove, now, purge, inserted);
    if inserted.None? { return Err(LedgerFull); }
    return Ok(inserted.value);
  }

  lemma OversizedIff(rows: seq<Row>, remove: seq<SlotKey>)
    ensures Oversized(rows, remove) <==> Refused(rows, remove)
  {
    if i :| 0 <= i < |rows| && (|rows[i].slot.record| > 512 || |rows[i].key.identity| != 32) {
      assert rows[i] in rows;
    }
  }

  lemma BatchedWhenRefused(t: Slots, rows: seq<Row>, remove: seq<SlotKey>, now: nat, purge: set<SlotKey>)
    requires Refused(rows, remove)
    ensures Batched(t, rows, remove, now, purge, Err(TooLarge))
  {
    hide Refused, TurnedAway;
  }

  lemma BatchedIs(t: Slots, rows: seq<Row>, remove: seq<SlotKey>, now: nat, purge: set<SlotKey>, inserted: Option<Slots>)
    requires !Refused(rows, remove)
    requires inserted.None? <==> Overflows(t - purge - Keys(remove), rows)
    requires inserted.Some? ==> inserted.value == Written(t - purge - Keys(remove), rows)
    ensures Batched(t, rows, remove, now, purge, if inserted.Some? then Ok(inserted.value) else Err(LedgerFull))
  {
    hide Refused, TurnedAway, OverflowsAt, Upserted, Written;
    var base := t - purge - Keys(remove);
    var kept := set k | k in t && k !in purge && k !in remove;
    assert base == map k | k in kept :: t[k];
    assert base.Keys == kept;
    forall n: nat | n < |rows| ensures OverflowsAt(base, rows, n) <==> TurnedAway(kept, rows, n) { OverflowIff(base, rows, n); }
    WrittenIs(base, rows);
  }

  method DeleteKeys(t: Slots, remove: seq<SlotKey>) returns (tx: Slots)
    ensures tx == t - Keys(remove)
  {
    tx := t;
    for n := 0 to |remove|
      invariant tx == t - Keys(remove[..n])
    {
      assert remove[..n + 1] == remove[..n] + [remove[n]];
      assert Keys(remove[..n + 1]) == Keys(remove[..n]) + {remove[n]};
      tx := tx - {remove[n]};
    }
    assert remove[..|remove|] == remove;
  }

  method InsertRows(base: Slots, rows: seq<Row>) returns (r: Option<Slots>)
    requires Capped(base)
    ensures r.None? <==> Overflows(base, rows)
    ensures r.Some? ==> r.value == Written(base, rows) && Capped(r.value)
  {
    var tx := base;
    for n := 0 to |rows|
      invariant tx == Written(base, rows[..n]) && Capped(tx)
      invariant forall m :: 0 <= m < n ==> !OverflowsAt(base, rows, m)
    {
      var k := rows[n].key;
      if k !in tx && !Room(tx, k) {
        assert OverflowsAt(base, rows, n);
        return None;
      }
      RoomKeepsCapped(tx, k, rows[n].slot);
      assert rows[..n + 1][..n] == rows[..n];
      tx := tx[k := rows[n].slot];
    }
    assert rows[..|rows|] == rows;
    return Some(tx);
  }

  // ----- The client's ledger -----

  /** Stored rows decode to the record their key names. */
  ghost predicate WellFormed(t: Slots) {
    forall k :: k in t ==>
      var r := Codec.Decode(t[k].record);
      r.Ok? && KeyOf(r.value.scope) == k && r.value.expires == t[k].expires
  }

  function KeyOf(s: Codec.Scope): SlotKey { SlotKey(Hex.Encode(s.identity), s.node, s.transient) }

  /** The client's ledger as handed to persistence for one identity and node. */
  datatype Snapshot = Snapshot(identity: Codec.Hash16, node: Codec.Hash16, ledger: map<Codec.Scope, Codec.Record>)

  /** The ledger files each valid record under its own scope. */
  predicate Filed(s: Snapshot) {
    forall k :: k in s.ledger ==> s.ledger[k].scope == k && Codec.Valid(s.ledger[k])
  }

  predicate Mine(s: Snapshot, k: SlotKey) { k.identity == Hex.Encode(s.identity) && k.node == s.node }

  function ScopeOf(s: Snapshot, transient: Digest): Codec.Scope { Codec.Scope(s.identity, s.node, transient) }

  function Transients(s: Snapshot): (ts: set<Digest>)
    ensures forall t: Digest :: t in ts <==> ScopeOf(s, t) in s.ledger
  {
    var ts := set k | k in s.ledger && k.identity == s.identity && k.node == s.node :: k.transient;
    assert forall t: Digest :: ScopeOf(s, t) in s.ledger ==> ScopeOf(s, t).transient in ts;
    ts
  }

  function RowOf(s: Snapshot, transient: Digest): Row
    requires Filed(s) && transient in Transients(s)
  {
    var r := s.ledger[ScopeOf(s, transient)];
    Codec.EncodingFits(r);
    Row(KeyOf(ScopeOf(s, transient)), Slot(Codec.Encode(r).value, r.expires))
  }

  /** Every row of the table is the stored form of a ledger record under its own key. */
  ghost predicate FromLedger(s: Snapshot, t: Slots)
    requires Filed(s)
  {
    forall k :: k in t ==> Mine(s, k) && k.transient in Transients(s) && t[k] == RowOf(s, k.transient).slot
  }

  predicate LedgerRow(s: Snapshot, row: Row)
    requires Filed(s)
  {
    row.key.transient in Transients(s) && row == RowOf(s, row.key.transient)
  }

  lemma WrittenLast(base: Slots, rows: seq<Row>)
    requires rows != []
    ensures var last := rows[|rows| - 1];
            Written(base, rows) == Written(base, rows[..|rows| - 1])[last.key := last.slot]
  {
  }

  lemma OneMoreLedgerRow(s: Snapshot, t: Slots, row: Row)
    requires Filed(s) && FromLedger(s, t) && LedgerRow(s, row)
    ensures FromLedger(s, t[row.key := row.slot])
  {
  }

  lemma {:induction false} LedgerRowsWritten(s: Snapshot, rows: seq<Row>)
    requires Filed(s) && forall r :: r in rows ==> LedgerRow(s, r)
    ensures FromLedger(s, Written(map[], rows))
    ensures forall r :: r in rows ==> r.key in Written(map[], rows)
  {
    hide LedgerRow, RowOf, Filed, Transients;
    if rows != [] {
      var last, before := rows[|rows| - 1], rows[..|rows| - 1];
      WrittenLast(map[], rows);
      hide Written, FromLedger;
      LedgerRowsWritten(s, before);
      OneMoreLedgerRow(s, Written(map[], before), last);
      assert rows == before + [last];
    }
  }

  lemma {:induction false} WrittenConcat(base: Slots, a: seq<Row>, b: seq<Row>)
    ensures Written(base, a + b) == Written(Written(base, a), b)
  {
    if b == [] {
      assert a + b == a;
    } else {
      WrittenConcat(base, a, b[..|b| - 1]);
      assert (a + b)[..|a + b| - 1] == a + b[..|b| - 1];
    }
  }

  /** After the rows in `gone` were deleted and `put` written, with expired rows lost up to `latest`. */
  ghost predicate Evolved(before: Slots, after: Slots, gone: set<SlotKey>, put: Slots, latest: nat) {
    && (forall k :: k in put ==> if k in after then after[k] == put[k] else put[k].expires <= latest)
    && (forall k :: k in after && k !in put ==> k in before && after[k] == before[k] && k !in gone)
    && (forall k :: k in before && k !in put && k !in gone && k !in after ==> before[k].expires <= latest)
  }

  lemma NothingGoneYet(t: Slots, latest: nat)
    ensures Evolved(t, t, {}, map[], latest) && forall remove: seq<SlotKey> :: Keys(remove[..0]) == {}
  {
  }

  lemma KeysPrefix(remove: seq<SlotKey>, end: nat)
    requires end <= |remove|
    ensures Keys(remove[..end]) <= Keys(remove)
  {
  }

  lemma KeysSplit(remove: seq<SlotKey>, i: nat, end: nat)
    requires i <= end <= |remove|
    ensures Keys(remove[..end]) == Keys(remove[..i]) + Keys(remove[i..end])
  {
    assert remove[..end] == remove[..i] + remove[i..end];
  }

  lemma NothingWrittenYet(rows: seq<Row>)
    ensures Written(map[], rows[..0]) == map[]
  {
  }

  /** `after` is `before` less some expired rows and the removed ones, with the batch's rows written. */
  ghost predicate Wrote(before: Slots, after: Slots, rows: seq<Row>, remove: seq<SlotKey>, now: nat) {
    exists purge :: purge <= Stale(before, now) && |purge| <= BATCH && after == Written(before - purge - Keys(remove), rows)
  }

  /** Rows are only deleted, and only in this identity and node. */
  ghost predicate ClearsOnly(before: Slots, after: Slots, identity: string, node: Node) {
    && (forall k :: k in after ==> k in before && after[k] == before[k])
    && (forall k :: k in before && !(k.identity == identity && k.node == node) ==> k in after)
  }

  /** The table without the rows of one identity and node. */
  ghost predicate Empties(before: Slots, after: Slots, identity: string, node: Node) {
    after == map k | k in before && (k.identity != identity || k.node != node) :: before[k]
  }

  lemma ClearedEmpties(before: Slots, after: Slots, identity: string, node: Node)
    requires ClearsOnly(before, after, identity, node) && OfNode(after, identity, node) == {}
    ensures Empties(before, after, identity, node)
  {
    forall k | k in after ensures k.identity != identity || k.node != node {
      assert k !in OfNode(after, identity, node);
    }
  }

  lemma ClearsTwice(a: Slots, b: Slots, c: Slots, identity: string, node: Node)
    requires ClearsOnly(a, b, identity, node) && ClearsOnly(b, c, identity, node)
    ensures ClearsOnly(a, c, identity, node)
  {
  }

  /** With at most 256 expired rows purged, some new row still meets a cap. */
  ghost predicate Refills(before: Slots, rows: seq<Row>, remove: seq<SlotKey>, now: nat) {
    exists purge :: purge <= Stale(before, now) && |purge| <= BATCH && Overflows(before - purge - Keys(remove), rows)
  }

  function KeysOf(keys: set<SlotKey>, identity: string): set<SlotKey> { set k | k in keys && k.identity == identity }

  function KeysAt(keys: set<SlotKey>, identity: string, node: Node): set<SlotKey> {
    set k | k in keys && k.identity == identity && k.node == node
  }

  /** The three caps, of a set of keys. */
  ghost predicate Roomy(keys: set<SlotKey>) {
    && |keys| <= MAX_GLOBAL
    && (forall identity :: |KeysOf(keys, identity)| <= MAX_IDENTITY)
    && (forall identity, node :: |KeysAt(keys, identity, node)| <= MAX_NODE)
  }

  /** The caps have room for everything stored and everything to be written. */
  ghost predicate Hosts(room: set<SlotKey>, t: Slots, rows: seq<Row>) {
    Roomy(room) && t.Keys <= room && forall r :: r in rows ==> r.key in room
  }

  lemma HostsSlice(room: set<SlotKey>, t: Slots, rows: seq<Row>, from: nat, end: nat)
    requires from <= end <= |rows|
    ensures Hosts(room, t, rows) ==> Hosts(room, t, rows[from..end])
    ensures forall u: Slots :: Hosts(room, t, rows) && u.Keys <= room ==> Hosts(room, u, rows)
  {
    hide Roomy;
  }

  lemma {:induction false} WrittenKeys(base: Slots, rows: seq<Row>)
    ensures forall k :: k in Written(base, rows) ==> k in base || exists r :: r in rows && r.key == k
  {
    if rows != [] {
      WrittenKeys(base, rows[..|rows| - 1]);
      forall k | k in Written(base, rows) && k !in base ensures exists r :: r in rows && r.key == k {
        if k != rows[|rows| - 1].key {
          var r :| r in rows[..|rows| - 1] && r.key == k;
          assert r in rows;
        } else {
          assert rows[|rows| - 1] in rows;
        }
      }
    }
  }

  lemma RoomIsLeft(t: Slots, room: set<SlotKey>, k: SlotKey)
    requires Roomy(room) && t.Keys <= room && k in room && k !in t
    ensures Room(t, k)
  {
    SubsetSize(t.Keys + {k}, room);
    SubsetSize(OfIdentity(t, k.identity) + {k}, KeysOf(room, k.identity));
    SubsetSize(OfNode(t, k.identity, k.node) + {k}, KeysAt(room, k.identity, k.node));
  }

  /** Where there is room for all of it, no row meets a cap, whatever is purged first. */
  lemma RoomNeverRefills(t: Slots, room: set<SlotKey>, rows: seq<Row>, remove: seq<SlotKey>, now: nat)
    requires Hosts(room, t, rows)
    ensures !Refills(t, rows, remove, now)
  {
    forall purge, n | 0 <= n < |rows| && OverflowsAt(t - purge - Keys(remove), rows, n) ensures false {
      var base := t - purge - Keys(remove);
      var part := Written(base, rows[..n]);
      WrittenKeys(base, rows[..n]);
      assert part.Keys <= room;
      assert rows[n] in rows;
      RoomIsLeft(part, room, rows[n].key);
    }
  }

  /** Everything stored, and the ledger's own rows. */
  function Footprint(t: Slots, s: Snapshot): set<SlotKey>
    requires Filed(s)
  {
    t.Keys + set t <- Transients(s) :: KeyOf(ScopeOf(s, t))
  }

  lemma FootprintHosts(before: Slots, now: Slots, s: Snapshot, rows: seq<Row>, gone: set<SlotKey>, until: nat)
    requires Filed(s) && (forall r :: r in rows ==> LedgerRow(s, r)) && Evolved(before, now, gone, map[], until)
    ensures Roomy(Footprint(before, s)) ==> Hosts(Footprint(before, s), now, rows)
  {
    hide Roomy;
  }

  lemma WroteWithin(before: Slots, after: Slots, rows: seq<Row>, now: nat, room: set<SlotKey>)
    requires Hosts(room, before, rows) && (after == before || Wrote(before, after, rows, [], now))
    ensures after.Keys <= room
  {
    hide Roomy;
    if after != before {
      var purge :| purge <= Stale(before, now) && |purge| <= BATCH && after == Written(before - purge - Keys([]), rows);
      WrittenKeys(before - purge - Keys([]), rows);
    }
  }

  lemma NothingRefills(before: Slots, remove: seq<SlotKey>, now: nat)
    ensures !Refills(before, [], remove, now)
  {
  }

  /** A row small enough for every batch. */
  predicate Fits(r: Row) { |r.slot.record| <= MAX_RECORD && |r.key.identity| == 32 }

  lemma SliceFits(rows: seq<Row>, from: nat, end: nat)
    requires from <= end <= |rows| && end - from <= BATCH && forall r :: r in rows ==> Fits(r)
    ensures !Oversized(rows[from..end], [])
  {
    forall r | r in rows[from..end] ensures Fits(r) { assert r in rows; }
  }

  lemma LedgerRowFits(s: Snapshot, r: Row)
    requires Filed(s) && LedgerRow(s, r)
    ensures Fits(r)
  {
    Codec.EncodingFits(s.ledger[ScopeOf(s, r.key.transient)]);
  }

  lemma RemovalEvolves(before: Slots, mid: Slots, after: Slots, gone: set<SlotKey>, latest: nat,
                       remove: seq<SlotKey>, now: nat)
    requires now <= latest && Evolved(before, mid, gone, map[], latest) && Wrote(mid, after, [], remove, now)
    ensures Evolved(before, after, gone + Keys(remove), map[], latest)
  {
    var purge :| purge <= Stale(mid, now) && |purge| <= BATCH && after == Written(mid - purge - Keys(remove), []);
    assert Written(mid - purge - Keys(remove), []) == mid - purge - Keys(remove);
  }

  lemma WritingEvolves(before: Slots, mid: Slots, after: Slots, gone: set<SlotKey>, put: Slots, latest: nat,
                       rows: seq<Row>, now: nat)
    requires now <= latest && Evolved(before, mid, gone, put, latest) && Wrote(mid, after, rows, [], now)
    ensures Evolved(before, after, gone, Written(put, rows), latest)
  {
    var purge :| purge <= Stale(mid, now) && |purge| <= BATCH && after == Written(mid - purge - Keys([]), rows);
    WrittenSplits(mid - purge - Keys([]), rows);
    WrittenSplits(put, rows);
    assert mid - purge - Keys([]) == mid - purge;
  }

  /** The unexpired rows of the snapshot's identity and node are exactly the ledger's unexpired records. */
  ghost predicate Synced(after: Slots, s: Snapshot, now: nat)
    requires Filed(s)
  {
    forall k :: Mine(s, k) ==>
      var scope := ScopeOf(s, k.transient);
      if scope in s.ledger && s.ledger[scope].expires > now
      then k in after && after[k] == RowOf(s, k.transient).slot
      else k in after ==> after[k].expires <= now
  }

  /** Rows of other identities and nodes change only by expiring. */
  ghost predicate SparesOthers(before: Slots, after: Slots, s: Snapshot, latest: nat) {
    && (forall k :: k in after && !Mine(s, k) ==> k in before && after[k] == before[k])
    && (forall k :: k in before && !Mine(s, k) && k !in after ==> before[k].expires <= latest)
  }

  /** Read back, the rows of the ledger's identity and node say what the ledger says, but for what has expired. */
  ghost predicate Mirrors(after: Slots, s: Snapshot, now: nat) {
    forall transient: Digest ::
      var k, scope := SlotKey(Hex.Encode(s.identity), s.node, transient), Codec.Scope(s.identity, s.node, transient);
      if scope in s.ledger && s.ledger[scope].expires > now
      then k in after && after[k].expires == s.ledger[scope].expires && Codec.Decode(after[k].record) == Ok(s.ledger[scope])
      else k in after ==> after[k].expires <= now
  }

  /** A row of another identity or another node can only expire. */
  ghost predicate Spares(before: Slots, after: Slots, s: Snapshot, now: nat) {
    forall k: SlotKey :: k.identity != Hex.Encode(s.identity) || k.node != s.node ==>
      if k in after then k in before && after[k] == before[k] else k in before ==> before[k].expires <= now
  }

  lemma SyncedMirrors(after: Slots, s: Snapshot, now: nat)
    requires Filed(s) && Synced(after, s, now)
    ensures Mirrors(after, s, now)
  {
    hide Codec.Decode, Codec.Encode, Hex.Encode;
    forall transient: Digest | ScopeOf(s, transient) in s.ledger
      ensures Codec.Decode(RowOf(s, transient).slot.record) == Ok(s.ledger[ScopeOf(s, transient)])
    {
      Codec.DecodeInvertsEncode(s.ledger[ScopeOf(s, transient)]);
    }
    forall transient: Digest ensures Mine(s, SlotKey(Hex.Encode(s.identity), s.node, transient)) {}
  }

  lemma SparedIsSpared(before: Slots, after: Slots, s: Snapshot, now: nat)
    requires SparesOthers(before, after, s, now)
    ensures Spares(before, after, s, now)
  {
  }

  lemma EvolvedIsSynced(before: Slots, after: Slots, s: Snapshot, gone: set<SlotKey>, put: Slots, latest: nat, first: nat, now: nat)
    requires Filed(s) && first <= latest <= now
    requires Evolved(before, after, gone, put, latest) && FromLedger(s, put)
    requires forall t :: t in Transients(s) ==> KeyOf(ScopeOf(s, t)) in put
    requires forall k :: k in before && Mine(s, k) && before[k].expires > first && ScopeOf(s, k.transient) !in s.ledger ==> k in gone
    ensures Synced(after, s, now)
  {
    forall k | Mine(s, k)
      ensures k in put <==> ScopeOf(s, k.transient) in s.ledger
    {
      assert KeyOf(ScopeOf(s, k.transient)) == k;
    }
  }

  lemma EvolvedSpares(before: Slots, after: Slots, s: Snapshot, gone: set<SlotKey>, put: Slots, latest: nat)
    requires Evolved(before, after, gone, put, latest)
    requires (forall k :: k in gone ==> Mine(s, k)) && (forall k :: k in put ==> Mine(s, k))
    ensures SparesOthers(before, after, s, latest)
  {
  }

  lemma EvolvedKeepsWellFormed(before: Slots, after: Slots, s: Snapshot, gone: set<SlotKey>, put: Slots, latest: nat)
    requires WellFormed(before) && Filed(s) && FromLedger(s, put) && Evolved(before, after, gone, put, latest)
    ensures WellFormed(after)
  {
    forall k | k in put
      ensures Codec.Decode(put[k].record) == Ok(s.ledger[ScopeOf(s, k.transient)]) && KeyOf(ScopeOf(s, k.transient)) == k
    {
      Codec.DecodeInvertsEncode(s.ledger[ScopeOf(s, k.transient)]);
    }
  }

  /** What a whole pass establishes: the removals `gone`, then the first `written` of the ledger's rows. */
  lemma PassOutcome(before: Slots, after: Slots, s: Snapshot, gone: set<SlotKey>, rows: seq<Row>, written: nat,
                    latest: nat, first: nat, complete: bool)
    requires Filed(s) && WellFormed(before) && written <= |rows| && first <= latest
    requires (forall r :: r in rows ==> LedgerRow(s, r)) && (forall t :: t in Transients(s) ==> RowOf(s, t) in rows)
    requires Evolved(before, after, gone, Written(map[], rows[..written]), latest) && forall k :: k in gone ==> Mine(s, k)
    requires complete ==> written == |rows| && gone == Forgotten(before, s, first)
    ensures WellFormed(after) && SparesOthers(before, after, s, latest)
    ensures complete ==> forall now: nat :: latest <= now ==> Synced(after, s, now)
  {
    var put := Written(map[], rows[..written]);
    LedgerRowsWritten(s, rows[..written]);
    EvolvedKeepsWellFormed(before, after, s, gone, put, latest);
    EvolvedSpares(before, after, s, gone, put, latest);
    if complete {
      assert rows[..written] == rows;
      forall t | t in Transients(s) ensures KeyOf(ScopeOf(s, t)) in put {
        assert RowOf(s, t) in rows;
      }
      forall now: nat | latest <= now ensures Synced(after, s, now) {
        EvolvedIsSynced(before, after, s, gone, put, latest, first, now);
      }
    }
  }

  /** Rows of the snapshot's scope, unexpired at `first`, that its ledger no longer holds. */
  function Forgotten(t: Slots, s: Snapshot, first: nat): set<SlotKey> {
    set k | k in t && Mine(s, k) && t[k].expires > first && ScopeOf(s, k.transient) !in s.ledger
  }
}
