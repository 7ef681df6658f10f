/**
 * Committing one downloaded message: its intent, its archive and its files are
 * durable before the transaction, and the intent goes only once the archive is
 * referenced.
 */
module Delivery {
  import opened Common
  import opened Tables
  import opened Disk
  import opened Admission
  import Hex
  import Store

  function StagingIntent(p: Plan): Staged {
    Intent(p.identity, p.transient, p.message, p.wire, p.archive, p.files, 0)
  }

  /** A plan as admission makes it: the archive is named by the hashes, and at most two files have plain names. */
  predicate WellNamed(p: Plan) {
    && p.archive == "identities/" + p.identity + "/propagation-admissions/" + Hex.Encode(p.message) + "-" + Hex.Encode(p.wire) + ".lxm"
    && |p.files| <= 2
    && forall f :: f in p.files ==> PlainName(f.name)
  }

  predicate PlainName(name: string) {
    && 1 <= |name| <= 128 && name != "." && name != ".."
    && forall c :: c in name ==> 'a' <= c <= 'z' || 'A' <= c <= 'Z' || '0' <= c <= '9' || c == '.' || c == '-'
  }

  lemma PlainIff(name: string)
    ensures PlainName(name) <==> SafeName(name)
  {
  }

  /** An intent is believed exactly if staging a well-named plan under that name would have written it. */
  lemma GenuineIff(identity: string, name: Digest, s: Staged, node: Node, game: Option<GameRef>, at: nat)
    ensures Genuine(identity, name, s) <==>
              && s.Intent?
              && var p := Plan(identity, name, node, s.message, s.wire, s.archive, s.media, game, at);
              WellNamed(p) && s == StagingIntent(p).(age := s.age)
  {
    hide SafeName, PlainName;
    if s.Intent? {
      forall f | f in s.media ensures PlainName(f.name) <==> SafeName(f.name) { PlainIff(f.name); }
    }
  }

  /** A directory that holds 4096 intents takes no new one, and one that holds more is not listed. */
  predicate Room(home: Home, p: Plan) {
    |home.intents| < MAX_STAGING_INTENTS || (|home.intents| == MAX_STAGING_INTENTS && p.transient in home.intents)
  }

  /** Files are only added, and only this message's: its intent first, its archive next, its attachments last. */
  ghost predicate Grown(p: Plan, before: Home, after: Home) {
    && before.archives <= after.archives <= before.archives + {p.archive}
    && before.media <= after.media <= before.media + NamesOf(p.files)
    && (after == before || after.intents == before.intents[p.transient := StagingIntent(p)])
    && (after.media != before.media ==> p.archive in after.archives)
  }

  /** Everything the effect will need is durable. */
  ghost predicate Ready(p: Plan, before: Home, after: Home) {
    && after.intents == before.intents[p.transient := StagingIntent(p)]
    && p.archive in after.archives && NamesOf(p.files) <= after.media
  }

  /** Intent, archive, files, in this order; each write may fail, or land although it reports failure. */
  method Stage(disk: Files, p: Plan, reliable: bool) returns (ok: bool)
    modifies disk
    ensures forall other :: other != p.identity ==> disk.At(other) == old(disk.At(other))
    ensures Grown(p, old(disk.At(p.identity)), disk.At(p.identity))
    ensures reliable ==> ok
    ensures ok ==> Ready(p, old(disk.At(p.identity)), disk.At(p.identity))
  {
    ghost var start := disk.At(p.identity);
    ok := disk.WriteIntent(p.identity, p.transient, StagingIntent(p), reliable);
    if !ok { return; }
    ok := disk.WriteArchive(p.identity, p.archive, reliable);
    if !ok { return; }
    ghost var held := disk.At(p.identity);
    for i := 0 to |p.files|
      invariant forall other :: other != p.identity ==> disk.At(other) == old(disk.At(other))
      invariant disk.At(p.identity) == held.(media := disk.At(p.identity).media)
      invariant start.media <= disk.At(p.identity).media <= start.media + NamesOf(p.files)
      invariant NamesOf(p.files[..i]) <= disk.At(p.identity).media
    {
      assert p.files[i].name in NamesOf(p.files);
      assert NamesOf(p.files[..i + 1]) == NamesOf(p.files[..i]) + {p.files[i].name};
      ok := disk.WriteMedia(p.identity, p.files[i].name, reliable);
      if !ok { return; }
    }
    assert p.files[..|p.files|] == p.files;
  }

  /** A game whose session cannot be restored after its commit makes the caller see an error. */
  function Hydrated(answer: Result<Ticket, AdmissionError>, p: Plan, hydrates: bool): Result<Ticket, AdmissionError> {
    if answer.Ok? && answer.value.disposition == Committed && p.game.Some? && !hydrates then Err(Unavailable) else answer
  }

  /** A game was committed for the first time, and its session could not be restored. */
  predicate Unrestored(answer: Result<Ticket, AdmissionError>, p: Plan, hydrates: bool) {
    answer.Ok? && answer.value.disposition == Committed && p.game.Some? && !hydrates
  }

  /**
   * What a delivery may leave, wherever it stops: the tables change only once
   * everything is durable, and the intent stays until the archive is referenced.
   */
  ghost predicate Delivered(t: Tables, before: Home, p: Plan, h: Handlers, purge: set<Key>, fate: Fate, u: Tables, after: Home) {
    && (u == t || (Purgeable(t.receipts, p.at, purge) && u == Outcome(t, p, h, purge, fate).0
                   && p.archive in after.archives && NamesOf(p.files) <= after.media))
    && before.archives <= after.archives <= before.archives + {p.archive}
    && before.media <= after.media <= before.media + NamesOf(p.files)
    && (after.media != before.media ==> p.archive in after.archives)
    && (|| after == before
        || after.intents == before.intents[p.transient := StagingIntent(p)]
        || (after.intents == before.intents - {p.transient} && ReferencesArchive(u, p.identity, p.archive)))
  }

  lemma StagingDelivers(t: Tables, before: Home, p: Plan, h: Handlers, purge: set<Key>, fate: Fate, after: Home)
    requires Grown(p, before, after)
    ensures Delivered(t, before, p, h, purge, fate, t, after)
  {
    hide Outcome;
  }

  lemma CommitDelivers(t: Tables, before: Home, p: Plan, h: Handlers, purge: set<Key>, fate: Fate, after: Home)
    requires Grown(p, before, after) && Ready(p, before, after) && Purgeable(t.receipts, p.at, purge)
    ensures Delivered(t, before, p, h, purge, fate, Outcome(t, p, h, purge, fate).0, after)
  {
    hide Outcome;
  }

  lemma UnlinkDelivers(t: Tables, before: Home, p: Plan, h: Handlers, purge: set<Key>, fate: Fate, u: Tables, mid: Home, after: Home)
    requires Delivered(t, before, p, h, purge, fate, u, mid) && Ready(p, before, mid) && ReferencesArchive(u, p.identity, p.archive)
    requires after == mid || after == mid.(intents := mid.intents - {p.transient})
    ensures Delivered(t, before, p, h, purge, fate, u, after)
  {
    hide Outcome, ReferencesArchive;
    assert before.intents[p.transient := StagingIntent(p)] - {p.transient} == before.intents - {p.transient};
  }

  lemma RoomIff(home: Home, p: Plan)
    ensures Room(home, p) <==> !(|home.intents| > 4096 || (|home.intents| == 4096 && p.transient !in home.intents))
  {
  }

  lemma FilesAreThere(p: Plan, before: Home, after: Home)
    requires Ready(p, before, after)
    ensures p.archive in after.archives && forall f :: f in p.files ==> f.name in after.media
  {
    forall f | f in p.files ensures f.name in NamesOf(p.files) {
      var i :| 0 <= i < |p.files| && p.files[i] == f;
    }
  }

  method HasRoom(disk: Files, p: Plan) returns (room: bool)
    ensures room == Room(disk.At(p.identity), p)
  {
    var listed := disk.At(p.identity).intents;
    if |listed| > MAX_STAGING_INTENTS {
      return false;
    }
    return |listed| < MAX_STAGING_INTENTS || p.transient in listed;
  }

  /** The intent goes once the archive is referenced; a removal that fails leaves it for a later pass. */
  method Unlink(disk: Files, store: Store.DurableInboundStore, p: Plan, reliable: bool)
    modifies disk
    ensures forall other :: other != p.identity ==> disk.At(other) == old(disk.At(other))
    ensures disk.At(p.identity) == old(disk.At(p.identity))
            || disk.At(p.identity) == old(disk.At(p.identity)).(intents := old(disk.At(p.identity)).intents - {p.transient})
    ensures !ReferencesArchive(store.tables, p.identity, p.archive) ==> disk.At(p.identity) == old(disk.At(p.identity))
    ensures reliable && ReferencesArchive(store.tables, p.identity, p.archive) ==> p.transient !in disk.At(p.identity).intents
  {
    hide ReferencesArchive;
    if ReferencesArchive(store.tables, p.identity, p.archive) {
      var _ := disk.RemoveIntent(p.identity, p.transient, reliable);
    }
  }

  method CommitMessage(disk: Files, store: Store.DurableInboundStore, p: Plan, h: Handlers, fate: Fate,
                       hydrates: bool, reliable: bool)
    returns (r: Result<Ticket, AdmissionError>, ghost purge: set<Key>)
    requires store.Valid()
    modifies disk, store
    ensures store.Valid()
    ensures forall other :: other != p.identity ==> disk.At(other) == old(disk.At(other))
    ensures Delivered(old(store.tables), old(disk.At(p.identity)), p, h, purge, fate, store.tables, disk.At(p.identity))
    ensures |old(disk.At(p.identity)).intents| > 4096
            || (|old(disk.At(p.identity)).intents| == 4096 && p.transient !in old(disk.At(p.identity)).intents) ==>
              r == Err(LedgerFull) && disk.At(p.identity) == old(disk.At(p.identity))
    ensures r.Ok? ==> p.archive in disk.At(p.identity).archives && forall f :: f in p.files ==> f.name in disk.At(p.identity).media
    ensures !Room(old(disk.At(p.identity)), p) ==> r == Err(LedgerFull) && store.tables == old(store.tables)
    ensures r.Ok? || (reliable && Room(old(disk.At(p.identity)), p)) ==>
              && r == Hydrated(Outcome(old(store.tables), p, h, purge, fate).1, p, hydrates)
              && r == (if Unrestored(Outcome(old(store.tables), p, h, purge, fate).1, p, hydrates) then Err(Unavailable)
                       else Outcome(old(store.tables), p, h, purge, fate).1)
              && store.tables == Outcome(old(store.tables), p, h, purge, fate).0
    ensures r.Ok? && reliable ==>
              (p.transient in disk.At(p.identity).intents <==> !ReferencesArchive(store.tables, p.identity, p.archive))
  {
    ghost var t, before := store.tables, disk.At(p.identity);
    purge := {};
    assert Grown(p, before, before);
    hide Outcome, ReferencesArchive, Room, Purgeable, Consistent, JournalOk, Delivered, Grown;
    StagingDelivers(t, before, p, h, purge, fate, before);
    var room := HasRoom(disk, p);
    RoomIff(before, p);
    if !room { return Err(LedgerFull), {}; }
    var staged := Stage(disk, p, reliable);
    ghost var mid := disk.At(p.identity);
    StagingDelivers(t, before, p, h, purge, fate, mid);
    if !staged { return Err(Unavailable), {}; }
    r, purge := store.Commit(p, h, fate);
    CommitDelivers(t, before, p, h, purge, fate, mid);
    if r.Err? { return r, purge; }
    if r.value.disposition == Committed && p.game.Some? && !hydrates { return Err(Unavailable), purge; }
    FilesAreThere(p, before, mid);
    Unlink(disk, store, p, reliable);
    if ReferencesArchive(store.tables, p.identity, p.archive) {
      UnlinkDelivers(t, before, p, h, purge, fate, store.tables, mid, disk.At(p.identity));
    }
  }
}
