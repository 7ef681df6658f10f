/**
 * User deletion: one transaction revokes receipts and effects, leaves
 * tombstones, and journals the files the removed rows named.
 */
module Deletion {
  import opened Common
  import opened Tables
  import Hex

  const MAX_SELECTED_DELETION: nat := 500
  const UNAVAILABLE_NAME: string := "!unavailable"

  /** The filters of one deletion; an absent filter selects everything. */
  datatype Scope = Scope(identity: string, peer: Option<string>, thread: Option<string>, ids: Option<seq<string>>)

  predicate InScope(s: Scope, k: RowKey, row: MessageRow) {
    && k.identity == s.identity
    && (s.peer.None? || row.source == s.peer.value || row.destination == s.peer.value)
    && (s.ids.None? || k.id in s.ids.value)
    && (s.thread.None? || row.thread == s.thread.value)
  }

  function Selected(app: App, s: Scope): set<RowKey> {
    set k | k in app.messages && InScope(s, k, app.messages[k])
  }

  function Lower(text: string): string {
    seq(|text|, i requires 0 <= i < |text| =>
      if 'A' <= text[i] <= 'Z' then (text[i] as int + 32) as char else text[i])
  }

  predicate StillBeingSent(row: MessageRow) {
    && row.direction == "outbound"
    && row.state !in {"delivered", "propagated", "failed", "cancelled", "rejected", "timeout", "read"}
    && !(row.state == "sent" && Lower(row.method_) != "direct")
  }

  /** The 32-byte message id a row's text spells, if it does. */
  function MessageId(id: string): Option<Digest> {
    match Hex.Decode(id)
    case Some(bytes) => if |bytes| == 32 then Some(bytes) else None
    case None => None
  }

  predicate Oversized(k: RowKey, row: MessageRow) {
    |k.id| > 128 || |k.identity| > 128 || |row.attachment| > 1024 || |row.image| > 1024 || |row.audio| > 1024
  }

  predicate RealFile(name: string) { name != "" && name != UNAVAILABLE_NAME }

  function Named(identity: string, names: seq<string>): set<Artifact> {
    set name | name in names && RealFile(name) :: Artifact(identity, Media, name)
  }

  function MediaOf(k: RowKey, row: MessageRow): set<Artifact> {
    Named(k.identity, [row.attachment, row.image, row.audio])
  }

  /** The admission keys the given rows stand for. */
  function Doomed(rows: set<RowKey>): set<Key> {
    set k | k in rows && MessageId(k.id).Some? :: Key(k.identity, MessageId(k.id).value)
  }

  function MediaOfAll(app: App, rows: set<RowKey>): set<Artifact>
    requires rows <= app.messages.Keys
  {
    set k, a | k in rows && a in MediaOf(k, app.messages[k]) :: a
  }

  function ArchivesOf(effects: map<Key, Effect>, keys: set<Key>): set<Artifact> {
    set k | k in keys && k in effects :: Artifact(k.identity, Archive, effects[k].archive)
  }

  function Revoked(receipts: map<Key, Receipt>, keys: set<Key>): map<Key, Receipt> {
    map k | k in receipts && Key(k.identity, receipts[k].message) !in keys :: receipts[k]
  }

  /** Earlier tombstones keep their time. */
  function Buried(deleted: map<Key, nat>, keys: set<Key>, now: nat): map<Key, nat> {
    map k | k in deleted.Keys + keys :: if k in deleted then deleted[k] else now
  }

  /** The application rows left once `rows` are gone. */
  function Swept(app: App, s: Scope, rows: set<RowKey>): App {
    var reactions := set r | r in app.reactions && RowKey(r.identity, r.message) !in rows :: r;
    var swept := app.(messages := app.messages - rows, reactions := reactions);
    if s.ids.Some? then swept
    else swept.(
      hidden := if s.peer.Some? && s.thread.None? then app.hidden - {Hidden(s.identity, s.peer.value)} else app.hidden,
      threads := set t | t in app.threads && !(t.identity == s.identity
                   && (s.peer.None? || (t.peer == s.peer.value && (s.thread.None? || t.thread == s.thread.value)))) :: t)
  }

  /** Why a deletion is refused, before anything changes. */
  function Refusal(t: Tables, s: Scope): Option<AdmissionError> {
    if s.ids.Some? && |s.ids.value| > MAX_SELECTED_DELETION then Some(TooLarge)
    else if s.identity == "" then Some(NoIdentity)
    else if s.ids.Some? && exists k :: k in Selected(t.app, s) && StillBeingSent(t.app.messages[k]) then Some(StillSending)
    else if (exists k :: k in Selected(t.app, s) && Oversized(k, t.app.messages[k]))
         || (exists k :: k in Doomed(Selected(t.app, s)) && k in t.effects && |t.effects[k].archive| > 4096)
    then Some(Unavailable)
    else None
  }

  /** The complete effect of a deletion that commits. */
  ghost predicate Deletes(t: Tables, s: Scope, now: nat, after: Tables) {
    var rows := Selected(t.app, s);
    && after.effects == t.effects - Doomed(rows)
    && after.receipts == Revoked(t.receipts, Doomed(rows))
    && after.deleted == Buried(t.deleted, Doomed(rows), now)
    && after.suppression == t.suppression
    && after.app == Swept(t.app, s, rows)
    && JournalExtends(t, after, MediaOfAll(t.app, rows) + ArchivesOf(t.effects, Doomed(rows)))
  }

  /** Insert a journal row unless the file is already waiting. */
  method JournalOne(t: Tables, file: Artifact) returns (after: Tables)
    requires JournalOk(t)
    ensures JournalOk(after) && after == t.(journal := after.journal, nextJournal := after.nextJournal)
    ensures JournalExtends(t, after, {file})
  {
    if file in t.journal.Values {
      return t;
    }
    after := t.(journal := t.journal[t.nextJournal := file], nextJournal := t.nextJournal + 1);
    assert after.journal[t.nextJournal] == file;
  }

  lemma ExtendsTwice(a: Tables, b: Tables, c: Tables, first: set<Artifact>, second: set<Artifact>)
    requires JournalExtends(a, b, first) && JournalExtends(b, c, second)
    ensures JournalExtends(a, c, first + second)
  {
    forall f | f in a.journal.Values ensures f in b.journal.Values {
      var i :| i in a.journal && a.journal[i] == f;
      assert b.journal[i] == f;
    }
    forall f | f in first ensures f in c.journal.Values {
      var i :| i in b.journal && b.journal[i] == f;
      assert c.journal[i] == f;
    }
  }

  method JournalAll(t: Tables, files: seq<Artifact>) returns (after: Tables)
    requires JournalOk(t)
    ensures JournalOk(after) && after == t.(journal := after.journal, nextJournal := after.nextJournal)
    ensures JournalExtends(t, after, Elements(files))
  {
    after := t;
    for n := 0 to |files|
      invariant JournalOk(after) && after == t.(journal := after.journal, nextJournal := after.nextJournal)
      invariant JournalExtends(t, after, Elements(files[..n]))
    {
      var next := JournalOne(after, files[n]);
      ExtendsTwice(t, after, next, Elements(files[..n]), {files[n]});
      assert files[..n + 1] == files[..n] + [files[n]];
      assert Elements(files[..n + 1]) == Elements(files[..n]) + {files[n]};
      after := next;
    }
    assert files[..|files|] == files;
  }

  function Elements<T>(s: seq<T>): set<T> { set x | x in s }

  method RowMedia(k: RowKey, row: MessageRow) returns (files: seq<Artifact>)
    ensures Elements(files) == MediaOf(k, row)
  {
    files := [];
    var names := [row.attachment, row.image, row.audio];
    for n := 0 to |names|
      invariant Elements(files) == Named(k.identity, names[..n])
    {
      assert names[..n + 1] == names[..n] + [names[n]];
      assert Named(k.identity, names[..n + 1]) == Named(k.identity, names[..n]) + Named(k.identity, [names[n]]);
      if RealFile(names[n]) {
        assert names[n] in [names[n]];
        files := files + [Artifact(k.identity, Media, names[n])];
      }
    }
    assert names[..|names|] == names;
  }

  function WithoutMessage(t: Tables, key: Key, now: nat): Tables {
    t.(effects := t.effects - {key}, receipts := Revoked(t.receipts, {key}), deleted := Buried(t.deleted, {key}, now))
  }

  /** Tombstone one message and drop its receipts and effect, returning the effect's archive. */
  method ForgetMessage(t: Tables, key: Key, now: nat) returns (after: Tables, archives: seq<Artifact>)
    ensures after == WithoutMessage(t, key, now)
    ensures Elements(archives) == ArchivesOf(t.effects, {key})
    ensures archives == if key in t.effects then [Artifact(key.identity, Archive, t.effects[key].archive)] else []
  {
    archives := [];
    if key in t.effects {
      archives := [Artifact(key.identity, Archive, t.effects[key].archive)];
    }
    var deleted := t.deleted;
    if key !in deleted {
      deleted := deleted[key := now];
    }
    assert deleted == Buried(t.deleted, {key}, now);
    var receipts := map k | k in t.receipts && !(k.identity == key.identity && t.receipts[k].message == key.id) :: t.receipts[k];
    assert receipts == Revoked(t.receipts, {key});
    after := t.(deleted := deleted, receipts := receipts, effects := t.effects - {key});
  }

  /** The media and archives handed to the caller for cleanup, and the ids it selected. */
  datatype Deleted = Deleted(media: set<Artifact>, archives: set<Artifact>, ids: set<string>)

  /** The tables once the `done` rows' messages are forgotten, the rows themselves still in place. */
  function Forgotten(t: Tables, done: set<RowKey>, now: nat): Tables {
    t.(effects := t.effects - Doomed(done), receipts := Revoked(t.receipts, Doomed(done)),
       deleted := Buried(t.deleted, Doomed(done), now))
  }

  lemma RevokedGrows(receipts: map<Key, Receipt>, keys: set<Key>, key: Key)
    ensures Revoked(receipts, keys + {key}) == Revoked(Revoked(receipts, keys), {key})
  {
  }

  lemma BuriedGrows(deleted: map<Key, nat>, keys: set<Key>, key: Key, now: nat)
    ensures Buried(deleted, keys + {key}, now) == Buried(Buried(deleted, keys, now), {key}, now)
  {
  }

  lemma ArchivesGrow(effects: map<Key, Effect>, keys: set<Key>, key: Key)
    ensures ArchivesOf(effects, keys + {key}) == ArchivesOf(effects, keys) + ArchivesOf(effects - keys, {key})
    ensures effects - (keys + {key}) == effects - keys - {key}
  {
    var left, right := ArchivesOf(effects, keys + {key}), ArchivesOf(effects, keys) + ArchivesOf(effects - keys, {key});
    forall a | a in left ensures a in right {
      var k :| k in keys + {key} && k in effects && a == Artifact(k.identity, Archive, effects[k].archive);
      if k !in keys {
        assert k in effects - keys;
      }
    }
  }

  /** Forgetting one more row is forgetting the message it spells, if it spells one. */
  lemma ForgottenStep(t: Tables, done: set<RowKey>, k: RowKey, now: nat)
    ensures MessageId(k.id).None? ==> Forgotten(t, done + {k}, now) == Forgotten(t, done, now)
    ensures MessageId(k.id).Some? ==>
              Forgotten(t, done + {k}, now) == WithoutMessage(Forgotten(t, done, now), Key(k.identity, MessageId(k.id).value), now)
    ensures ArchivesOf(t.effects, Doomed(done + {k}))
            == ArchivesOf(t.effects, Doomed(done))
               + if MessageId(k.id).Some? then ArchivesOf(Forgotten(t, done, now).effects, {Key(k.identity, MessageId(k.id).value)}) else {}
  {
    DoomedGrows(done, k);
    if MessageId(k.id).Some? {
      var key := Key(k.identity, MessageId(k.id).value);
      RevokedGrows(t.receipts, Doomed(done), key);
      BuriedGrows(t.deleted, Doomed(done), key, now);
      ArchivesGrow(t.effects, Doomed(done), key);
    }
  }

  lemma DoomedGrows(done: set<RowKey>, k: RowKey)
    ensures MessageId(k.id).None? ==> Doomed(done + {k}) == Doomed(done)
    ensures MessageId(k.id).Some? ==> Doomed(done + {k}) == Doomed(done) + {Key(k.identity, MessageId(k.id).value)}
  {
  }

  lemma MediaGrows(app: App, done: set<RowKey>, k: RowKey)
    requires done + {k} <= app.messages.Keys
    ensures MediaOfAll(app, done + {k}) == MediaOfAll(app, done) + MediaOf(k, app.messages[k])
  {
  }

  predicate Bad(t: Tables, k: RowKey)
    requires k in t.app.messages
  {
    || Oversized(k, t.app.messages[k])
    || (MessageId(k.id).Some?
        && var key := Key(k.identity, MessageId(k.id).value);
           key in t.effects && |t.effects[key].archive| > 4096)
  }

  lemma RefusesBadRows(t: Tables, s: Scope)
    requires s.identity != "" && (s.ids.Some? ==> |s.ids.value| <= MAX_SELECTED_DELETION)
    requires s.ids.None? || !exists k :: k in Selected(t.app, s) && StillBeingSent(t.app.messages[k])
    ensures Refusal(t, s) == if exists k :: k in Selected(t.app, s) && Bad(t, k) then Some(Unavailable) else None
  {
    var rows := Selected(t.app, s);
    forall key | key in Doomed(rows) ensures exists k :: k in rows && MessageId(k.id) == Some(key.id) && k.identity == key.identity {
      var k :| k in rows && MessageId(k.id).Some? && key == Key(k.identity, MessageId(k.id).value);
    }
    forall k | k in rows && MessageId(k.id).Some? ensures Key(k.identity, MessageId(k.id).value) in Doomed(rows) {}
  }

  /** What the walk has gathered once the `done` rows are behind it. */
  ghost predicate Walked(t: Tables, s: Scope, done: set<RowKey>, now: nat, w: Walk)
    requires done <= t.app.messages.Keys
  {
    && w.tables == Forgotten(t, done, now)
    && Elements(w.media) == MediaOfAll(t.app, done)
    && Elements(w.archives) == ArchivesOf(t.effects, Doomed(done))
    && Elements(w.ids) == SelectedIds(s, done)
    && forall k :: k in done ==> !Bad(t, k)
  }

  datatype Walk = Walk(tables: Tables, media: seq<Artifact>, archives: seq<Artifact>, ids: seq<string>)

  /** Only an explicit selection reports ids back. */
  function SelectedIds(s: Scope, rows: set<RowKey>): set<string> {
    if s.ids.None? then {} else set k | k in rows :: k.id
  }

  lemma NothingForgotten(t: Tables, now: nat)
    ensures Forgotten(t, {}, now) == t
  {
    assert Doomed({}) == {};
    assert Revoked(t.receipts, {}) == t.receipts;
    assert Buried(t.deleted, {}, now) == t.deleted;
  }

  lemma SelectedIdsGrow(s: Scope, done: set<RowKey>, k: RowKey)
    ensures SelectedIds(s, done + {k}) == SelectedIds(s, done) + if s.ids.None? then {} else {k.id}
  {
  }

  lemma ElementsConcat<T>(a: seq<T>, b: seq<T>)
    ensures Elements(a + b) == Elements(a) + Elements(b)
  {
  }

  /** One row of the walk; false when its metadata exceeds the column bounds. */
  method ForgetRow(t: Tables, s: Scope, k: RowKey, now: nat, w: Walk, ghost done: set<RowKey>)
    returns (ok: bool, after: Walk)
    requires done + {k} <= t.app.messages.Keys && Walked(t, s, done, now, w)
    ensures ok <==> !Bad(t, k)
    ensures ok ==> Walked(t, s, done + {k}, now, after)
  {
    var row := t.app.messages[k];
    after := w;
    if Oversized(k, row) { return false, w; }
    ForgottenStep(t, done, k, now);
    MediaGrows(t.app, done, k);
    SelectedIdsGrow(s, done, k);
    var id := MessageId(k.id);
    if id.Some? {
      var next, found := ForgetMessage(w.tables, Key(k.identity, id.value), now);
      if found != [] && |found[0].path| > 4096 { return false, w; }
      ElementsConcat(w.archives, found);
      after := after.(tables := next, archives := w.archives + found);
      // A second spelling of the same digest finds its effect already gone.
      var key := Key(k.identity, id.value);
      if key in t.effects && key !in w.tables.effects {
        SpelledTwice(t, done, k);
      }
    }
    var files := RowMedia(k, row);
    ElementsConcat(w.media, files);
    after := after.(media := w.media + files);
    if s.ids.Some? {
      ElementsConcat(w.ids, [k.id]);
      after := after.(ids := w.ids + [k.id]);
    }
    ok := true;
  }

  lemma SpelledTwice(t: Tables, done: set<RowKey>, k: RowKey)
    requires done <= t.app.messages.Keys && k in t.app.messages && MessageId(k.id).Some?
    requires Key(k.identity, MessageId(k.id).value) in Doomed(done)
    requires forall j :: j in done ==> !Bad(t, j)
    ensures Key(k.identity, MessageId(k.id).value) in t.effects ==>
              |t.effects[Key(k.identity, MessageId(k.id).value)].archive| <= 4096
  {
    var j :| j in done && MessageId(j.id).Some? && Key(j.identity, MessageId(j.id).value) == Key(k.identity, MessageId(k.id).value);
    assert !Bad(t, j);
  }

  /** Walks the selected rows in any order. */
  method ForgetRows(t: Tables, s: Scope, rows: set<RowKey>, now: nat) returns (r: Option<Walk>)
    requires rows <= t.app.messages.Keys
    ensures r.None? <==> exists k :: k in rows && Bad(t, k)
    ensures r.Some? ==> Walked(t, s, rows, now, r.value)
  {
    var walk, todo := Walk(t, [], [], []), rows;
    ghost var done := {};
    NothingForgotten(t, now);
    assert Elements(walk.archives) == ArchivesOf(t.effects, Doomed(done));
    while todo != {}
      invariant done !! todo && done + todo == rows
      invariant Walked(t, s, done, now, walk)
    {
      var k :| k in todo;
      var ok, next := ForgetRow(t, s, k, now, walk, done);
      if !ok { return None; }
      walk, todo, done := next, todo - {k}, done + {k};
    }
    assert done == rows;
    return Some(walk);
  }

  /**
   * Forgets the selected messages, journals their files and removes the rows.
   * Nothing is published unless every step succeeds.
   */
  method DeleteScoped(t: Tables, s: Scope, now: nat) returns (r: Result<(Tables, Deleted), AdmissionError>)
    requires JournalOk(t)
    ensures r.Err? <==> Refusal(t, s).Some?
    ensures r.Err? ==> r.error == Refusal(t, s).value
    ensures r.Ok? ==> Deletes(t, s, now, r.value.0) && JournalOk(r.value.0)
    ensures r.Ok? ==> r.value.1 == Deleted(MediaOfAll(t.app, Selected(t.app, s)),
                                           ArchivesOf(t.effects, Doomed(Selected(t.app, s))),
                                           SelectedIds(s, Selected(t.app, s)))
  {
    if s.ids.Some? && |s.ids.value| > MAX_SELECTED_DELETION { return Err(TooLarge); }
    if s.identity == "" { return Err(NoIdentity); }
    var rows := Selected(t.app, s);
    if s.ids.Some? && exists k :: k in rows && StillBeingSent(t.app.messages[k]) { return Err(StillSending); }
    RefusesBadRows(t, s);
    var walked := ForgetRows(t, s, rows, now);
    if walked.None? { return Err(Unavailable); }
    var Walk(tx, media, archives, ids) := walked.value;
    var journalled := JournalAll(tx, media + archives);
    ElementsConcat(media, archives);
    tx := journalled.(app := Swept(t.app, s, rows));
    r := Ok((tx, Deleted(Elements(media), Elements(archives), Elements(ids))));
  }

  // ----- Deleting a finished game -----

  function GameKeys(effects: map<Key, Effect>, identity: string, session: string): set<Key> {
    set k | k in effects && effects[k].game.Some? && effects[k].game.value.identity == identity
            && effects[k].game.value.session == session
  }

  predicate Terminal(t: Tables, identity: string, session: string) {
    var k := Session(identity, session);
    k in t.app.sessions && t.app.sessions[k] in {"completed", "declined", "expired"}
  }

  ghost predicate GameDeletes(t: Tables, identity: string, session: string, now: nat, after: Tables) {
    var keys := GameKeys(t.effects, identity, session);
    && after.effects == t.effects - keys
    && after.receipts == Revoked(t.receipts, keys)
    && after.deleted == Buried(t.deleted, keys, now)
    && after.suppression == t.suppression
    && after.app == t.app.(actions := (set a | a in t.app.actions && !(a.identity == identity && a.session == session)),
                           sessions := t.app.sessions - {Session(identity, session)})
    && JournalExtends(t, after, ArchivesOf(t.effects, keys))
  }

  lemma NothingJournalled(t: Tables)
    ensures ArchivesOf(t.effects, {}) == {} && JournalExtends(t, t, {})
  {
  }

  lemma OneArchive(effects: map<Key, Effect>, done: set<Key>, k: Key)
    requires k in effects && k !in done
    ensures ArchivesOf(effects - done, {k}) == {Artifact(k.identity, Archive, effects[k].archive)}
  {
  }

  method JournalArchives(t: Tables, keys: set<Key>) returns (tx: Tables)
    requires JournalOk(t) && keys <= t.effects.Keys
    ensures JournalOk(tx) && tx == t.(journal := tx.journal, nextJournal := tx.nextJournal)
    ensures JournalExtends(t, tx, ArchivesOf(t.effects, keys))
  {
    tx := t;
    var todo := keys;
    ghost var done := {};
    NothingJournalled(t);
    hide JournalOk, JournalExtends, ArchivesOf;
    while todo != {}
      invariant done !! todo && done + todo == keys
      invariant JournalOk(tx) && tx == t.(journal := tx.journal, nextJournal := tx.nextJournal)
      invariant JournalExtends(t, tx, ArchivesOf(t.effects, done))
    {
      var k :| k in todo;
      var next := JournalOne(tx, Artifact(k.identity, Archive, t.effects[k].archive));
      ArchivesGrow(t.effects, done, k);
      OneArchive(t.effects, done, k);
      ExtendsTwice(t, tx, next, ArchivesOf(t.effects, done), ArchivesOf(t.effects - done, {k}));
      tx, todo, done := next, todo - {k}, done + {k};
    }
    assert done == keys;
  }

  method DeleteGameSession(t: Tables, identity: string, session: string, now: nat) returns (r: Option<Tables>)
    requires JournalOk(t)
    ensures r.Some? <==> Terminal(t, identity, session)
    ensures r.Some? ==> GameDeletes(t, identity, session, now, r.value) && JournalOk(r.value)
  {
    if !Terminal(t, identity, session) { return None; }
    var keys := GameKeys(t.effects, identity, session);
    var tx := JournalArchives(t, keys);
    tx := tx.(deleted := Buried(tx.deleted, keys, now), receipts := Revoked(tx.receipts, keys), effects := tx.effects - keys);
    tx := tx.(app := tx.app.(actions := set a | a in tx.app.actions && !(a.identity == identity && a.session == session)));
    tx := tx.(app := tx.app.(sessions := tx.app.sessions - {Session(identity, session)}));
    return Some(tx);
  }

  // ----- What a deletion keeps, and what it leaves alone -----

  /** Revoking receipts, effects and leaving tombstones together keeps every table invariant. */
  lemma ErasureKeepsConsistent(t: Tables, keys: set<Key>, now: nat, after: Tables)
    requires Consistent(t)
    requires after.effects == t.effects - keys && after.receipts == Revoked(t.receipts, keys)
    requires after.deleted == Buried(t.deleted, keys, now)
    ensures Consistent(after)
  {
    LedgerShrinks(after.receipts, t.receipts);
    forall k | k in after.receipts ensures Grounded(after, k) {
      assert Grounded(t, k);
    }
  }

  /** The rows a deletion is asked for, in their own columns. */
  ghost predicate Asked(s: Scope, k: RowKey, row: MessageRow) {
    && k.identity == s.identity
    && (s.peer.Some? ==> row.source == s.peer.value || row.destination == s.peer.value)
    && (s.thread.Some? ==> row.thread == s.thread.value)
    && (s.ids.Some? ==> k.id in s.ids.value)
  }

  /** Some row that was asked for spells this message id. */
  ghost predicate Spelled(t: Tables, s: Scope, key: Key) {
    exists k :: k in t.app.messages && Asked(s, k, t.app.messages[k]) && MessageId(k.id) == Some(key.id) && k.identity == key.identity
  }

  lemma SelectedIsAsked(app: App, s: Scope)
    ensures forall k :: k in Selected(app, s) <==> k in app.messages && Asked(s, k, app.messages[k])
  {
  }

  lemma DoomedIsSpelled(t: Tables, s: Scope, key: Key)
    ensures key in Doomed(Selected(t.app, s)) <==> Spelled(t, s, key)
  {
    SelectedIsAsked(t.app, s);
    hide InScope, Asked;
    if key in Doomed(Selected(t.app, s)) {
      var k :| k in Selected(t.app, s) && MessageId(k.id).Some? && key == Key(k.identity, MessageId(k.id).value);
    }
  }

  /** Messages, effects and receipts that were not asked for survive unchanged, and so does every older tombstone. */
  lemma DeletionSpares(t: Tables, s: Scope, now: nat, after: Tables)
    requires Deletes(t, s, now, after)
    ensures forall k :: k in after.app.messages <==> k in t.app.messages && !Asked(s, k, t.app.messages[k])
    ensures forall k :: k in after.app.messages ==> after.app.messages[k] == t.app.messages[k]
    ensures forall key :: key in t.effects && !Spelled(t, s, key) ==>
              key in after.effects && after.effects[key] == t.effects[key] && (key in after.deleted <==> key in t.deleted)
    ensures forall r :: r in t.receipts && !Spelled(t, s, Key(r.identity, t.receipts[r].message)) ==>
              r in after.receipts && after.receipts[r] == t.receipts[r]
    ensures forall key :: key in t.deleted ==> key in after.deleted && after.deleted[key] == t.deleted[key]
    ensures forall key :: key in after.deleted && key !in t.deleted ==> Spelled(t, s, key) && after.deleted[key] == now
    ensures after.suppression == t.suppression
  {
    forall key ensures key in Doomed(Selected(t.app, s)) <==> Spelled(t, s, key) {
      DoomedIsSpelled(t, s, key);
    }
    SelectedIsAsked(t.app, s);
    hide InScope, Asked, Selected, Doomed, Spelled;
  }

  /** What is left of a row that is gone: a tombstone, and its files in the journal. */
  ghost predicate Erased(t: Tables, k: RowKey, after: Tables)
    requires k in t.app.messages
  {
    var row := t.app.messages[k];
    && (forall name :: name in {row.attachment, row.image, row.audio} && name != "" && name != "!unavailable" ==>
          Artifact(k.identity, Media, name) in after.journal.Values)
    && forall id: Digest :: Hex.Decode(k.id) == Some(id) ==>
         var key := Key(k.identity, id);
         && key in after.deleted && key !in after.effects
         && (key in t.effects ==> Artifact(k.identity, Archive, t.effects[key].archive) in after.journal.Values)
         && forall r :: r in after.receipts && r.identity == k.identity ==> after.receipts[r].message != id
  }

  /** Every row asked for goes, loses receipts and effect, is tombstoned, and has its files journalled. */
  lemma DeletionErases(t: Tables, s: Scope, now: nat, after: Tables, k: RowKey)
    requires Consistent(t) && Deletes(t, s, now, after) && k in t.app.messages && Asked(s, k, t.app.messages[k])
    ensures Consistent(after) && k !in after.app.messages && Erased(t, k, after)
  {
    var rows := Selected(t.app, s);
    SelectedIsAsked(t.app, s);
    ErasureKeepsConsistent(t, Doomed(rows), now, after);
    hide Asked, InScope, Consistent;
    MediaIsNamed(k, t.app.messages[k]);
    assert MediaOf(k, t.app.messages[k]) <= MediaOfAll(t.app, rows);
    hide MediaOf, MediaOfAll;
    forall id: Digest | Hex.Decode(k.id) == Some(id)
      ensures Key(k.identity, id) in Doomed(rows)
    {
      assert MessageId(k.id) == Some(id);
    }
    forall key | key in Doomed(rows) && key in t.effects
      ensures Artifact(key.identity, Archive, t.effects[key].archive) in ArchivesOf(t.effects, Doomed(rows)) {}
    hide Doomed, MessageId;
  }

  lemma MediaIsNamed(k: RowKey, row: MessageRow)
    ensures forall name :: name in {row.attachment, row.image, row.audio} && name != "" && name != "!unavailable" ==>
              Artifact(k.identity, Media, name) in MediaOf(k, row)
  {
    forall name | name in {row.attachment, row.image, row.audio} ensures name in [row.attachment, row.image, row.audio] {}
  }

  /** A real file of a row that was asked for. */
  ghost predicate Attached(t: Tables, s: Scope, a: Artifact) {
    && a.kind.Media? && a.path != "" && a.path != "!unavailable"
    && exists k :: k in t.app.messages && Asked(s, k, t.app.messages[k]) && k.identity == a.identity && Carries(t.app.messages[k], a.path)
  }

  predicate Carries(row: MessageRow, name: string) { row.attachment == name || row.image == name || row.audio == name }

  /** The archive of an effect whose message such a row is. */
  ghost predicate Archived(t: Tables, s: Scope, a: Artifact) {
    a.kind.Archive? && exists key :: key in t.effects && Spelled(t, s, key) && key.identity == a.identity && t.effects[key].archive == a.path
  }

  /** What a deletion reports: the files and archives it journalled, and for a selection the ids it found. */
  ghost predicate Reported(t: Tables, s: Scope, d: Deleted) {
    && (forall a :: a in d.media <==> Attached(t, s, a)) && (forall a :: a in d.archives <==> Archived(t, s, a))
    && (s.ids.None? ==> d.ids == {})
    && (s.ids.Some? ==> forall id :: id in d.ids <==> exists k :: k in t.app.messages && Asked(s, k, t.app.messages[k]) && k.id == id)
  }

  /** Old journal rows stay, and the new ones are of these files. */
  ghost predicate Journals(t: Tables, after: Tables, files: set<Artifact>) {
    && (forall i :: i in t.journal ==> i in after.journal && after.journal[i] == t.journal[i])
    && (forall i :: i in after.journal && i !in t.journal ==> after.journal[i] in files)
    && (forall a :: a in files ==> exists i :: i in after.journal && after.journal[i] == a)
  }

  lemma NamedIs(identity: string, row: MessageRow, a: Artifact)
    ensures a in Named(identity, [row.attachment, row.image, row.audio]) <==>
              a.kind.Media? && a.path != "" && a.path != "!unavailable" && a.identity == identity && Carries(row, a.path)
  {
    var names := [row.attachment, row.image, row.audio];
    assert names[0] in names && names[1] in names && names[2] in names;
    if a in Named(identity, names) {
      var name :| name in names && RealFile(name) && a == Artifact(identity, Media, name);
    }
    if a.kind.Media? && a.path in names && RealFile(a.path) && a.identity == identity {
      assert a == Artifact(identity, Media, a.path);
    }
  }

  lemma MediaIs(t: Tables, s: Scope, a: Artifact)
    ensures a in MediaOfAll(t.app, Selected(t.app, s)) <==> Attached(t, s, a)
  {
    SelectedIsAsked(t.app, s);
    hide Asked, InScope, Selected, Carries, Named;
    forall k | k in t.app.messages
      ensures a in MediaOf(k, t.app.messages[k]) <==>
                a.kind.Media? && a.path != "" && a.path != "!unavailable" && a.identity == k.identity && Carries(t.app.messages[k], a.path)
    {
      NamedIs(k.identity, t.app.messages[k], a);
    }
    if Attached(t, s, a) {
      var k :| k in t.app.messages && Asked(s, k, t.app.messages[k]) && k.identity == a.identity && Carries(t.app.messages[k], a.path);
      assert k in Selected(t.app, s) && a in MediaOf(k, t.app.messages[k]);
    }
  }

  lemma ArchiveIs(t: Tables, s: Scope, a: Artifact)
    ensures a in ArchivesOf(t.effects, Doomed(Selected(t.app, s))) <==> Archived(t, s, a)
  {
    forall key ensures key in Doomed(Selected(t.app, s)) <==> Spelled(t, s, key) { DoomedIsSpelled(t, s, key); }
    hide Doomed, Spelled, Selected;
    if Archived(t, s, a) {
      var key :| key in t.effects && Spelled(t, s, key) && key.identity == a.identity && t.effects[key].archive == a.path;
      assert a == Artifact(key.identity, Archive, t.effects[key].archive);
    }
  }

  lemma ReportedIs(t: Tables, s: Scope, now: nat, after: Tables)
    requires Deletes(t, s, now, after)
    ensures var d := Deleted(MediaOfAll(t.app, Selected(t.app, s)), ArchivesOf(t.effects, Doomed(Selected(t.app, s))),
                             SelectedIds(s, Selected(t.app, s)));
            Reported(t, s, d) && Journals(t, after, d.media + d.archives)
  {
    forall a ensures (a in MediaOfAll(t.app, Selected(t.app, s)) <==> Attached(t, s, a))
                  && (a in ArchivesOf(t.effects, Doomed(Selected(t.app, s))) <==> Archived(t, s, a))
    {
      MediaIs(t, s, a);
      ArchiveIs(t, s, a);
    }
    SelectedIsAsked(t.app, s);
    hide Attached, Archived, Doomed, Selected, Asked, InScope, MediaOfAll, ArchivesOf, Swept, Buried, Revoked;
  }

  // ----- The four shapes of a deletion -----

  /** Rows of the deletion are gone and erased, all others are as they were. */
  ghost predicate RowsGo(t: Tables, after: Tables, gone: set<RowKey>) {
    && (forall k :: k in after.app.messages <==> k in t.app.messages && k !in gone)
    && (forall k :: k in after.app.messages ==> after.app.messages[k] == t.app.messages[k])
    && (forall k :: k in t.app.messages && k in gone ==> Erased(t, k, after))
    && (forall r :: r in after.app.reactions <==> r in t.app.reactions && RowKey(r.identity, r.message) !in gone)
    && after.app.actions == t.app.actions && after.app.sessions == t.app.sessions && after.app.blocked == t.app.blocked
    && after.suppression == t.suppression
  }

  lemma AskedRowsGo(t: Tables, s: Scope, now: nat, after: Tables)
    requires Consistent(t) && Deletes(t, s, now, after)
    ensures RowsGo(t, after, set k | k in t.app.messages && Asked(s, k, t.app.messages[k]))
  {
    forall k | k in t.app.messages && Asked(s, k, t.app.messages[k]) ensures Erased(t, k, after) {
      DeletionErases(t, s, now, after, k);
    }
    SelectedIsAsked(t.app, s);
    hide Asked, InScope, Erased, Consistent;
    assert (set k | k in t.app.messages && Asked(s, k, t.app.messages[k])) == Selected(t.app, s);
  }

  /** Deleting an identity's messages takes every row and every thread of it. */
  lemma IdentityDeletion(t: Tables, identity: string, now: nat, after: Tables)
    requires Consistent(t) && Deletes(t, Scope(identity, None, None, None), now, after)
    ensures RowsGo(t, after, set k | k in t.app.messages && k.identity == identity)
    ensures forall h :: h in after.app.threads <==> h in t.app.threads && h.identity != identity
    ensures after.app.hidden == t.app.hidden
  {
    var s := Scope(identity, None, None, None);
    AskedRowsGo(t, s, now, after);
    assert (set k | k in t.app.messages && Asked(s, k, t.app.messages[k])) == set k | k in t.app.messages && k.identity == identity;
    hide RowsGo, Consistent;
  }

  /** Deleting a conversation takes what was sent to the peer and what came from it, and forgets that it was hidden. */
  lemma ConversationDeletion(t: Tables, identity: string, peer: string, now: nat, after: Tables)
    requires Consistent(t) && Deletes(t, Scope(identity, Some(peer), None, None), now, after)
    ensures RowsGo(t, after, set k | k in t.app.messages && k.identity == identity
                                     && (t.app.messages[k].source == peer || t.app.messages[k].destination == peer))
    ensures forall h :: h in after.app.threads <==> h in t.app.threads && !(h.identity == identity && h.peer == peer)
    ensures forall h :: h in after.app.hidden <==> h in t.app.hidden && !(h.identity == identity && h.peer == peer)
  {
    var s := Scope(identity, Some(peer), None, None);
    AskedRowsGo(t, s, now, after);
    assert (set k | k in t.app.messages && Asked(s, k, t.app.messages[k]))
        == set k | k in t.app.messages && k.identity == identity
                   && (t.app.messages[k].source == peer || t.app.messages[k].destination == peer);
    hide RowsGo, Consistent;
  }

  /** Deleting one thread leaves the peer's other threads alone. */
  lemma ThreadDeletion(t: Tables, identity: string, peer: string, thread: string, now: nat, after: Tables)
    requires Consistent(t) && Deletes(t, Scope(identity, Some(peer), Some(thread), None), now, after)
    ensures RowsGo(t, after, set k | k in t.app.messages && k.identity == identity && t.app.messages[k].thread == thread
                                     && (t.app.messages[k].source == peer || t.app.messages[k].destination == peer))
    ensures forall h :: h in after.app.threads <==> h in t.app.threads && h != Thread(identity, peer, thread)
    ensures after.app.hidden == t.app.hidden
  {
    var s := Scope(identity, Some(peer), Some(thread), None);
    AskedRowsGo(t, s, now, after);
    assert (set k | k in t.app.messages && Asked(s, k, t.app.messages[k]))
        == set k | k in t.app.messages && k.identity == identity && t.app.messages[k].thread == thread
                   && (t.app.messages[k].source == peer || t.app.messages[k].destination == peer);
    hide RowsGo, Consistent;
  }

  /** Deleting selected messages takes those of the listed ids that are the peer's, and no thread. */
  lemma SelectionDeletion(t: Tables, identity: string, peer: string, ids: seq<string>, now: nat, after: Tables)
    requires Consistent(t) && Deletes(t, Scope(identity, Some(peer), None, Some(ids)), now, after)
    ensures RowsGo(t, after, set k | k in t.app.messages && k.identity == identity && k.id in ids
                                     && (t.app.messages[k].source == peer || t.app.messages[k].destination == peer))
    ensures after.app.threads == t.app.threads && after.app.hidden == t.app.hidden
  {
    var s := Scope(identity, Some(peer), None, Some(ids));
    AskedRowsGo(t, s, now, after);
    assert (set k | k in t.app.messages && Asked(s, k, t.app.messages[k]))
        == set k | k in t.app.messages && k.identity == identity && k.id in ids
                   && (t.app.messages[k].source == peer || t.app.messages[k].destination == peer);
    hide RowsGo, Consistent;
  }

  // ----- When a deletion is refused -----

  ghost predicate IgnoringCase(text: string, lower: string, upper: string)
    requires |lower| == |upper|
  {
    |text| == |lower| && forall i :: 0 <= i < |text| ==> text[i] == lower[i] || text[i] == upper[i]
  }

  /** An outbound message that has neither ended nor been handed over for anything but direct delivery. */
  ghost predicate Sending(row: MessageRow) {
    && row.direction == "outbound"
    && row.state != "delivered" && row.state != "propagated" && row.state != "failed" && row.state != "cancelled"
    && row.state != "rejected" && row.state != "timeout" && row.state != "read"
    && (row.state == "sent" ==> IgnoringCase(row.method_, "direct", "DIRECT"))
  }

  lemma SendingIs(row: MessageRow)
    ensures StillBeingSent(row) <==> Sending(row)
  {
    DirectIs(row.method_);
  }

  lemma DirectIs(text: string)
    ensures Lower(text) == "direct" <==> IgnoringCase(text, "direct", "DIRECT")
  {
    var l := Lower(text);
    assert |l| == |text|;
    if IgnoringCase(text, "direct", "DIRECT") {
      assert l == "direct";
    }
    if l == "direct" {
      forall i | 0 <= i < 6 ensures text[i] == "direct"[i] || text[i] == "DIRECT"[i] {
        assert l[i] == "direct"[i];
      }
    }
  }

  /** A column that is too long to be trusted, in the row or in the effect it spells. */
  ghost predicate Overlong(t: Tables, k: RowKey)
    requires k in t.app.messages
  {
    var row := t.app.messages[k];
    || |k.id| > 128 || |k.identity| > 128 || |row.attachment| > 1024 || |row.image| > 1024 || |row.audio| > 1024
    || exists id: Digest :: Hex.Decode(k.id) == Some(id) && Key(k.identity, id) in t.effects
                            && |t.effects[Key(k.identity, id)].archive| > 4096
  }

  lemma BadIsOverlong(t: Tables, k: RowKey)
    requires k in t.app.messages
    ensures Bad(t, k) <==> Overlong(t, k)
  {
    if MessageId(k.id).Some? {
      var id: Digest := MessageId(k.id).value;
      assert Hex.Decode(k.id) == Some(id);
    }
  }

  /**
   * Refused: a selection of more than 500 ids, an empty identity, a selection
   * with a message still being sent, or a row with an overlong column.
   */
  lemma RefusedExactly(t: Tables, s: Scope)
    ensures var asked := set k | k in t.app.messages && Asked(s, k, t.app.messages[k]);
            Refusal(t, s) ==
            if s.ids.Some? && |s.ids.value| > 500 then Some(TooLarge)
            else if s.identity == "" then Some(NoIdentity)
            else if s.ids.Some? && exists k :: k in asked && Sending(t.app.messages[k]) then Some(StillSending)
            else if exists k :: k in asked && Overlong(t, k) then Some(Unavailable)
            else None
  {
    forall k | k in t.app.messages ensures Bad(t, k) <==> Overlong(t, k) { BadIsOverlong(t, k); }
    forall row ensures StillBeingSent(row) <==> Sending(row) { SendingIs(row); }
    SelectedIsAsked(t.app, s);
    hide Bad, Overlong, StillBeingSent, Sending, Asked, InScope;
    assert (set k | k in t.app.messages && Asked(s, k, t.app.messages[k])) == Selected(t.app, s);
    if s.identity != "" && (s.ids.Some? ==> |s.ids.value| <= MAX_SELECTED_DELETION) {
      if s.ids.None? || !exists k :: k in Selected(t.app, s) && StillBeingSent(t.app.messages[k]) { RefusesBadRows(t, s); }
    }
  }

  lemma GameDeletionFrame(t: Tables, identity: string, session: string, now: nat, after: Tables)
    requires Consistent(t) && GameDeletes(t, identity, session, now, after)
    ensures Consistent(after) && after.app.messages == t.app.messages
    ensures forall k :: k in t.effects ==>
              if t.effects[k].game.Some? && t.effects[k].game.value.identity == identity && t.effects[k].game.value.session == session
              then k !in after.effects && k in after.deleted
              else k in after.effects && after.effects[k] == t.effects[k]
    ensures forall a :: a in after.app.actions <==> a in t.app.actions && !(a.identity == identity && a.session == session)
    ensures forall k :: k in after.app.sessions <==> k in t.app.sessions && k != Session(identity, session)
    ensures forall k :: k in after.app.sessions ==> after.app.sessions[k] == t.app.sessions[k]
    ensures forall k :: k in t.effects && k !in after.effects ==>
              Artifact(k.identity, Archive, t.effects[k].archive) in after.journal.Values
    ensures forall r :: r in after.receipts <==>
              r in t.receipts && (Key(r.identity, t.receipts[r].message) in t.effects ==>
                                    Key(r.identity, t.receipts[r].message) in after.effects)
    ensures forall r :: r in after.receipts ==> after.receipts[r] == t.receipts[r]
  {
    var keys := GameKeys(t.effects, identity, session);
    ErasureKeepsConsistent(t, keys, now, after);
    forall k | k in keys ensures Artifact(k.identity, Archive, t.effects[k].archive) in ArchivesOf(t.effects, keys) {}
    hide Consistent;
  }
}
