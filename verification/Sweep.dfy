/**
 * Cleanup of journalled files. A journal row is only a candidate: its file is
 * removed when no staging intent, effect or message still names it.
 */
module Sweep {
  import opened Common
  import opened Tables
  import opened Disk
  import Admission
  import Hex
  import Store

  datatype Pending = Pending(id: nat, artifact: Artifact)

  /** A staged-archive path directly under the identity's directory. */
  predicate UnderRoot(identity: string, path: string) {
    var root := Root(identity);
    && |path| > |root| + 4 && path[..|root|] == root
    && '/' !in path[|root|..] && path[|path| - 4..] == ".lxm"
  }

  predicate StoredChar(c: char) { SafeChar(c) || c == '_' || c == ' ' }

  /** Names `sanitize_stored_file_name` lets through, unchanged. */
  predicate StoredName(name: string) {
    && 0 < |name| <= 1024
    && (forall c :: c in name ==> StoredChar(c))
    && exists c :: c in name && c != '.' && c != ' '
  }

  predicate HexIdentity(identity: string) {
    |identity| == 32 && forall c :: c in identity ==> '0' <= c <= '9' || 'a' <= c <= 'f' || 'A' <= c <= 'F'
  }

  /** A path cleanup is willing to touch. */
  predicate Acceptable(a: Artifact) {
    HexIdentity(a.identity) && if a.kind.Archive? then UnderRoot(a.identity, a.path) else StoredName(a.path)
  }

  /** An intent, an effect or a message of the artifact's identity still names its file. */
  ghost predicate Protected(t: Tables, home: Home, a: Artifact) {
    if a.kind.Archive? then
      || ReferencesArchive(t, a.identity, a.path)
      || exists n :: n in home.intents && NamesArchive(home.intents[n], a.path)
    else
      || ReferencesMedia(t, a.identity, a.path)
      || exists n :: n in home.intents && NamesMedia(home.intents[n], a.path)
  }

  predicate Present(home: Home, a: Artifact) {
    if a.kind.Archive? then a.path in home.archives else a.path in home.media
  }

  function Without(home: Home, a: Artifact): Home {
    if a.kind.Archive? then home.(archives := home.archives - {a.path}) else home.(media := home.media - {a.path})
  }

  // ----- One page of the journal -----

  predicate Selects(filter: Option<string>, a: Artifact) { filter.None? || a.identity == filter.value }

  /** The page after `after`: ids in order, none skipped, at most `limit` of them. */
  ghost predicate Page(t: Tables, filter: Option<string>, after: nat, limit: nat, page: seq<Pending>) {
    && |page| <= limit
    && (forall p :: p in page ==> p.id in t.journal && t.journal[p.id] == p.artifact && p.id > after && Selects(filter, p.artifact))
    && (forall i, j :: 0 <= i < j < |page| ==> page[i].id < page[j].id)
    && (forall id :: id in t.journal && id > after && Selects(filter, t.journal[id]) ==>
          Pending(id, t.journal[id]) in page || (|page| == limit && (limit > 0 ==> id > page[limit - 1].id)))
  }

  method Least(ids: set<nat>) returns (least: nat)
    requires ids != {}
    ensures least in ids && forall id :: id in ids ==> least <= id
  {
    var rest := ids;
    least :| least in rest;
    rest := rest - {least};
    while rest != {}
      invariant rest <= ids && least in ids && forall id :: id in ids && id !in rest ==> least <= id
    {
      var id :| id in rest;
      if id < least { least := id; }
      rest := rest - {id};
    }
  }

  /** A page so far, and the selected rows that are still to come. */
  ghost predicate Growing(t: Tables, filter: Option<string>, after: nat, page: seq<Pending>, rest: set<nat>) {
    && (forall p :: p in page ==> p.id in t.journal && t.journal[p.id] == p.artifact && p.id > after && Selects(filter, p.artifact))
    && (forall i, j :: 0 <= i < j < |page| ==> page[i].id < page[j].id)
    && (forall id :: id in rest ==> id in t.journal && id > after && Selects(filter, t.journal[id]))
    && (forall id, p :: id in rest && p in page ==> p.id < id)
    && (forall id :: id in t.journal && id > after && Selects(filter, t.journal[id]) ==>
          Pending(id, t.journal[id]) in page || id in rest)
  }

  lemma OneMorePending(t: Tables, filter: Option<string>, after: nat, page: seq<Pending>, rest: set<nat>, id: nat)
    requires Growing(t, filter, after, page, rest) && id in rest && forall other :: other in rest ==> id <= other
    ensures id in t.journal && Growing(t, filter, after, page + [Pending(id, t.journal[id])], rest - {id})
  {
    hide Selects;
  }

  lemma PageIsWhole(t: Tables, filter: Option<string>, after: nat, limit: nat, page: seq<Pending>, rest: set<nat>)
    requires |page| <= limit && (rest == {} || |page| == limit) && Growing(t, filter, after, page, rest)
    ensures Page(t, filter, after, limit, page)
  {
    hide Selects;
  }

  method PendingDeletedArtifacts(t: Tables, filter: Option<string>, after: nat, limit: nat) returns (page: seq<Pending>)
    requires 0 < limit <= BATCH
    ensures Page(t, filter, after, limit, page)
  {
    hide Selects, Page;
    page := [];
    var rest := set id | id in t.journal && id > after && Selects(filter, t.journal[id]);
    while rest != {} && |page| < limit
      invariant |page| <= limit && Growing(t, filter, after, page, rest)
    {
      hide Growing;
      var id := Least(rest);
      OneMorePending(t, filter, after, page, rest, id);
      page := page + [Pending(id, t.journal[id])];
      rest := rest - {id};
    }
    PageIsWhole(t, filter, after, limit, page, rest);
  }

  // ----- Removing -----

  /** Removes one file under its own kind's directory. */
  method RemoveFile(disk: Files, a: Artifact, reliable: bool) returns (ok: bool)
    modifies disk
    ensures reliable ==> ok
    ensures forall other :: other != a.identity ==> disk.At(other) == old(disk.At(other))
    ensures disk.At(a.identity) == Without(old(disk.At(a.identity)), a) || (!ok && disk.At(a.identity) == old(disk.At(a.identity)))
  {
    if a.kind.Archive? {
      ok := disk.RemoveArchive(a.identity, a.path, reliable);
    } else {
      ok := disk.RemoveMedia(a.identity, a.path, reliable);
    }
  }

  function StagedArchives(intents: map<Digest, Staged>, some: set<Digest>): set<string>
    requires some <= intents.Keys
  {
    set n | n in some && intents[n].Intent? :: intents[n].archive
  }

  function StagedMedia(intents: map<Digest, Staged>, some: set<Digest>): set<string>
    requires some <= intents.Keys
  {
    set n, i | n in some && intents[n].Intent? && 0 <= i < |intents[n].media| :: intents[n].media[i].name
  }

  lemma StagedGrows(intents: map<Digest, Staged>, some: set<Digest>, n: Digest)
    requires some + {n} <= intents.Keys && intents[n].Intent?
    ensures StagedArchives(intents, some + {n}) == StagedArchives(intents, some) + {intents[n].archive}
    ensures StagedMedia(intents, some + {n}) == StagedMedia(intents, some) + NamesOf(intents[n].media)
  {
  }

  /** The names some of the intents keep alive, all of them genuine. */
  ghost predicate Gathered(identity: string, intents: map<Digest, Staged>, done: set<Digest>, archives: set<string>, media: set<string>) {
    && done <= intents.Keys && (forall n :: n in done ==> Genuine(identity, n, intents[n]))
    && archives == StagedArchives(intents, done) && media == StagedMedia(intents, done)
  }

  lemma GatherNone(identity: string, intents: map<Digest, Staged>)
    ensures Gathered(identity, intents, {}, {}, {})
  {
  }

  lemma GatherOne(identity: string, intents: map<Digest, Staged>, done: set<Digest>, archives: set<string>, media: set<string>, n: Digest)
    requires Gathered(identity, intents, done, archives, media) && n in intents && Genuine(identity, n, intents[n])
    ensures intents[n].Intent?
    ensures Gathered(identity, intents, done + {n}, archives + {intents[n].archive}, media + NamesOf(intents[n].media))
  {
    StagedGrows(intents, done, n);
    hide StagedArchives, StagedMedia, NamesOf;
  }

  /** The names every genuine intent of the identity keeps alive. */
  method ProtectedNames(home: Home, identity: string) returns (r: Result<(set<string>, set<string>), AdmissionError>)
    ensures r.Ok? <==> |home.intents| <= MAX_STAGING_INTENTS && AllGenuine(identity, home.intents)
    ensures r.Ok? ==> r.value.0 == StagedArchives(home.intents, home.intents.Keys)
    ensures r.Ok? ==> r.value.1 == StagedMedia(home.intents, home.intents.Keys)
  {
    hide Gathered, Genuine, NamesOf, StagedArchives, StagedMedia;
    if |home.intents| > MAX_STAGING_INTENTS { return Err(LedgerFull); }
    var archives: set<string>, media: set<string>, todo := {}, {}, home.intents.Keys;
    GatherNone(identity, home.intents);
    assert home.intents.Keys - todo == {};
    while todo != {}
      invariant todo <= home.intents.Keys
      invariant Gathered(identity, home.intents, home.intents.Keys - todo, archives, media)
    {
      var n :| n in todo;
      var s := home.intents[n];
      if !Genuine(identity, n, s) { return Err(MissingEffect); }
      GenuineIsIntent(identity, n, s);
      GatherOne(identity, home.intents, home.intents.Keys - todo, archives, media, n);
      assert home.intents.Keys - (todo - {n}) == home.intents.Keys - todo + {n};
      archives, media, todo := archives + {s.archive}, media + NamesOf(s.media), todo - {n};
    }
    assert home.intents.Keys - todo == home.intents.Keys;
    AllGathered(identity, home.intents, archives, media);
    return Ok((archives, media));
  }

  lemma GenuineIsIntent(identity: string, n: Digest, s: Staged)
    requires Genuine(identity, n, s)
    ensures s.Intent?
  {
  }

  lemma AllGathered(identity: string, intents: map<Digest, Staged>, archives: set<string>, media: set<string>)
    requires Gathered(identity, intents, intents.Keys, archives, media)
    ensures AllGenuine(identity, intents)
    ensures archives == StagedArchives(intents, intents.Keys) && media == StagedMedia(intents, intents.Keys)
  {
    hide Genuine, StagedArchives, StagedMedia;
  }

  lemma ProtectedByName(t: Tables, home: Home, a: Artifact)
    ensures Protected(t, home, a) <==>
              if a.kind.Archive? then a.path in StagedArchives(home.intents, home.intents.Keys) || ReferencesArchive(t, a.identity, a.path)
              else a.path in StagedMedia(home.intents, home.intents.Keys) || ReferencesMedia(t, a.identity, a.path)
  {
    if a.kind.Media? && a.path in StagedMedia(home.intents, home.intents.Keys) {
      var n, i :| n in home.intents.Keys && home.intents[n].Intent? && 0 <= i < |home.intents[n].media| && home.intents[n].media[i].name == a.path;
      assert NamesMedia(home.intents[n], a.path);
    }
  }

  /** Protection depends on effects, messages and intents, none of which cleanup changes. */
  lemma ProtectionIsStable(t: Tables, between: Tables, before: Home, after: Home, a: Artifact)
    requires before.intents == after.intents && t.effects == between.effects && t.app == between.app
    ensures Protected(t, before, a) <==> Protected(between, after, a)
  {
    assert ReferencesArchive(t, a.identity, a.path) <==> ReferencesArchive(between, a.identity, a.path);
    assert ReferencesMedia(t, a.identity, a.path) <==> ReferencesMedia(between, a.identity, a.path);
  }

  /** What cleanup did to one identity's files: intents untouched, only unprotected journalled files gone. */
  ghost predicate SweptFiles(t: Tables, before: Home, after: Home, identity: string) {
    && after.intents == before.intents && after.archives <= before.archives && after.media <= before.media
    && (forall path :: path in before.archives && path !in after.archives ==>
          var a := Artifact(identity, Archive, path);
          a in t.journal.Values && Acceptable(a) && !Protected(t, before, a))
    && (forall name :: name in before.media && name !in after.media ==>
          var a := Artifact(identity, Media, name);
          a in t.journal.Values && Acceptable(a) && !Protected(t, before, a))
  }

  lemma RemovalSweeps(t: Tables, start: Home, before: Home, after: Home, a: Artifact)
    requires SweptFiles(t, start, before, a.identity)
    requires a in t.journal.Values && Acceptable(a) && !Protected(t, start, a)
    requires after == before || after == Without(before, a)
    ensures SweptFiles(t, start, after, a.identity)
  {
  }

  ghost predicate Due(t: Tables, home: Home, identity: string, p: Pending) {
    p.artifact.identity == identity && !Protected(t, home, p.artifact)
  }

  ghost function DueIds(t: Tables, home: Home, identity: string, page: seq<Pending>): set<nat> {
    set p | p in page && Due(t, home, identity, p) :: p.id
  }

  ghost predicate AllAbsent(t: Tables, start: Home, now: Home, identity: string, page: seq<Pending>) {
    forall p :: p in page && Due(t, start, identity, p) ==> !Present(now, p.artifact)
  }

  ghost predicate FromJournal(t: Tables, page: seq<Pending>) {
    forall p :: p in page ==> p.id in t.journal && t.journal[p.id] == p.artifact
  }

  /** One row: protected files are skipped, others removed; `None` means the pass must stop. */
  method SweepRow(disk: Files, t: Tables, p: Pending, archives: set<string>, media: set<string>, reliable: bool, ghost start: Home)
    returns (r: Result<bool, AdmissionError>)
    requires p.id in t.journal && t.journal[p.id] == p.artifact && HexIdentity(p.artifact.identity)
    requires SweptFiles(t, start, disk.At(p.artifact.identity), p.artifact.identity)
    requires archives == StagedArchives(start.intents, start.intents.Keys) && media == StagedMedia(start.intents, start.intents.Keys)
    modifies disk
    ensures forall other :: other != p.artifact.identity ==> disk.At(other) == old(disk.At(other))
    ensures SweptFiles(t, start, disk.At(p.artifact.identity), p.artifact.identity)
    ensures disk.At(p.artifact.identity) == old(disk.At(p.artifact.identity))
            || disk.At(p.artifact.identity) == Without(old(disk.At(p.artifact.identity)), p.artifact)
    ensures r.Ok? ==> Acceptable(p.artifact)
    ensures reliable && Acceptable(p.artifact) ==> r.Ok?
    ensures r.Ok? ==> (r.value <==> !Protected(t, start, p.artifact))
    ensures r == Ok(true) ==> disk.At(p.artifact.identity) == Without(old(disk.At(p.artifact.identity)), p.artifact)
  {
    var a := p.artifact;
    if !Acceptable(a) { return Err(MissingEffect); }
    ProtectedByName(t, start, a);
    if a.kind.Archive? {
      if a.path in archives || ReferencesArchive(t, a.identity, a.path) { return Ok(false); }
    } else {
      if a.path in media || ReferencesMedia(t, a.identity, a.path) { return Ok(false); }
    }
    ghost var before := disk.At(a.identity);
    var ok := RemoveFile(disk, a, reliable);
    RemovalSweeps(t, start, before, disk.At(a.identity), a);
    r := if ok then Ok(true) else Err(Unavailable);
  }

  lemma RowDone(t: Tables, start: Home, before: Home, after: Home, identity: string, page: seq<Pending>, i: nat)
    requires i < |page| && AllAbsent(t, start, before, identity, page[..i])
    requires after == before || after == Without(before, page[i].artifact)
    requires Due(t, start, identity, page[i]) ==> after == Without(before, page[i].artifact)
    ensures AllAbsent(t, start, after, identity, page[..i + 1])
    ensures DueIds(t, start, identity, page[..i + 1])
            == DueIds(t, start, identity, page[..i]) + if Due(t, start, identity, page[i]) then {page[i].id} else {}
  {
    assert page[..i + 1] == page[..i] + [page[i]];
  }

  /** Nothing stops the sweep of these rows: acceptable paths, and genuine intents of their identity, few enough. */
  ghost predicate Sweepable(home: Home, a: Artifact) {
    Acceptable(a) && |home.intents| <= MAX_STAGING_INTENTS && AllGenuine(a.identity, home.intents)
  }

  /** Nothing stops the sweep of the identity's rows. */
  ghost predicate RowsSweepable(home: Home, page: seq<Pending>, identity: string) {
    forall p :: p in page && p.artifact.identity == identity ==> Sweepable(home, p.artifact)
  }

  ghost predicate HasRow(page: seq<Pending>, identity: string) { exists p :: p in page && p.artifact.identity == identity }

  /** The page's rows of one identity, each file removed unless something still names it. */
  method SweepIdentity(disk: Files, t: Tables, page: seq<Pending>, identity: string, reliable: bool) returns (r: Result<set<nat>, AdmissionError>)
    requires FromJournal(t, page)
    modifies disk
    ensures forall other :: other != identity ==> disk.At(other) == old(disk.At(other))
    ensures SweptFiles(t, old(disk.At(identity)), disk.At(identity), identity)
    ensures r.Ok? ==> RowsSweepable(old(disk.At(identity)), page, identity)
    ensures reliable && RowsSweepable(old(disk.At(identity)), page, identity) && HasRow(page, identity) ==> r.Ok?
    ensures r.Ok? ==> r.value == DueIds(t, old(disk.At(identity)), identity, page)
    ensures r.Ok? ==> AllAbsent(t, old(disk.At(identity)), disk.At(identity), identity, page)
  {
    if !HexIdentity(identity) { return Err(MissingEffect); }
    ghost var start := disk.At(identity);
    var kept := ProtectedNames(disk.At(identity), identity);
    if kept.Err? { return Err(kept.error); }
    var done: set<nat> := {};
    for i := 0 to |page|
      invariant forall other :: other != identity ==> disk.At(other) == old(disk.At(other))
      invariant SweptFiles(t, start, disk.At(identity), identity)
      invariant done == DueIds(t, start, identity, page[..i])
      invariant AllAbsent(t, start, disk.At(identity), identity, page[..i])
      invariant RowsSweepable(start, page[..i], identity)
    {
      ghost var before := disk.At(identity);
      assert page[..i + 1] == page[..i] + [page[i]];
      if page[i].artifact.identity == identity {
        assert page[i] in page;
        var swept := SweepRow(disk, t, page[i], kept.value.0, kept.value.1, reliable, start);
        if swept.Err? { return Err(swept.error); }
        if swept.value { done := done + {page[i].id}; }
      }
      RowDone(t, start, before, disk.At(identity), identity, page, i);
    }
    assert page[..|page|] == page;
    return Ok(done);
  }

  // ----- A batch, and the whole cleanup -----

  /** Every identity's files after a batch. */
  ghost predicate Swept(t: Tables, before: map<string, Home>, after: map<string, Home>) {
    forall identity :: SweptFiles(t, HomeIn(before, identity), HomeIn(after, identity), identity)
  }

  function HomeIn(homes: map<string, Home>, identity: string): Home {
    if identity in homes then homes[identity] else Home(map[], {}, {})
  }

  ghost predicate Settled(t: Tables, start: map<string, Home>, now: map<string, Home>, page: seq<Pending>, done: set<string>) {
    forall identity :: identity in done ==> AllAbsent(t, HomeIn(start, identity), HomeIn(now, identity), identity, page)
  }

  ghost function AllDue(t: Tables, start: map<string, Home>, page: seq<Pending>, done: set<string>): set<nat> {
    set p | p in page && p.artifact.identity in done && !Protected(t, HomeIn(start, p.artifact.identity), p.artifact) :: p.id
  }

  ghost predicate PageSweepable(homes: map<string, Home>, page: seq<Pending>) {
    forall p :: p in page ==> Sweepable(HomeIn(homes, p.artifact.identity), p.artifact)
  }

  ghost predicate SweepableIn(homes: map<string, Home>, page: seq<Pending>, some: set<string>) {
    forall identity :: identity in some ==> RowsSweepable(HomeIn(homes, identity), page, identity)
  }

  lemma AllIdentitiesSweepable(homes: map<string, Home>, page: seq<Pending>, all: set<string>)
    requires forall p :: p in page ==> p.artifact.identity in all
    ensures SweepableIn(homes, page, all) ==> PageSweepable(homes, page)
    ensures PageSweepable(homes, page) ==> forall identity :: RowsSweepable(HomeIn(homes, identity), page, identity)
  {
    hide Sweepable;
  }

  /** Sweeping one more identity leaves the others as they were. */
  lemma OneIdentitySwept(t: Tables, start: map<string, Home>, before: map<string, Home>, now: map<string, Home>,
                         page: seq<Pending>, seen: set<string>, identity: string)
    requires Swept(t, start, before) && SweptFiles(t, HomeIn(start, identity), HomeIn(now, identity), identity)
    requires forall other :: other != identity ==> HomeIn(now, other) == HomeIn(before, other)
    ensures Swept(t, start, now)
  {
  }

  lemma OneIdentitySettled(t: Tables, start: map<string, Home>, before: map<string, Home>, now: map<string, Home>,
                           page: seq<Pending>, seen: set<string>, identity: string)
    requires Settled(t, start, before, page, seen)
    requires AllAbsent(t, HomeIn(start, identity), HomeIn(now, identity), identity, page)
    requires forall other :: other != identity ==> HomeIn(now, other) == HomeIn(before, other)
    ensures Settled(t, start, now, page, seen + {identity})
    ensures AllDue(t, start, page, seen + {identity})
            == AllDue(t, start, page, seen) + DueIds(t, HomeIn(start, identity), identity, page)
  {
  }

  /** The sweep of a page after some of its identities. */
  ghost predicate MidPage(t: Tables, start: map<string, Home>, now: map<string, Home>, page: seq<Pending>, seen: set<string>,
                          completed: set<nat>)
  {
    && (forall identity :: identity !in seen ==> HomeIn(now, identity) == HomeIn(start, identity))
    && Swept(t, start, now) && Settled(t, start, now, page, seen) && SweepableIn(start, page, seen)
    && completed == AllDue(t, start, page, seen)
  }

  lemma PageBegins(t: Tables, start: map<string, Home>, page: seq<Pending>)
    ensures MidPage(t, start, start, page, {}, {})
  {
    assert AllDue(t, start, page, {}) == {};
  }

  lemma PageContinues(t: Tables, start: map<string, Home>, before: map<string, Home>, now: map<string, Home>,
                      page: seq<Pending>, seen: set<string>, completed: set<nat>, identity: string, more: set<nat>)
    requires MidPage(t, start, before, page, seen, completed) && identity !in seen
    requires forall other :: other != identity ==> HomeIn(now, other) == HomeIn(before, other)
    requires SweptFiles(t, HomeIn(before, identity), HomeIn(now, identity), identity)
    requires RowsSweepable(HomeIn(before, identity), page, identity)
    requires more == DueIds(t, HomeIn(before, identity), identity, page)
    requires AllAbsent(t, HomeIn(before, identity), HomeIn(now, identity), identity, page)
    ensures MidPage(t, start, now, page, seen + {identity}, completed + more)
  {
    hide Swept, Settled, AllDue, SweptFiles, AllAbsent, DueIds, RowsSweepable;
    OneIdentitySwept(t, start, before, now, page, seen, identity);
    OneIdentitySettled(t, start, before, now, page, seen, identity);
  }

  /** Stopping at an identity has still only swept. */
  lemma PageStops(t: Tables, start: map<string, Home>, before: map<string, Home>, now: map<string, Home>,
                  page: seq<Pending>, seen: set<string>, completed: set<nat>, identity: string)
    requires MidPage(t, start, before, page, seen, completed) && identity !in seen
    requires forall other :: other != identity ==> HomeIn(now, other) == HomeIn(before, other)
    requires SweptFiles(t, HomeIn(before, identity), HomeIn(now, identity), identity)
    ensures Swept(t, start, now) && HomeIn(before, identity) == HomeIn(start, identity)
  {
    hide Swept, Settled, AllDue, SweptFiles, SweepableIn;
    OneIdentitySwept(t, start, before, now, page, seen, identity);
  }

  lemma PageEnds(t: Tables, start: map<string, Home>, now: map<string, Home>, page: seq<Pending>, all: set<string>, completed: set<nat>)
    requires MidPage(t, start, now, page, all, completed) && all == set p | p in page :: p.artifact.identity
    ensures Swept(t, start, now) && PageSweepable(start, page)
    ensures completed == set p | p in page && !Protected(t, HomeIn(start, p.artifact.identity), p.artifact) :: p.id
    ensures FromJournal(t, page) ==>
              forall p :: p in page && p.id in completed ==> !Present(HomeIn(now, p.artifact.identity), p.artifact)
  {
    hide Swept, Protected, Sweepable;
    AllIdentitiesSweepable(start, page, all);
  }

  method SweepPage(disk: Files, t: Tables, page: seq<Pending>, reliable: bool) returns (r: Result<set<nat>, AdmissionError>)
    requires FromJournal(t, page)
    modifies disk
    ensures Swept(t, old(disk.homes), disk.homes)
    ensures r.Ok? ==> PageSweepable(old(disk.homes), page)
    ensures reliable && PageSweepable(old(disk.homes), page) ==> r.Ok?
    ensures r.Ok? ==> r.value == set p | p in page && !Protected(t, HomeIn(old(disk.homes), p.artifact.identity), p.artifact) :: p.id
    ensures r.Ok? ==> forall p :: p in page && p.id in r.value ==> !Present(HomeIn(disk.homes, p.artifact.identity), p.artifact)
  {
    hide *;
    ghost var start := disk.homes;
    var todo := set p | p in page :: p.artifact.identity;
    ghost var all, seen: set<string> := todo, {};
    var completed: set<nat> := {};
    AllIdentitiesSweepable(start, page, all);
    PageBegins(t, start, page);
    while todo != {}
      invariant seen !! todo && seen + todo == all
      invariant MidPage(t, start, disk.homes, page, seen, completed)
    {
      var identity :| identity in todo;
      ghost var before, done := disk.homes, completed;
      var swept := SweepOne(disk, t, page, identity, reliable);
      PageStops(t, start, before, disk.homes, page, seen, done, identity);
      if swept.Err? { return Err(swept.error); }
      PageContinues(t, start, before, disk.homes, page, seen, done, identity, swept.value);
      completed := completed + swept.value;
      todo, seen := todo - {identity}, seen + {identity};
    }
    assert seen == all;
    PageEnds(t, start, disk.homes, page, all, completed);
    return Ok(completed);
  }

  /** One identity of the page, in terms of all homes. */
  method SweepOne(disk: Files, t: Tables, page: seq<Pending>, identity: string, reliable: bool) returns (r: Result<set<nat>, AdmissionError>)
    requires FromJournal(t, page) && identity in set p | p in page :: p.artifact.identity
    modifies disk
    ensures forall other :: other != identity ==> HomeIn(disk.homes, other) == HomeIn(old(disk.homes), other)
    ensures SweptFiles(t, HomeIn(old(disk.homes), identity), HomeIn(disk.homes, identity), identity)
    ensures r.Ok? ==> RowsSweepable(HomeIn(old(disk.homes), identity), page, identity)
    ensures reliable && RowsSweepable(HomeIn(old(disk.homes), identity), page, identity) ==> r.Ok?
    ensures r.Ok? ==> r.value == DueIds(t, HomeIn(old(disk.homes), identity), identity, page)
    ensures r.Ok? ==> AllAbsent(t, HomeIn(old(disk.homes), identity), HomeIn(disk.homes, identity), identity, page)
  {
    hide SweptFiles, RowsSweepable, DueIds, AllAbsent, FromJournal;
    ghost var before := disk.homes;
    assert forall other :: HomeIn(before, other) == disk.At(other);
    r := SweepIdentity(disk, t, page, identity, reliable);
    assert forall other :: HomeIn(disk.homes, other) == disk.At(other);
  }

  /** Rows completed by a batch are those whose files were removed or already absent. */
  ghost predicate Completed(t: Tables, start: map<string, Home>, now: map<string, Home>, after: Tables, ids: set<nat>) {
    && after == t.(journal := t.journal - ids)
    && forall id :: id in ids && id in t.journal ==>
         var a := t.journal[id];
         !Protected(t, HomeIn(start, a.identity), a) && !Present(HomeIn(now, a.identity), a)
  }

  /** The due rows of the identities the filter admits, with ids in (after, upTo]. */
  ghost function DueRows(t: Tables, homes: map<string, Home>, filter: Option<string>, after: nat, upTo: nat): set<nat> {
    set id | id in t.journal && after < id <= upTo && Selects(filter, t.journal[id])
             && !Protected(t, HomeIn(homes, t.journal[id].identity), t.journal[id])
  }

  /** The rows the filter admits, with ids in (after, upTo]. */
  ghost function RowsBetween(t: Tables, filter: Option<string>, after: nat, upTo: nat): set<nat> {
    set id | id in t.journal && after < id <= upTo && Selects(filter, t.journal[id])
  }

  function IdsOf(page: seq<Pending>): set<nat> { set i | 0 <= i < |page| :: page[i].id }

  lemma {:induction false} IdsCount(page: seq<Pending>)
    requires forall i, j :: 0 <= i < j < |page| ==> page[i].id < page[j].id
    ensures |IdsOf(page)| == |page|
  {
    if page == [] {
      assert IdsOf(page) == {};
    } else {
      var n := |page| - 1;
      IdsCount(page[..n]);
      assert IdsOf(page) == IdsOf(page[..n]) + {page[n].id};
    }
  }

  lemma PageIdsAreFew(t: Tables, filter: Option<string>, after: nat, page: seq<Pending>, ids: set<nat>)
    requires Page(t, filter, after, BATCH, page) && forall id :: id in ids ==> exists p :: p in page && p.id == id
    ensures |ids| <= BATCH && 0 !in ids
  {
    IdsCount(page);
    assert ids <= IdsOf(page);
    SubsetSize(ids, IdsOf(page));
  }

  ghost predicate NoneAfter(t: Tables, filter: Option<string>, after: nat) {
    forall id :: id in t.journal && id > after ==> !Selects(filter, t.journal[id])
  }

  ghost predicate AllSweepable(t: Tables, homes: map<string, Home>, filter: Option<string>) {
    forall id :: id in t.journal && Selects(filter, t.journal[id]) ==>
      Sweepable(HomeIn(homes, t.journal[id].identity), t.journal[id])
  }

  ghost predicate BetweenSweepable(t: Tables, homes: map<string, Home>, filter: Option<string>, after: nat, upTo: nat) {
    forall id :: id in RowsBetween(t, filter, after, upTo) ==> Sweepable(HomeIn(homes, t.journal[id].identity), t.journal[id])
  }

  /** What a batch reports about its page. */
  ghost predicate Paged(t: Tables, homes: map<string, Home>, filter: Option<string>, after: nat,
                        r: Result<(nat, nat), AdmissionError>, ids: set<nat>)
  {
    r.Ok? ==>
      && r.value.1 <= BATCH
      && (r.value.1 == 0 ==> r.value.0 == 0 && ids == {} && NoneAfter(t, filter, after))
      && (r.value.1 > 0 ==> r.value.1 == |RowsBetween(t, filter, after, r.value.0)|
                            && BetweenSweepable(t, homes, filter, after, r.value.0))
      && (r.value.1 > 0 ==> r.value.0 > after && ids == DueRows(t, homes, filter, after, r.value.0)
                            && r.value.0 in t.journal && Selects(filter, t.journal[r.value.0]))
      && (0 < r.value.1 < BATCH ==> NoneAfter(t, filter, r.value.0))
  }

  /** Nothing stops the batch: every row of its page is sweepable, protected or not. */
  ghost predicate PageWorks(t: Tables, homes: map<string, Home>, filter: Option<string>, after: nat) {
    forall page :: Page(t, filter, after, BATCH, page) ==> PageSweepable(homes, page)
  }

  /** There is one page, so its rows decide. */
  lemma PageWorksBy(t: Tables, homes: map<string, Home>, filter: Option<string>, after: nat, page: seq<Pending>)
    requires Page(t, filter, after, BATCH, page)
    ensures PageWorks(t, homes, filter, after) <==> PageSweepable(homes, page)
  {
    hide Sweepable;
    forall other | Page(t, filter, after, BATCH, other) ensures forall p :: p in other <==> p in page {
      hide PageSweepable;
      SamePage(t, filter, after, page, other);
      SamePage(t, filter, after, other, page);
    }
  }

  lemma PageRows(t: Tables, filter: Option<string>, after: nat, page: seq<Pending>)
    requires Page(t, filter, after, BATCH, page) && page != []
    ensures IdsOf(page) == RowsBetween(t, filter, after, page[|page| - 1].id) && |IdsOf(page)| == |page|
    ensures page[|page| - 1].id in IdsOf(page)
  {
    IdsCount(page);
    var last := page[|page| - 1];
    hide Selects;
    assert last in page;
    forall id | id in RowsBetween(t, filter, after, last.id) ensures id in IdsOf(page) {
      assert Pending(id, t.journal[id]) in page;
    }
    forall id | id in IdsOf(page) ensures id in RowsBetween(t, filter, after, last.id) {
      var i :| 0 <= i < |page| && page[i].id == id;
      assert page[i] in page;
    }
  }

  lemma SamePage(t: Tables, filter: Option<string>, after: nat, page: seq<Pending>, other: seq<Pending>)
    requires Page(t, filter, after, BATCH, page) && Page(t, filter, after, BATCH, other)
    ensures forall p :: p in page ==> p in other
  {
    if page != [] {
      PageRows(t, filter, after, page);
      if other != [] { PageRows(t, filter, after, other); }
      forall p | p in page ensures p in other {
        ReachesFurther(t, filter, after, page, other, p);
      }
    }
  }

  /** A full page that leaves a row out has only smaller ids. */
  lemma LeftOut(t: Tables, filter: Option<string>, after: nat, page: seq<Pending>, p: Pending)
    requires Page(t, filter, after, BATCH, page) && p !in page
    requires p.id in t.journal && t.journal[p.id] == p.artifact && p.id > after && Selects(filter, p.artifact)
    ensures |page| == BATCH && p.id > page[BATCH - 1].id
  {
    hide Selects;
    assert Pending(p.id, t.journal[p.id]) == p;
  }

  lemma RowOfPage(t: Tables, filter: Option<string>, after: nat, page: seq<Pending>, p: Pending)
    requires Page(t, filter, after, BATCH, page) && p in page
    ensures p.id in t.journal && t.journal[p.id] == p.artifact && p.id > after && Selects(filter, p.artifact)
    ensures p.id in IdsOf(page) && p.id <= page[|page| - 1].id
  {
    hide Selects;
    var i :| 0 <= i < |page| && page[i] == p;
  }

  /** A page cannot leave out a row that another one of the same start has. */
  lemma ReachesFurther(t: Tables, filter: Option<string>, after: nat, page: seq<Pending>, other: seq<Pending>, p: Pending)
    requires Page(t, filter, after, BATCH, page) && Page(t, filter, after, BATCH, other) && page != []
    requires IdsOf(page) == RowsBetween(t, filter, after, page[|page| - 1].id) && |IdsOf(page)| == |page|
    requires other != [] ==> IdsOf(other) == RowsBetween(t, filter, after, other[|other| - 1].id) && |IdsOf(other)| == |other|
    requires p in page
    ensures p in other
  {
    assert |page| <= BATCH;
    hide Page, IdsOf, Selects;
    RowOfPage(t, filter, after, page, p);
    if p !in other {
      LeftOut(t, filter, after, other, p);
      SubsetSize(IdsOf(other) + {p.id}, IdsOf(page));
    }
  }

  lemma AllSweepableWorks(t: Tables, homes: map<string, Home>, filter: Option<string>, after: nat)
    requires AllSweepable(t, homes, filter)
    ensures PageWorks(t, homes, filter, after)
  {
    hide Sweepable;
  }

  /** One page: sweep its files, then complete the rows whose files are gone. */
  method CleanupDeletedBatch(disk: Files, store: Store.DurableInboundStore, filter: Option<string>, after: nat, reliable: bool)
    returns (r: Result<(nat, nat), AdmissionError>, ghost ids: set<nat>)
    requires store.Valid()
    modifies disk, store
    ensures store.Valid() && Swept(old(store.tables), old(disk.homes), disk.homes)
    ensures Completed(old(store.tables), old(disk.homes), disk.homes, store.tables, ids)
    ensures r.Ok? ==> PageWorks(old(store.tables), old(disk.homes), filter, after)
    ensures reliable && PageWorks(old(store.tables), old(disk.homes), filter, after) ==> r.Ok?
    ensures Paged(old(store.tables), old(disk.homes), filter, after, r, ids)
  {
    ids := {};
    hide Page, PageWorks, PageSweepable, BetweenSweepable, DueRows, RowsBetween, NoneAfter, Swept, Protected, Selects, Sweepable, AllSweepable;
    var t := store.tables;
    NothingCompleted(t, disk.homes);
    SweptAtStart(t, disk.homes);
    var page := PendingDeletedArtifacts(t, filter, after, BATCH);
    PageWorksBy(t, disk.homes, filter, after, page);
    if page == [] {
      EmptyPage(t, filter, after);
      return Ok((0, 0)), {};
    }
    var barrier: bool :| reliable ==> barrier;
    if !barrier { return Err(CommitUncertain), {}; }
    PageFacts(t, disk.homes, filter, after, page);
    var swept := SweepPage(disk, t, page, reliable);
    NothingCompleted(t, disk.homes);
    if swept.Err? { return Err(swept.error), {}; }
    PageIdsAreFew(t, filter, after, page, swept.value);
    PageCompleted(t, old(disk.homes), disk.homes, page, swept.value);
    var fate: Admission.Fate :| reliable ==> fate.Certain?;
    var completed := store.CompleteDeletedArtifacts(swept.value, fate);
    ids := if store.tables == t then {} else swept.value;
    if completed.Err? { return Err(completed.error), ids; }
    ids := swept.value;
    return Ok((page[|page| - 1].id, |page|)), ids;
  }

  lemma NothingCompleted(t: Tables, homes: map<string, Home>)
    ensures forall start :: Completed(t, start, homes, t, {})
  {
    assert t.journal - {} == t.journal;
  }

  lemma SweptAtStart(t: Tables, homes: map<string, Home>)
    ensures Swept(t, homes, homes)
  {
  }

  lemma EmptyPage(t: Tables, filter: Option<string>, after: nat)
    requires Page(t, filter, after, BATCH, [])
    ensures NoneAfter(t, filter, after)
    ensures forall homes :: PageSweepable(homes, [])
  {
  }

  /** A page holds the due rows up to its last id, and a short page is the last one. */
  lemma PageFacts(t: Tables, homes: map<string, Home>, filter: Option<string>, after: nat, page: seq<Pending>)
    requires Page(t, filter, after, BATCH, page) && page != []
    ensures |page| <= BATCH && FromJournal(t, page)
    ensures var last := page[|page| - 1].id;
            && last > after && last in t.journal && Selects(filter, t.journal[last])
            && (|page| < BATCH ==> NoneAfter(t, filter, last))
            && |page| == |RowsBetween(t, filter, after, last)|
            && (PageSweepable(homes, page) ==> BetweenSweepable(t, homes, filter, after, last))
            && DueRows(t, homes, filter, after, last)
               == set p | p in page && !Protected(t, HomeIn(homes, p.artifact.identity), p.artifact) :: p.id
  {
    PageRows(t, filter, after, page);
    var last := page[|page| - 1];
    hide Protected, Sweepable;
    assert last in page;
    assert forall p :: p in page ==> p.id <= last.id;
    forall id | id in RowsBetween(t, filter, after, last.id) ensures Pending(id, t.journal[id]) in page {
      var i :| 0 <= i < |page| && page[i].id == id;
      assert page[i] in page;
    }
  }

  lemma PageCompleted(t: Tables, start: map<string, Home>, now: map<string, Home>, page: seq<Pending>, ids: set<nat>)
    requires FromJournal(t, page)
    requires ids == set p | p in page && !Protected(t, HomeIn(start, p.artifact.identity), p.artifact) :: p.id
    requires forall p :: p in page && p.id in ids ==> !Present(HomeIn(now, p.artifact.identity), p.artifact)
    ensures Completed(t, start, now, t.(journal := t.journal - ids), ids)
  {
  }

  /** Batches compose: the second one's start differs only by completed rows and removed files. */
  lemma BatchesCompose(t: Tables, start: map<string, Home>, mid: map<string, Home>, now: map<string, Home>,
                       between: Tables, after: Tables, first: set<nat>, second: set<nat>)
    requires Swept(t, start, mid) && Completed(t, start, mid, between, first)
    requires Swept(between, mid, now) && Completed(between, mid, now, after, second)
    ensures Swept(t, start, now) && Completed(t, start, now, after, first + second)
  {
    assert forall a :: a in between.journal.Values ==> a in t.journal.Values;
    forall identity ensures SweptFiles(t, HomeIn(start, identity), HomeIn(now, identity), identity) {
      SweptCompose(t, between, HomeIn(start, identity), HomeIn(mid, identity), HomeIn(now, identity), identity);
    }
    assert t.journal - (first + second) == t.journal - first - second;
    forall id | id in first + second && id in t.journal
      ensures var a := t.journal[id];
              !Protected(t, HomeIn(start, a.identity), a) && !Present(HomeIn(now, a.identity), a)
    {
      var a := t.journal[id];
      assert SweptFiles(t, HomeIn(start, a.identity), HomeIn(mid, a.identity), a.identity);
      assert SweptFiles(between, HomeIn(mid, a.identity), HomeIn(now, a.identity), a.identity);
      if id !in first {
        assert id in between.journal;
      }
    }
  }

  lemma SweptCompose(t: Tables, between: Tables, a: Home, b: Home, c: Home, identity: string)
    requires between == t.(journal := between.journal) && forall f :: f in between.journal.Values ==> f in t.journal.Values
    requires SweptFiles(t, a, b, identity) && SweptFiles(between, b, c, identity)
    ensures SweptFiles(t, a, c, identity)
  {
  }

  /** Rows past the cursor are as due after the earlier batches as they were at the start. */
  lemma DueIsStable(t: Tables, start: map<string, Home>, mid: map<string, Home>, between: Tables, identity: string, cursor: nat, next: nat)
    requires cursor <= next && Swept(t, start, mid)
    requires Completed(t, start, mid, between, DueRows(t, start, Some(identity), 0, cursor))
    ensures DueRows(t, start, Some(identity), 0, cursor) + DueRows(between, mid, Some(identity), cursor, next)
            == DueRows(t, start, Some(identity), 0, next)
  {
    assert SweptFiles(t, HomeIn(start, identity), HomeIn(mid, identity), identity);
    forall id | id in t.journal && t.journal[id].identity == identity
      ensures Protected(t, HomeIn(start, identity), t.journal[id]) <==> Protected(between, HomeIn(mid, identity), t.journal[id])
    {
      ProtectionIsStable(t, between, HomeIn(start, identity), HomeIn(mid, identity), t.journal[id]);
    }
    var first, second := DueRows(t, start, Some(identity), 0, cursor), DueRows(between, mid, Some(identity), cursor, next);
    forall id ensures id in first + second <==> id in DueRows(t, start, Some(identity), 0, next) {
      assert id > cursor ==> (id in between.journal <==> id in t.journal);
    }
  }

  ghost function Beyond(t: Tables, cursor: nat): set<nat> { set id | id in t.journal && id > cursor }

  /** The due rows of one identity up to the cursor are done, and nothing else is. */
  ghost predicate DoneUpTo(t: Tables, start: map<string, Home>, now: Tables, homes: map<string, Home>, identity: string, cursor: nat, ids: set<nat>) {
    Swept(t, start, homes) && Completed(t, start, homes, now, ids) && ids == DueRows(t, start, Some(identity), 0, cursor)
  }

  lemma NothingDoneYet(t: Tables, start: map<string, Home>, identity: string)
    requires JournalOk(t)
    ensures DoneUpTo(t, start, t, start, identity, 0, {}) && SweepableUpTo(t, start, identity, 0)
  {
    NothingCompleted(t, start);
    SweptAtStart(t, start);
    assert DueRows(t, start, Some(identity), 0, 0) == {};
  }

  /** One page of the loop; a page of fewer than 256 rows, an empty one included, is the last. */
  method CleanupPage(disk: Files, store: Store.DurableInboundStore, identity: string, cursor: nat, reliable: bool,
                     ghost t: Tables, ghost start: map<string, Home>, ghost ids: set<nat>)
    returns (r: Result<(nat, nat), AdmissionError>, ghost done: set<nat>)
    requires store.Valid() && JournalOk(t) && DoneUpTo(t, start, store.tables, disk.homes, identity, cursor, ids)
    requires SweepableUpTo(t, start, identity, cursor)
    modifies disk, store
    ensures store.Valid() && Swept(t, start, disk.homes) && Completed(t, start, disk.homes, store.tables, done)
    ensures reliable && AllSweepable(t, start, Some(identity)) ==> r.Ok?
    ensures r.Ok? && r.value.1 < BATCH ==> done == AllDueOf(t, start, {identity}) && AllSweepable(t, start, Some(identity))
    ensures r.Ok? && r.value.1 >= BATCH ==>
              && cursor < r.value.0 && r.value.0 in t.journal
              && DoneUpTo(t, start, store.tables, disk.homes, identity, r.value.0, done)
              && SweepableUpTo(t, start, identity, r.value.0)
  {
    ghost var between, mid, more := store.tables, disk.homes, {};
    StaysDoneSweepable(t, start, mid, between, identity, cursor, ids);
    hide *;
    r, more := CleanupDeletedBatch(disk, store, Some(identity), cursor, reliable);
    done := ids + more;
    PageComposes(t, start, mid, disk.homes, between, store.tables, identity, cursor, ids, more, r);
    PageWasSweepable(t, start, mid, between, identity, cursor, ids, more, r);
  }

  ghost predicate SweepableUpTo(t: Tables, homes: map<string, Home>, identity: string, cursor: nat) {
    forall id :: id in t.journal && id <= cursor && t.journal[id].identity == identity ==>
      Sweepable(HomeIn(homes, identity), t.journal[id])
  }

  lemma StaysDoneSweepable(t: Tables, start: map<string, Home>, mid: map<string, Home>, between: Tables, identity: string,
                           cursor: nat, ids: set<nat>)
    requires DoneUpTo(t, start, between, mid, identity, cursor, ids)
    ensures AllSweepable(t, start, Some(identity)) ==> PageWorks(between, mid, Some(identity), cursor)
  {
    hide AllSweepable, Swept, Completed, PageWorks, DueRows;
    StaysSweepable(t, start, mid, between, ids, Some(identity));
    if AllSweepable(between, mid, Some(identity)) { AllSweepableWorks(between, mid, Some(identity), cursor); }
  }

  /** What a page found sweepable was so from the start, and past the last page there is nothing else. */
  lemma PageWasSweepable(t: Tables, start: map<string, Home>, mid: map<string, Home>, between: Tables, identity: string,
                         cursor: nat, ids: set<nat>, more: set<nat>, r: Result<(nat, nat), AdmissionError>)
    requires JournalOk(t) && DoneUpTo(t, start, between, mid, identity, cursor, ids)
    requires SweepableUpTo(t, start, identity, cursor) && Paged(between, mid, Some(identity), cursor, r, more)
    ensures r.Ok? && r.value.1 > 0 ==> SweepableUpTo(t, start, identity, r.value.0)
    ensures r.Ok? && r.value.1 < BATCH ==> AllSweepable(t, start, Some(identity))
  {
    StillListed(t, start, mid, between, identity, cursor, ids);
    hide SweepableUpTo, BetweenSweepable, NoneAfter, AllSweepable, DueRows, RowsBetween, DoneUpTo;
    if r.Ok? {
      if r.value.1 > 0 { RowsCarry(t, start, mid, between, identity, cursor, r.value.0); }
      if r.value.1 < BATCH { NoRowsLeft(t, start, between, identity, if r.value.1 == 0 then cursor else r.value.0, cursor); }
    }
  }

  /** Rows past the cursor are still in the journal, and their identity's intents are unchanged. */
  ghost predicate Unvisited(t: Tables, start: map<string, Home>, mid: map<string, Home>, between: Tables, identity: string, cursor: nat) {
    && HomeIn(mid, identity).intents == HomeIn(start, identity).intents
    && forall id :: id in t.journal && id > cursor && t.journal[id].identity == identity ==>
         id in between.journal && between.journal[id] == t.journal[id]
  }

  lemma StillListed(t: Tables, start: map<string, Home>, mid: map<string, Home>, between: Tables, identity: string,
                    cursor: nat, ids: set<nat>)
    requires DoneUpTo(t, start, between, mid, identity, cursor, ids)
    ensures Unvisited(t, start, mid, between, identity, cursor)
  {
    SweptKeepsIntents(t, start, mid, identity);
    hide Protected, Swept;
  }

  lemma RowsCarry(t: Tables, start: map<string, Home>, mid: map<string, Home>, between: Tables, identity: string,
                  cursor: nat, next: nat)
    requires Unvisited(t, start, mid, between, identity, cursor) && SweepableUpTo(t, start, identity, cursor)
    requires BetweenSweepable(between, mid, Some(identity), cursor, next)
    ensures SweepableUpTo(t, start, identity, next)
  {
    hide Acceptable;
    forall id | id in t.journal && cursor < id <= next && t.journal[id].identity == identity
      ensures Sweepable(HomeIn(start, identity), t.journal[id])
    {
      assert id in RowsBetween(between, Some(identity), cursor, next);
    }
  }

  lemma NoRowsLeft(t: Tables, start: map<string, Home>, between: Tables, identity: string, last: nat, cursor: nat)
    requires cursor <= last && SweepableUpTo(t, start, identity, last) && NoneAfter(between, Some(identity), last)
    requires forall id :: id in t.journal && id > cursor && t.journal[id].identity == identity ==>
               id in between.journal && between.journal[id] == t.journal[id]
    ensures AllSweepable(t, start, Some(identity))
  {
    hide Sweepable;
  }

  lemma SweptKeepsIntents(t: Tables, start: map<string, Home>, mid: map<string, Home>, identity: string)
    requires Swept(t, start, mid)
    ensures HomeIn(mid, identity).intents == HomeIn(start, identity).intents
  {
    assert SweptFiles(t, HomeIn(start, identity), HomeIn(mid, identity), identity);
  }

  lemma PageComposes(t: Tables, start: map<string, Home>, mid: map<string, Home>, now: map<string, Home>,
                     between: Tables, after: Tables, identity: string, cursor: nat, ids: set<nat>, more: set<nat>,
                     r: Result<(nat, nat), AdmissionError>)
    requires JournalOk(t) && DoneUpTo(t, start, between, mid, identity, cursor, ids)
    requires Swept(between, mid, now) && Completed(between, mid, now, after, more)
    requires Paged(between, mid, Some(identity), cursor, r, more)
    ensures Swept(t, start, now) && Completed(t, start, now, after, ids + more)
    ensures r.Ok? && r.value.1 < BATCH ==> ids + more == AllDueOf(t, start, {identity})
    ensures r.Ok? && r.value.1 >= BATCH ==>
              && cursor < r.value.0 && r.value.0 in t.journal
              && DoneUpTo(t, start, after, now, identity, r.value.0, ids + more)
  {
    hide Swept, NoneAfter, AllDueOf, Protected;
    BatchesCompose(t, start, mid, now, between, after, ids, more);
    if r.Ok? {
      if r.value.1 == 0 {
        assert ids + {} == ids;
        NothingMoreDue(t, start, between, ids, identity, cursor);
      } else {
        DueIsStable(t, start, mid, between, identity, cursor, r.value.0);
        if r.value.1 < BATCH {
          NoneAfterLess(between, after, Some(identity), r.value.0);
          NothingMoreDue(t, start, after, ids + more, identity, r.value.0);
        }
      }
    }
  }

  lemma NoneAfterLess(t: Tables, less: Tables, filter: Option<string>, after: nat)
    requires NoneAfter(t, filter, after) && forall id :: id in less.journal ==> id in t.journal && less.journal[id] == t.journal[id]
    ensures NoneAfter(less, filter, after)
  {
  }

  /** Pages through one identity's rows, 256 at a time, until a short page. */
  method CleanupIdentity(disk: Files, store: Store.DurableInboundStore, identity: string, reliable: bool)
    returns (r: Result<(), AdmissionError>, ghost ids: set<nat>)
    requires store.Valid()
    modifies disk, store
    ensures store.Valid() && Swept(old(store.tables), old(disk.homes), disk.homes)
    ensures Completed(old(store.tables), old(disk.homes), disk.homes, store.tables, ids)
    ensures r.Ok? ==> AllSweepable(old(store.tables), old(disk.homes), Some(identity))
    ensures reliable && AllSweepable(old(store.tables), old(disk.homes), Some(identity)) ==> r.Ok?
    ensures r.Ok? ==> ids == AllDueOf(old(store.tables), old(disk.homes), {identity})
  {
    ghost var t, start := store.tables, disk.homes;
    var cursor: nat := 0;
    ids := {};
    NothingDoneYet(t, start, identity);
    while true
      invariant store.Valid() && DoneUpTo(t, start, store.tables, disk.homes, identity, cursor, ids)
      invariant SweepableUpTo(t, start, identity, cursor)
      decreases Beyond(t, cursor)
    {
      hide Swept, Completed, DueRows, AllDueOf, AllSweepable, SweepableUpTo;
      var page;
      page, ids := CleanupPage(disk, store, identity, cursor, reliable, t, start, ids);
      if page.Err? { return Err(page.error), ids; }
      if page.value.1 < BATCH { return Ok(()), ids; }
      assert page.value.0 in Beyond(t, cursor) && Beyond(t, page.value.0) <= Beyond(t, cursor);
      cursor := page.value.0;
    }
  }

  /** Sweeping removes rows and files, never intents, so what was sweepable stays so. */
  lemma StaysSweepable(t: Tables, start: map<string, Home>, mid: map<string, Home>, between: Tables, ids: set<nat>, filter: Option<string>)
    requires Swept(t, start, mid) && Completed(t, start, mid, between, ids)
    ensures AllSweepable(t, start, filter) ==> AllSweepable(between, mid, filter)
  {
    hide Protected, Acceptable;
    forall id | id in between.journal ensures HomeIn(mid, between.journal[id].identity).intents == HomeIn(start, between.journal[id].identity).intents {
      assert SweptFiles(t, HomeIn(start, between.journal[id].identity), HomeIn(mid, between.journal[id].identity), between.journal[id].identity);
    }
  }

  /** Every due row of the given identities. */
  ghost function AllDueOf(t: Tables, homes: map<string, Home>, identities: set<string>): set<nat> {
    set id | id in t.journal && t.journal[id].identity in identities
             && !Protected(t, HomeIn(homes, t.journal[id].identity), t.journal[id])
  }

  // ----- What cleanup leaves, in terms of rows, intents and names -----

  /** An effect's archive, a row's attachment, image or audio, or a file of a staging intent. */
  ghost predicate Wanted(t: Tables, home: Home, a: Artifact) {
    if a.kind.Archive? then
      || (exists k :: k in t.effects && k.identity == a.identity && t.effects[k].archive == a.path)
      || (exists n :: n in home.intents && home.intents[n].Intent? && home.intents[n].archive == a.path)
    else
      || (exists k :: k in t.app.messages && k.identity == a.identity && t.app.messages[k].attachment == a.path)
      || (exists k :: k in t.app.messages && k.identity == a.identity && t.app.messages[k].image == a.path)
      || (exists k :: k in t.app.messages && k.identity == a.identity && t.app.messages[k].audio == a.path)
      || (exists n, i :: n in home.intents && home.intents[n].Intent? && 0 <= i < |home.intents[n].media|
                         && home.intents[n].media[i].name == a.path)
  }

  lemma WantedIff(t: Tables, home: Home, a: Artifact)
    ensures Wanted(t, home, a) <==> Protected(t, home, a)
  {
    if a.kind.Archive? {
      if n :| n in home.intents && home.intents[n].Intent? && home.intents[n].archive == a.path {
        assert NamesArchive(home.intents[n], a.path);
      }
    } else {
      if n, i :| n in home.intents && home.intents[n].Intent? && 0 <= i < |home.intents[n].media|
                 && home.intents[n].media[i].name == a.path {
        assert NamesMedia(home.intents[n], a.path);
      }
    }
  }

  /** A file directly inside the identity's own directory. */
  ghost predicate Touchable(a: Artifact) {
    && |a.identity| == 32 && (forall c :: c in a.identity ==> '0' <= c <= '9' || 'a' <= c <= 'f' || 'A' <= c <= 'F')
    && if a.kind.Archive? then exists stem: string :: Stem(a.identity, a.path, stem) else FileName(a.path)
  }

  predicate Stem(identity: string, path: string, stem: string) {
    stem != "" && '/' !in stem && path == "identities/" + identity + "/propagation-admissions/" + (stem + ".lxm")
  }

  /** Letters, digits, dots, spaces, hyphens and underscores, and not only dots and spaces. */
  ghost predicate FileName(name: string) {
    && |name| <= 1024 && (exists c :: c in name && c != '.' && c != ' ')
    && forall c :: c in name ==> 'a' <= c <= 'z' || 'A' <= c <= 'Z' || '0' <= c <= '9' || c == '.' || c == '_' || c == '-' || c == ' '
  }

  lemma StemFor(identity: string, path: string)
    requires UnderRoot(identity, path)
    ensures Stem(identity, path, path[|Root(identity)|..|path| - 4])
  {
    var root := Root(identity);
    var stem := path[|root|..|path| - 4];
    assert path == root + (stem + ".lxm");
    assert forall c :: c in stem ==> c in path[|root|..];
  }

  lemma StemOf(identity: string, path: string, stem: string)
    requires Stem(identity, path, stem)
    ensures UnderRoot(identity, path)
  {
    var root := Root(identity);
    assert path[|root|..] == stem + ".lxm" && path[..|root|] == root;
    assert path[|path| - 4..] == ".lxm";
  }

  lemma NamesIff(name: string)
    ensures FileName(name) <==> StoredName(name)
  {
  }

  lemma TouchableIff(a: Artifact)
    ensures Touchable(a) <==> Acceptable(a)
  {
    NamesIff(a.path);
    hide Stem, UnderRoot, FileName, StoredName;
    if UnderRoot(a.identity, a.path) { StemFor(a.identity, a.path); }
    if stem: string :| Stem(a.identity, a.path, stem) { StemOf(a.identity, a.path, stem); }
  }

  lemma NoSlash(bytes: seq<byte>)
    ensures '/' !in Hex.Encode(bytes)
  {
    Hex.DecodeInvertsEncode(bytes);
    Hex.DecodesIff(Hex.Encode(bytes));
    hide Hex.Encode, Hex.Decode;
    assert !Hex.Digit('/');
  }

  /** Cleanup may touch every archive that staging writes. */
  lemma OwnArchivesAreTouchable(identity: string, message: Digest, wire: Digest)
    requires HexIdentity(identity)
    ensures Acceptable(Artifact(identity, Archive, ArchivePath(identity, message, wire)))
  {
    var a, stem := Artifact(identity, Archive, ArchivePath(identity, message, wire)), Hex.Encode(message) + "-" + Hex.Encode(wire);
    NoSlash(message);
    NoSlash(wire);
    StemOf(identity, a.path, stem);
  }

  /** Only journalled files that nobody wants have gone, and no intent has. */
  ghost predicate OnlyUnwanted(t: Tables, start: map<string, Home>, now: map<string, Home>) {
    && (forall identity :: HomeIn(now, identity).intents == HomeIn(start, identity).intents)
    && (forall identity, path :: path in HomeIn(now, identity).archives ==> path in HomeIn(start, identity).archives)
    && (forall identity, name :: name in HomeIn(now, identity).media ==> name in HomeIn(start, identity).media)
    && (forall identity, path :: path in HomeIn(start, identity).archives && path !in HomeIn(now, identity).archives ==>
          var a := Artifact(identity, Archive, path);
          (exists id :: id in t.journal && t.journal[id] == a) && Touchable(a) && !Wanted(t, HomeIn(start, identity), a))
    && (forall identity, name :: name in HomeIn(start, identity).media && name !in HomeIn(now, identity).media ==>
          var a := Artifact(identity, Media, name);
          (exists id :: id in t.journal && t.journal[id] == a) && Touchable(a) && !Wanted(t, HomeIn(start, identity), a))
  }

  lemma SweptIsUnwanted(t: Tables, start: map<string, Home>, now: map<string, Home>)
    requires Swept(t, start, now)
    ensures OnlyUnwanted(t, start, now)
  {
    hide Wanted, Touchable, Protected, Acceptable;
    forall a: Artifact, home ensures Wanted(t, home, a) <==> Protected(t, home, a) { WantedIff(t, home, a); }
    forall a: Artifact ensures Touchable(a) <==> Acceptable(a) { TouchableIff(a); }
    forall identity ensures SweptFiles(t, HomeIn(start, identity), HomeIn(now, identity), identity) {}
    hide HomeIn;
  }

  /** Of the journal rows of these identities exactly those whose file is wanted remain, and the other files are gone. */
  ghost predicate Tidied(t: Tables, start: map<string, Home>, after: Tables, now: map<string, Home>, identities: set<string>) {
    && after == t.(journal := after.journal)
    && (forall id :: id in after.journal ==> id in t.journal && after.journal[id] == t.journal[id])
    && (forall id :: id in t.journal && t.journal[id].identity !in identities ==> id in after.journal)
    && (forall id :: id in t.journal && t.journal[id].identity in identities ==>
          (id in after.journal <==> Wanted(t, HomeIn(start, t.journal[id].identity), t.journal[id])))
    && (forall id :: id in t.journal && t.journal[id].identity in identities && id !in after.journal ==>
          var a, home := t.journal[id], HomeIn(now, t.journal[id].identity);
          if a.kind.Archive? then a.path !in home.archives else a.path !in home.media)
  }

  lemma CompletedIsTidy(t: Tables, start: map<string, Home>, after: Tables, now: map<string, Home>, identities: set<string>)
    requires Completed(t, start, now, after, AllDueOf(t, start, identities))
    ensures Tidied(t, start, after, now, identities)
  {
    hide Wanted, Protected, HomeIn;
    forall a: Artifact, home ensures Wanted(t, home, a) <==> Protected(t, home, a) { WantedIff(t, home, a); }
    forall id | id in t.journal ensures id in AllDueOf(t, start, identities) <==>
        t.journal[id].identity in identities && !Protected(t, HomeIn(start, t.journal[id].identity), t.journal[id]) {}
  }

  /**
   * Cleans up after a deletion. When it succeeds, a journal row of these
   * identities survives exactly if something still names its file.
   */
  method CleanupDeletedArtifacts(disk: Files, store: Store.DurableInboundStore, identities: set<string>, reliable: bool)
    returns (r: Result<(), AdmissionError>, ghost ids: set<nat>)
    requires store.Valid()
    modifies disk, store
    ensures store.Valid() && Swept(old(store.tables), old(disk.homes), disk.homes)
    ensures Completed(old(store.tables), old(disk.homes), disk.homes, store.tables, ids)
    ensures r.Ok? ==> EachSweepable(old(store.tables), old(disk.homes), identities)
    ensures reliable && EachSweepable(old(store.tables), old(disk.homes), identities) ==> r.Ok?
    ensures r.Ok? ==> ids == AllDueOf(old(store.tables), old(disk.homes), identities)
    ensures OnlyUnwanted(old(store.tables), old(disk.homes), disk.homes)
    ensures r.Ok? ==> Tidied(old(store.tables), old(disk.homes), store.tables, disk.homes, identities)
  {
    hide *;
    ghost var t, start := store.tables, disk.homes;
    var todo := identities;
    ghost var done: set<string> := {};
    ids := {};
    CleanupBegins(t, start);
    while todo != {}
      invariant done !! todo && done + todo == identities
      invariant store.Valid() && Cleaned(t, start, store.tables, disk.homes, done, ids)
      decreases todo
    {
      var identity :| identity in todo;
      ghost var between, mid, more := store.tables, disk.homes, {};
      r, more := CleanupIdentity(disk, store, identity, reliable);
      CleanupContinues(t, start, between, mid, store.tables, disk.homes, done, ids, identity, more);
      if r.Err? {
        if EachSweepable(t, start, identities) { OneOfEach(t, start, identities, identity); }
        SweptIsUnwanted(t, start, disk.homes);
        return r, ids + more;
      }
      ids, todo, done := ids + more, todo - {identity}, done + {identity};
    }
    assert done == identities;
    CleanedIs(t, start, store.tables, disk.homes, done, ids);
    SweptIsUnwanted(t, start, disk.homes);
    CompletedIsTidy(t, start, store.tables, disk.homes, identities);
    return Ok(()), ids;
  }

  ghost predicate EachSweepable(t: Tables, homes: map<string, Home>, some: set<string>) {
    forall i :: i in some ==> AllSweepable(t, homes, Some(i))
  }

  lemma OneOfEach(t: Tables, homes: map<string, Home>, some: set<string>, identity: string)
    requires EachSweepable(t, homes, some) && identity in some
    ensures AllSweepable(t, homes, Some(identity))
  {
  }

  /** The cleanup after some of the identities. */
  ghost predicate Cleaned(t: Tables, start: map<string, Home>, now: Tables, homes: map<string, Home>, done: set<string>, ids: set<nat>) {
    && Swept(t, start, homes) && Completed(t, start, homes, now, ids) && ids == AllDueOf(t, start, done)
    && EachSweepable(t, start, done)
  }

  lemma CleanedIs(t: Tables, start: map<string, Home>, now: Tables, homes: map<string, Home>, done: set<string>, ids: set<nat>)
    requires Cleaned(t, start, now, homes, done, ids)
    ensures Swept(t, start, homes) && Completed(t, start, homes, now, ids) && ids == AllDueOf(t, start, done)
    ensures EachSweepable(t, start, done)
  {
    hide Swept, Completed, AllDueOf, EachSweepable;
  }

  lemma CleanupBegins(t: Tables, start: map<string, Home>)
    ensures Cleaned(t, start, t, start, {}, {})
  {
    assert t.journal - {} == t.journal;
  }

  lemma CleanupContinues(t: Tables, start: map<string, Home>, between: Tables, mid: map<string, Home>, now: Tables,
                         homes: map<string, Home>, done: set<string>, ids: set<nat>, identity: string, more: set<nat>)
    requires Cleaned(t, start, between, mid, done, ids) && identity !in done
    requires Swept(between, mid, homes) && Completed(between, mid, homes, now, more)
    ensures Swept(t, start, homes) && Completed(t, start, homes, now, ids + more)
    ensures AllSweepable(t, start, Some(identity)) <==> AllSweepable(between, mid, Some(identity))
    ensures more == AllDueOf(between, mid, {identity}) && AllSweepable(between, mid, Some(identity)) ==>
              Cleaned(t, start, now, homes, done + {identity}, ids + more)
  {
    StaysSweepable(t, start, mid, between, ids, Some(identity));
    WasSweepable(t, start, mid, between, ids, done, identity);
    hide Swept, Completed, AllDueOf, AllSweepable;
    BatchesCompose(t, start, mid, homes, between, now, ids, more);
    OneIdentityMore(t, start, mid, between, done, identity);
  }

  lemma WasSweepable(t: Tables, start: map<string, Home>, mid: map<string, Home>, between: Tables, ids: set<nat>,
                     done: set<string>, identity: string)
    requires Swept(t, start, mid) && Completed(t, start, mid, between, ids) && ids == AllDueOf(t, start, done) && identity !in done
    ensures AllSweepable(between, mid, Some(identity)) ==> AllSweepable(t, start, Some(identity))
  {
    SweptKeepsIntents(t, start, mid, identity);
    hide Protected, Acceptable, Swept;
    forall id | id in t.journal && t.journal[id].identity == identity ensures id in between.journal {
      assert id !in ids;
    }
  }

  lemma OneIdentityMore(t: Tables, start: map<string, Home>, mid: map<string, Home>, between: Tables, done: set<string>, identity: string)
    requires identity !in done && Swept(t, start, mid) && Completed(t, start, mid, between, AllDueOf(t, start, done))
    ensures AllDueOf(t, start, done) + AllDueOf(between, mid, {identity}) == AllDueOf(t, start, done + {identity})
  {
    assert SweptFiles(t, HomeIn(start, identity), HomeIn(mid, identity), identity);
    forall id | id in t.journal && t.journal[id].identity == identity
      ensures Protected(t, HomeIn(start, identity), t.journal[id]) <==> Protected(between, HomeIn(mid, identity), t.journal[id])
    {
      ProtectionIsStable(t, between, HomeIn(start, identity), HomeIn(mid, identity), t.journal[id]);
    }
    var first, second := AllDueOf(t, start, done), AllDueOf(between, mid, {identity});
    forall id ensures id in first + second <==> id in AllDueOf(t, start, done + {identity}) {
      assert id !in first ==> (id in between.journal <==> id in t.journal);
    }
  }

  /** Past the last page there is nothing left to be due. */
  lemma NothingMoreDue(t: Tables, start: map<string, Home>, between: Tables, gone: set<nat>, identity: string, cursor: nat)
    requires JournalOk(t) && between.journal == t.journal - gone && gone == DueRows(t, start, Some(identity), 0, cursor)
    requires NoneAfter(between, Some(identity), cursor)
    ensures gone == AllDueOf(t, start, {identity})
  {
    forall id | id in AllDueOf(t, start, {identity}) ensures id in gone {
      assert id in between.journal || id in gone;
    }
  }
}
