/**
 * The orphan pass over staging intents. Content-addressed files may be shared,
 * so owners are counted before anything is removed.
 */
module Reconcile {
  import opened Common
  import opened Tables
  import opened Disk
  import Modular
  import MessagePack

  const ORPHAN_GRACE: nat := 86400

  type Intents = map<Digest, Staged>

  datatype Hashes = Hashes(message: Digest, wire: Digest)

  /** Owner counts as the pass keeps them; a missing entry is zero. */
  datatype Owners = Owners(archives: map<Hashes, nat>, media: map<string, nat>)

  function Count<K>(counts: map<K, nat>, k: K): nat { if k in counts then counts[k] else 0 }

  /** The staged intents that own an archive. */
  ghost function ArchiveOwners(intents: Intents, h: Hashes): set<Digest> {
    set n | n in intents && intents[n].Intent? && Hashes(intents[n].message, intents[n].wire) == h
  }

  /** The places in staged intents that name a media file, with multiplicity. */
  ghost function MediaOwners(intents: Intents, name: string): set<(Digest, nat)> {
    set n, i | n in intents && intents[n].Intent? && 0 <= i < |intents[n].media| && intents[n].media[i].name == name :: (n, i)
  }

  /** The counts are those of exactly these intents. */
  ghost predicate Exact(o: Owners, intents: Intents) {
    && (forall h :: Count(o.archives, h) == |ArchiveOwners(intents, h)|)
    && (forall name :: Count(o.media, name) == |MediaOwners(intents, name)|)
  }

  function Occurrences(media: seq<FileRef>, name: string): nat {
    if media == [] then 0
    else Occurrences(media[..|media| - 1], name) + if media[|media| - 1].name == name then 1 else 0
  }

  ghost function Places(n: Digest, media: seq<FileRef>, name: string): set<(Digest, nat)> {
    set i | 0 <= i < |media| && media[i].name == name :: (n, i)
  }

  lemma {:induction false} PlacesCount(n: Digest, media: seq<FileRef>, name: string)
    ensures |Places(n, media, name)| == Occurrences(media, name)
  {
    if media != [] {
      var last := |media| - 1;
      PlacesCount(n, media[..last], name);
      if media[last].name == name {
        assert Places(n, media, name) == Places(n, media[..last], name) + {(n, last)};
      } else {
        assert Places(n, media, name) == Places(n, media[..last], name);
      }
    }
  }

  /** `large` is `small` with one more intent. */
  ghost predicate OneMore(small: Intents, large: Intents, n: Digest) {
    n in large && large[n].Intent? && small == large - {n}
  }

  function HashesOf(s: Staged): Hashes
    requires s.Intent?
  {
    Hashes(s.message, s.wire)
  }

  lemma OneMoreArchive(small: Intents, large: Intents, n: Digest, h: Hashes)
    requires OneMore(small, large, n)
    ensures n !in ArchiveOwners(small, h)
    ensures ArchiveOwners(large, h) == ArchiveOwners(small, h) + if h == HashesOf(large[n]) then {n} else {}
  {
    assert forall m :: m != n ==> (m in large <==> m in small) && (m in large ==> large[m] == small[m]);
  }

  lemma ArchiveOwnersWith(small: Intents, large: Intents, n: Digest, h: Hashes)
    requires OneMore(small, large, n)
    ensures |ArchiveOwners(large, h)| == |ArchiveOwners(small, h)| + if h == HashesOf(large[n]) then 1 else 0
  {
    assert n in large && large[n].Intent?;
    hide *;
    OneMoreArchive(small, large, n, h);
  }

  lemma OneMorePlaces(small: Intents, large: Intents, n: Digest, name: string)
    requires OneMore(small, large, n)
    ensures MediaOwners(large, name) == MediaOwners(small, name) + Places(n, large[n].media, name)
    ensures MediaOwners(small, name) !! Places(n, large[n].media, name)
  {
    assert forall m :: m != n ==> (m in large <==> m in small) && (m in large ==> large[m] == small[m]);
  }

  lemma MediaOwnersWith(small: Intents, large: Intents, n: Digest, name: string)
    requires OneMore(small, large, n)
    ensures |MediaOwners(large, name)| == |MediaOwners(small, name)| + Occurrences(large[n].media, name)
  {
    assert n in large && large[n].Intent?;
    hide *;
    OneMorePlaces(small, large, n, name);
    PlacesCount(n, large[n].media, name);
  }

  /** Both counts move by one intent's share, in either direction. */
  lemma ExactStep(few: Owners, small: Intents, many: Owners, large: Intents, n: Digest)
    requires OneMore(small, large, n)
    requires forall h :: Count(many.archives, h) == Count(few.archives, h) + if h == HashesOf(large[n]) then 1 else 0
    requires forall name :: Count(many.media, name) == Count(few.media, name) + Occurrences(large[n].media, name)
    ensures Exact(few, small) <==> Exact(many, large)
  {
    forall h ensures Count(few.archives, h) - |ArchiveOwners(small, h)| == Count(many.archives, h) - |ArchiveOwners(large, h)| {
      ArchiveOwnersWith(small, large, n, h);
    }
    forall name ensures Count(few.media, name) - |MediaOwners(small, name)| == Count(many.media, name) - |MediaOwners(large, name)| {
      MediaOwnersWith(small, large, n, name);
    }
  }

  // ----- Counting -----

  method AddMedia(counts: map<string, nat>, media: seq<FileRef>) returns (after: map<string, nat>)
    ensures forall name :: Count(after, name) == Count(counts, name) + Occurrences(media, name)
  {
    after := counts;
    for i := 0 to |media|
      invariant forall name :: Count(after, name) == Count(counts, name) + Occurrences(media[..i], name)
    {
      assert media[..i + 1][..i] == media[..i];
      after := after[media[i].name := Count(after, media[i].name) + 1];
    }
    assert media[..|media|] == media;
  }

  /** Decrements only entries that exist, as often as the intent names them. */
  method DropMedia(counts: map<string, nat>, media: seq<FileRef>) returns (after: map<string, nat>)
    requires forall name :: Occurrences(media, name) <= Count(counts, name)
    ensures forall name :: Count(after, name) == Count(counts, name) - Occurrences(media, name)
  {
    after := counts;
    for i := 0 to |media|
      invariant forall name :: Count(after, name) == Count(counts, name) - Occurrences(media[..i], name)
    {
      assert media[..i + 1][..i] == media[..i];
      OccurrencesGrow(media, i + 1, media[i].name);
      assert media[i].name in after;
      after := after[media[i].name := after[media[i].name] - 1];
    }
    assert media[..|media|] == media;
  }

  lemma {:induction false} OccurrencesGrow(media: seq<FileRef>, i: nat, name: string)
    requires i <= |media|
    ensures Occurrences(media[..i], name) <= Occurrences(media, name)
    decreases |media|
  {
    if i < |media| {
      OccurrencesGrow(media[..|media| - 1], i, name);
      assert media[..|media| - 1][..i] == media[..i];
    } else {
      assert media[..i] == media;
    }
  }

  method CountOne(o: Owners, ghost seen: Intents, n: Digest, s: Staged) returns (more: Owners)
    requires Exact(o, seen) && n !in seen && s.Intent?
    ensures Exact(more, seen[n := s])
  {
    var h := HashesOf(s);
    var media := AddMedia(o.media, s.media);
    more := Owners(o.archives[h := Count(o.archives, h) + 1], media);
    assert seen[n := s] - {n} == seen;
    ExactStep(o, seen, more, seen[n := s], n);
  }

  method CountOwners(identity: string, intents: Intents, names: seq<Digest>) returns (r: Result<Owners, AdmissionError>)
    requires (forall n :: n in names <==> n in intents) && forall i, j :: 0 <= i < j < |names| ==> names[i] != names[j]
    ensures r.Ok? <==> AllGenuine(identity, intents)
    ensures r.Ok? ==> Exact(r.value, intents)
    ensures r.Err? ==> r.error == MissingEffect
  {
    var o := Owners(map[], map[]);
    ghost var seen: Intents := map[];
    assert Exact(o, seen) by {
      assert forall h :: ArchiveOwners(seen, h) == {};
      assert forall name :: MediaOwners(seen, name) == {};
    }
    for i := 0 to |names|
      invariant Exact(o, seen)
      invariant forall n :: n in seen <==> n in names[..i]
      invariant forall n :: n in seen ==> n in intents && seen[n] == intents[n]
      invariant forall n :: n in names[..i] ==> Genuine(identity, n, intents[n])
    {
      var n := names[i];
      var s := intents[n];
      if !Genuine(identity, n, s) { return Err(MissingEffect); }
      o := CountOne(o, seen, n, s);
      seen := seen[n := s];
      assert names[..i + 1] == names[..i] + [n];
    }
    assert names[..|names|] == names;
    assert seen.Keys == intents.Keys && seen == intents;
    return Ok(o);
  }

  method Forget(o: Owners, ghost intents: Intents, n: Digest, s: Staged) returns (after: Owners)
    requires n in intents && intents[n] == s && s.Intent? && Exact(o, intents)
    ensures Exact(after, intents - {n})
  {
    ArchiveOwnersWith(intents - {n}, intents, n, HashesOf(s));
    forall name ensures Occurrences(s.media, name) <= Count(o.media, name) {
      MediaOwnersWith(intents - {n}, intents, n, name);
    }
    var h := HashesOf(s);
    var archives := o.archives[h := o.archives[h] - 1];
    var media := DropMedia(o.media, s.media);
    after := Owners(archives, media);
    ExactStep(after, intents - {n}, o, intents, n);
  }

  // ----- Removing -----

  ghost predicate OthersNameArchive(intents: Intents, n: Digest, path: string) {
    exists m :: m in intents && m != n && NamesArchive(intents[m], path)
  }

  ghost predicate OthersNameMedia(intents: Intents, n: Digest, name: string) {
    exists m :: m in intents && m != n && NamesMedia(intents[m], name)
  }

  /** Not kept by any effect, and old enough to be given up. */
  predicate Orphan(t: Tables, identity: string, s: Staged)
    requires s.Intent?
  {
    !ReferencesArchive(t, identity, s.archive) && s.age >= ORPHAN_GRACE
  }

  /** The only owner: the intent lists the name once, and no other intent lists it. */
  ghost predicate Sole(intents: Intents, n: Digest, name: string)
    requires n in intents && intents[n].Intent?
  {
    Occurrences(intents[n].media, name) == 1 && !OthersNameMedia(intents, n, name)
  }

  /** A file that goes with its only owner, because no message row shows it. */
  ghost predicate Unneeded(t: Tables, identity: string, intents: Intents, n: Digest, name: string)
    requires n in intents && intents[n].Intent?
  {
    Sole(intents, n, name) && !ReferencesMedia(t, identity, name)
  }

  /** Only the visited orphan's own files were removed, and none that a row or another intent names. */
  ghost predicate Spares(t: Tables, identity: string, before: Home, after: Home, n: Digest)
    requires n in before.intents && before.intents[n].Intent?
  {
    && after.archives <= before.archives && after.media <= before.media
    && (forall path :: path in before.archives && path !in after.archives ==>
          path == before.intents[n].archive && Orphan(t, identity, before.intents[n]) && !OthersNameArchive(before.intents, n, path))
    && (forall name :: name in before.media && name !in after.media ==>
          Orphan(t, identity, before.intents[n]) && Unneeded(t, identity, before.intents, n, name))
  }

  /** All that the orphan was the only one to own is gone. */
  ghost predicate Cleared(t: Tables, identity: string, before: Home, after: Home, n: Digest)
    requires n in before.intents && before.intents[n].Intent?
  {
    && (before.intents[n].archive in after.archives ==> OthersNameArchive(before.intents, n, before.intents[n].archive))
    && (forall name :: name in after.media ==> !Unneeded(t, identity, before.intents, n, name))
  }

  /** A count of one means no other intent owns the archive; the paths tell them apart. */
  lemma SoleArchive(identity: string, o: Owners, intents: Intents, n: Digest)
    requires AllGenuine(identity, intents) && Exact(o, intents) && n in intents
    ensures Count(o.archives, HashesOf(intents[n])) == 1 <==> !OthersNameArchive(intents, n, intents[n].archive)
  {
    var owners := ArchiveOwners(intents, HashesOf(intents[n]));
    assert n in owners;
    forall m | m in intents && m != n ensures m in owners <==> NamesArchive(intents[m], intents[n].archive) {
      if NamesArchive(intents[m], intents[n].archive) {
        ArchivePathInjective(identity, intents[m].message, intents[m].wire, intents[n].message, intents[n].wire);
      }
    }
    if |owners| == 1 {
      assert owners - {n} == {} by { assert |owners - {n}| == 0; }
    }
    if !OthersNameArchive(intents, n, intents[n].archive) {
      assert owners == {n};
    }
  }

  lemma {:induction false} ListedOccurs(media: seq<FileRef>, i: nat)
    requires i < |media|
    ensures Occurrences(media, media[i].name) > 0
  {
    if i < |media| - 1 { ListedOccurs(media[..|media| - 1], i); }
  }

  lemma {:induction false} OccursListed(media: seq<FileRef>, name: string) returns (i: nat)
    requires Occurrences(media, name) > 0
    ensures i < |media| && media[i].name == name
  {
    if media[|media| - 1].name == name { i := |media| - 1; } else { i := OccursListed(media[..|media| - 1], name); }
  }

  /** Nobody else lists the name exactly when the other intents have no place for it. */
  lemma NoOtherPlace(intents: Intents, n: Digest, name: string)
    requires n in intents
    ensures !OthersNameMedia(intents, n, name) <==> |MediaOwners(intents - {n}, name)| == 0
  {
    var less := intents - {n};
    if m :| m in intents && m != n && NamesMedia(intents[m], name) {
      var j :| 0 <= j < |intents[m].media| && intents[m].media[j].name == name;
      assert (m, j) in MediaOwners(less, name);
    }
    if p :| p in MediaOwners(less, name) {
      assert NamesMedia(intents[p.0], name);
    } else {
      assert MediaOwners(less, name) == {};
    }
  }

  /** A listed name's count is one exactly when this intent is its only owner and lists it once. */
  lemma SoleMedia(o: Owners, intents: Intents, n: Digest, i: nat)
    requires Exact(o, intents) && n in intents && intents[n].Intent? && i < |intents[n].media|
    ensures Count(o.media, intents[n].media[i].name) == 1 <==> Sole(intents, n, intents[n].media[i].name)
  {
    var name := intents[n].media[i].name;
    MediaOwnersWith(intents - {n}, intents, n, name);
    ListedOccurs(intents[n].media, i);
    NoOtherPlace(intents, n, name);
  }

  /** What the first `count` names of the orphan's list have lost. */
  ghost predicate MediaCleared(t: Tables, identity: string, before: Home, media: set<string>, n: Digest, count: nat)
    requires n in before.intents && before.intents[n].Intent? && count <= |before.intents[n].media|
  {
    && media <= before.media
    && (forall name :: name in before.media && name !in media ==> Unneeded(t, identity, before.intents, n, name))
    && (forall i :: 0 <= i < count && Unneeded(t, identity, before.intents, n, before.intents[n].media[i].name) ==>
          before.intents[n].media[i].name !in media)
  }

  lemma OneNameCleared(t: Tables, identity: string, before: Home, media: set<string>, n: Digest, i: nat, removed: bool)
    requires n in before.intents && before.intents[n].Intent? && i < |before.intents[n].media|
    requires MediaCleared(t, identity, before, media, n, i)
    requires removed ==> Unneeded(t, identity, before.intents, n, before.intents[n].media[i].name)
    requires !removed && Unneeded(t, identity, before.intents, n, before.intents[n].media[i].name) ==>
               before.intents[n].media[i].name !in media
    ensures MediaCleared(t, identity, before, if removed then media - {before.intents[n].media[i].name} else media, n, i + 1)
  {
    hide Unneeded;
  }

  /** A name the orphan lists stays exactly if a row shows it, another intent lists it, or the orphan lists it twice. */
  lemma AllNamesCleared(t: Tables, identity: string, before: Home, media: set<string>, n: Digest)
    requires n in before.intents && before.intents[n].Intent?
    requires MediaCleared(t, identity, before, media, n, |before.intents[n].media|)
    ensures forall name :: name in media <==> name in before.media && !Unneeded(t, identity, before.intents, n, name)
  {
    forall name | Unneeded(t, identity, before.intents, n, name) ensures name !in media {
      var i := OccursListed(before.intents[n].media, name);
    }
  }

  /** Removes an orphan's media that nobody else owns and no message shows. */
  method ClearMedia(disk: Files, t: Tables, identity: string, n: Digest, o: Owners, reliable: bool) returns (ok: bool)
    requires n in disk.At(identity).intents && disk.At(identity).intents[n].Intent?
    requires Exact(o, disk.At(identity).intents)
    modifies disk
    ensures forall other :: other != identity ==> disk.At(other) == old(disk.At(other))
    ensures disk.At(identity) == old(disk.At(identity)).(media := disk.At(identity).media)
    ensures disk.At(identity).media <= old(disk.At(identity)).media
    ensures forall name :: name in old(disk.At(identity)).media && name !in disk.At(identity).media ==>
              Unneeded(t, identity, old(disk.At(identity)).intents, n, name)
    ensures reliable ==> ok
    ensures ok ==> forall name :: name in disk.At(identity).media <==>
              name in old(disk.At(identity)).media && !Unneeded(t, identity, old(disk.At(identity)).intents, n, name)
  {
    ghost var before := disk.At(identity);
    var media := disk.At(identity).intents[n].media;
    hide Exact, Sole, OthersNameMedia, ReferencesMedia;
    for i := 0 to |media|
      invariant forall other :: other != identity ==> disk.At(other) == old(disk.At(other))
      invariant disk.At(identity) == before.(media := disk.At(identity).media)
      invariant MediaCleared(t, identity, before, disk.At(identity).media, n, i)
    {
      var name := media[i].name;
      SoleMedia(o, before.intents, n, i);
      if Count(o.media, name) == 1 && !ReferencesMedia(t, identity, name) && name in disk.At(identity).media {
        OneNameCleared(t, identity, before, disk.At(identity).media, n, i, true);
        var removed := disk.RemoveMedia(identity, name, reliable);
        if !removed { return false; }
      } else {
        OneNameCleared(t, identity, before, disk.At(identity).media, n, i, false);
      }
    }
    AllNamesCleared(t, identity, before, disk.At(identity).media, n);
    ok := true;
  }

  /** The intents after this visit, and the counts that match them. */
  datatype Visit = Kept | Removed(owners: Owners)

  predicate Waiting(t: Tables, identity: string, s: Staged)
    requires s.Intent?
  {
    !ReferencesArchive(t, identity, s.archive) && s.age < ORPHAN_GRACE
  }

  /** The files a retained intent names are the ones the database expects. */
  predicate Verifies(t: Tables, identity: string, s: Staged, verify: (string, Digest, seq<FileRef>) -> bool)
    requires s.Intent?
  {
    ReferencesArchive(t, identity, s.archive) ==> verify(s.archive, s.wire, s.media)
  }

  /** An intent goes last: verified when its archive is retained, otherwise after all that only it owned. */
  ghost predicate Released(t: Tables, identity: string, before: Home, after: Home, n: Digest,
                           verify: (string, Digest, seq<FileRef>) -> bool)
    requires n in before.intents && before.intents[n].Intent?
  {
    && after.intents == before.intents - {n}
    && Verifies(t, identity, before.intents[n], verify)
    && (ReferencesArchive(t, identity, before.intents[n].archive)
        || (Orphan(t, identity, before.intents[n]) && Cleared(t, identity, before, after, n)))
  }

  /** An orphan's archive and media go, each unless somebody else still needs it. */
  method ClearOrphan(disk: Files, t: Tables, identity: string, n: Digest, o: Owners, reliable: bool) returns (ok: bool)
    requires AllGenuine(identity, disk.At(identity).intents) && n in disk.At(identity).intents
    requires Exact(o, disk.At(identity).intents) && Orphan(t, identity, disk.At(identity).intents[n])
    modifies disk
    ensures forall other :: other != identity ==> disk.At(other) == old(disk.At(other))
    ensures disk.At(identity).intents == old(disk.At(identity)).intents
    ensures Spares(t, identity, old(disk.At(identity)), disk.At(identity), n)
    ensures reliable ==> ok
    ensures ok ==> Cleared(t, identity, old(disk.At(identity)), disk.At(identity), n)
  {
    ghost var before := disk.At(identity);
    var s := disk.At(identity).intents[n];
    SoleArchive(identity, o, before.intents, n);
    hide Exact, Unneeded, OthersNameArchive, Genuine, ReferencesArchive;
    if Count(o.archives, HashesOf(s)) == 1 && s.archive in disk.At(identity).archives {
      ok := disk.RemoveArchive(identity, s.archive, reliable);
      if !ok { return; }
    }
    ok := ClearMedia(disk, t, identity, n, o, reliable);
  }

  /**
   * One intent of the window: verified and dropped when its archive is
   * retained, left alone while young, otherwise cleared with its own files.
   */
  method VisitIntent(disk: Files, t: Tables, identity: string, n: Digest, o: Owners,
                     verify: (string, Digest, seq<FileRef>) -> bool, reliable: bool)
    returns (r: Result<Visit, AdmissionError>)
    requires AllGenuine(identity, disk.At(identity).intents) && n in disk.At(identity).intents
    requires Exact(o, disk.At(identity).intents)
    modifies disk
    ensures forall other :: other != identity ==> disk.At(other) == old(disk.At(other))
    ensures Spares(t, identity, old(disk.At(identity)), disk.At(identity), n)
    ensures r == Ok(Kept) ==> disk.At(identity) == old(disk.At(identity))
                              && Waiting(t, identity, old(disk.At(identity)).intents[n])
    ensures r.Ok? && r.value.Removed? ==>
              && Released(t, identity, old(disk.At(identity)), disk.At(identity), n, verify)
              && Exact(r.value.owners, disk.At(identity).intents)
    ensures r.Ok? ==> Verifies(t, identity, old(disk.At(identity)).intents[n], verify)
    ensures reliable && Verifies(t, identity, old(disk.At(identity)).intents[n], verify) ==> r.Ok?
    ensures r.Err? ==>
              || disk.At(identity).intents == old(disk.At(identity)).intents
              || Released(t, identity, old(disk.At(identity)), disk.At(identity), n, verify)
  {
    ghost var before := disk.At(identity);
    var s := disk.At(identity).intents[n];
    hide Exact, Unneeded, OthersNameArchive, OthersNameMedia, Genuine, ReferencesArchive;
    if ReferencesArchive(t, identity, s.archive) {
      if !verify(s.archive, s.wire, s.media) { return Err(Unavailable); }
    } else {
      if s.age < ORPHAN_GRACE { return Ok(Kept); }
      var cleared := ClearOrphan(disk, t, identity, n, o, reliable);
      if !cleared { return Err(Unavailable); }
    }
    var removed := disk.RemoveIntent(identity, n, reliable);
    if !removed { return Err(Unavailable); }
    var after := Forget(o, before.intents, n, s);
    return Ok(Removed(after));
  }

  // ----- The pass -----

  /** The place of the cursor's j-th step in a list of n. */
  function Slot(cursor: nat, j: nat, n: nat): nat
    requires n > 0
  {
    (cursor % n + j) % n
  }

  lemma SlotOnce(cursor: nat, j: nat, n: nat)
    requires j < n
    ensures Slot(cursor, j, n) == if cursor % n + j < n then cursor % n + j else cursor % n + j - n
  {
    Modular.ModOnce(cursor % n + j, n);
  }

  /** One window never visits an intent twice. */
  lemma WindowDistinct(cursor: nat, i: nat, j: nat, n: nat)
    requires i < j < n
    ensures Slot(cursor, i, n) != Slot(cursor, j, n)
  {
    SlotOnce(cursor, i, n);
    SlotOnce(cursor, j, n);
  }

  /** The places one pass visits, in order. */
  function Window(cursor: nat, n: nat): (places: seq<nat>)
    requires n > 0
    ensures |places| == Min(n, BATCH) && forall p :: p in places ==> p < n
  {
    seq(Min(n, BATCH), j requires 0 <= j => Slot(cursor, j, n))
  }

  /**
   * With the list unchanged, the cursor that advances by 256 a pass brings every
   * place into a window within ceil(n / 256) passes.
   */
  lemma CursorReachesAll(cursor: nat, n: nat, place: nat)
    requires place < n
    ensures exists pass: nat :: BATCH * pass < n && place in Window(cursor + BATCH * pass, n)
  {
    var c := cursor % n;
    var d := if place >= c then place - c else place - c + n;
    var pass, j := d / BATCH, d % BATCH;
    SlotOfSum(cursor, BATCH * pass, j, n);
    Modular.ModAdd(cursor, d, n);
    Modular.ModOnce(c + d, n);
    assert Window(cursor + BATCH * pass, n)[j] == place;
  }

  lemma SlotOfSum(cursor: nat, shift: nat, j: nat, n: nat)
    requires n > 0
    ensures Slot(cursor + shift, j, n) == (cursor + (shift + j)) % n
  {
    Modular.ModAdd(cursor + shift, j, n);
    assert cursor + shift + j == cursor + (shift + j);
  }

  // ----- The directory listing -----

  /** Byte strings of one length sort as the big-endian numbers they spell. */
  function Rank(d: Digest): nat { MessagePack.FromBe(d) }

  lemma {:induction false} RankInjective(a: seq<byte>, b: seq<byte>)
    requires |a| == |b| && MessagePack.FromBe(a) == MessagePack.FromBe(b)
    ensures a == b
  {
    if a != [] {
      var n := |a| - 1;
      var high, low := MessagePack.FromBe(a[..n]), MessagePack.FromBe(b[..n]);
      assert high * 256 + a[n] == low * 256 + b[n];
      hide MessagePack.FromBe;
      RankInjective(a[..n], b[..n]);
      assert a == a[..n] + [a[n]] && b == b[..n] + [b[n]];
    }
  }

  lemma SameRank(a: Digest, b: Digest)
    requires Rank(a) == Rank(b)
    ensures a == b
  {
    RankInjective(a, b);
  }

  ghost predicate Sorted(names: seq<Digest>) {
    forall i, j :: 0 <= i < j < |names| ==> Rank(names[i]) < Rank(names[j])
  }

  /** A directory with the same intents is listed in the same order. */
  lemma {:induction false} ListingUnique(a: seq<Digest>, b: seq<Digest>)
    requires Sorted(a) && Sorted(b) && forall n :: n in a <==> n in b
    ensures a == b
  {
    if b != [] {
      assert b[0] in b;
    }
    if a != [] {
      assert a[0] in b;
      assert b != [] && b[0] in a;
      assert a[0] == b[0] by {
        var i :| 0 <= i < |b| && b[i] == a[0];
        var j :| 0 <= j < |a| && a[j] == b[0];
        if i > 0 && j > 0 { assert false; }
      }
      forall n ensures n in a[1..] <==> n in b[1..] {
        assert n in a <==> n == a[0] || n in a[1..];
        assert n in b <==> n == b[0] || n in b[1..];
        assert a[0] !in a[1..] && b[0] !in b[1..];
      }
      ListingUnique(a[1..], b[1..]);
      assert a == [a[0]] + a[1..] && b == [b[0]] + b[1..];
    }
  }

  method InsertSorted(names: seq<Digest>, n: Digest) returns (r: seq<Digest>)
    requires Sorted(names) && n !in names
    ensures Sorted(r) && |r| == |names| + 1 && forall m :: m in r <==> m == n || m in names
  {
    hide Rank;
    var i := 0;
    while i < |names| && Rank(names[i]) < Rank(n)
      invariant i <= |names| && forall j :: 0 <= j < i ==> Rank(names[j]) < Rank(n)
    {
      i := i + 1;
    }
    if i < |names| && Rank(names[i]) == Rank(n) {
      SameRank(names[i], n);
      assert false;
    }
    r := names[..i] + [n] + names[i..];
    assert forall m :: m in names <==> m in names[..i] || m in names[i..] by {
      assert names == names[..i] + names[i..];
    }
  }

  method ListIntents(intents: Intents) returns (r: Result<seq<Digest>, AdmissionError>)
    ensures r.Err? <==> |intents| > MAX_STAGING_INTENTS
    ensures r.Err? ==> r.error == LedgerFull
    ensures r.Ok? ==> Sorted(r.value) && (forall n :: n in r.value <==> n in intents) && |r.value| == |intents|
  {
    var names: seq<Digest>, todo := [], intents.Keys;
    while todo != {}
      invariant todo <= intents.Keys && |names| == |intents| - |todo| && |names| <= MAX_STAGING_INTENTS
      invariant Sorted(names) && forall n :: n in names <==> n in intents && n !in todo
    {
      if |names| == MAX_STAGING_INTENTS { return Err(LedgerFull); }
      var n :| n in todo;
      names := InsertSorted(names, n);
      todo := todo - {n};
    }
    return Ok(names);
  }

  // ----- The whole pass -----

  /** An orphan that is not spared names the file. */
  ghost predicate OrphanNames(t: Tables, identity: string, start: Home, spared: set<Digest>, n: Digest) {
    n in start.intents && n !in spared && start.intents[n].Intent? && Orphan(t, identity, start.intents[n])
  }

  /** Every file removed so far belonged to orphans, and no database row and no `spared` intent names it. */
  ghost predicate Safe(t: Tables, identity: string, start: Home, now: Home, spared: set<Digest>)
    requires spared <= start.intents.Keys
  {
    && now.archives <= start.archives && now.media <= start.media
    && (forall path :: path in start.archives && path !in now.archives ==>
          && !ReferencesArchive(t, identity, path) && (forall m :: m in spared ==> !NamesArchive(start.intents[m], path))
          && exists n :: OrphanNames(t, identity, start, spared, n) && NamesArchive(start.intents[n], path))
    && (forall name :: name in start.media && name !in now.media ==>
          && !ReferencesMedia(t, identity, name) && (forall m :: m in spared ==> !NamesMedia(start.intents[m], name))
          && exists n :: OrphanNames(t, identity, start, spared, n) && NamesMedia(start.intents[n], name))
  }

  ghost predicate StillNamed(now: Home, path: string) {
    exists m :: m in now.intents && NamesArchive(now.intents[m], path)
  }

  ghost predicate RemovedOrphan(t: Tables, identity: string, start: Home, now: Home, n: Digest) {
    && n in start.intents && n !in now.intents && start.intents[n].Intent?
    && !ReferencesArchive(t, identity, start.intents[n].archive)
  }

  /** A removed orphan's archive is gone, unless an intent that remains names it. */
  ghost predicate ArchivesCleared(t: Tables, identity: string, start: Home, now: Home) {
    forall n :: RemovedOrphan(t, identity, start, now, n) && start.intents[n].archive in now.archives ==>
                  StillNamed(now, start.intents[n].archive)
  }

  /** The intents in `now` are some of those at the start, unchanged. */
  ghost predicate Remain(start: Home, now: Home) {
    forall n :: n in now.intents ==> n in start.intents && now.intents[n] == start.intents[n]
  }

  /** No retained intent went without its files being verified. */
  ghost predicate Verified(t: Tables, identity: string, start: Home, now: Home, verify: (string, Digest, seq<FileRef>) -> bool) {
    forall n :: n in start.intents && n !in now.intents ==>
                  start.intents[n].Intent? && Verifies(t, identity, start.intents[n], verify)
  }

  /** What holds at every moment of the pass, whatever fails. */
  ghost predicate Careful(t: Tables, identity: string, start: Home, now: Home, spared: set<Digest>,
                          verify: (string, Digest, seq<FileRef>) -> bool)
  {
    && Remain(start, now) && spared <= start.intents.Keys && Safe(t, identity, start, now, spared)
    && ArchivesCleared(t, identity, start, now) && Verified(t, identity, start, now, verify)
  }

  lemma NothingYet(t: Tables, identity: string, start: Home, verify: (string, Digest, seq<FileRef>) -> bool)
    ensures Careful(t, identity, start, start, start.intents.Keys, verify)
  {
  }

  lemma SafeStep(t: Tables, identity: string, start: Home, before: Home, after: Home, n: Digest)
    requires n in before.intents && before.intents[n].Intent? && Remain(start, before)
    requires before.intents.Keys <= start.intents.Keys
    requires Safe(t, identity, start, before, before.intents.Keys) && Spares(t, identity, before, after, n)
    ensures Safe(t, identity, start, after, before.intents.Keys - {n})
  {
    var spared := before.intents.Keys - {n};
    hide ReferencesArchive, ReferencesMedia;
    forall path | path in start.archives && path !in after.archives
      ensures !ReferencesArchive(t, identity, path) && forall m :: m in spared ==> !NamesArchive(start.intents[m], path)
      ensures exists x :: OrphanNames(t, identity, start, spared, x) && NamesArchive(start.intents[x], path)
    {
      if path in before.archives {
        assert OrphanNames(t, identity, start, spared, n) && NamesArchive(start.intents[n], path);
      } else {
        var x :| OrphanNames(t, identity, start, before.intents.Keys, x) && NamesArchive(start.intents[x], path);
        assert OrphanNames(t, identity, start, spared, x);
      }
    }
    forall name | name in start.media && name !in after.media
      ensures !ReferencesMedia(t, identity, name) && forall m :: m in spared ==> !NamesMedia(start.intents[m], name)
      ensures exists x :: OrphanNames(t, identity, start, spared, x) && NamesMedia(start.intents[x], name)
    {
      if name in before.media {
        UnneededIsOwn(t, identity, before.intents, n, name);
        assert OrphanNames(t, identity, start, spared, n) && NamesMedia(start.intents[n], name);
      } else {
        var x :| OrphanNames(t, identity, start, before.intents.Keys, x) && NamesMedia(start.intents[x], name);
        assert OrphanNames(t, identity, start, spared, x);
      }
    }
  }

  lemma UnneededIsOwn(t: Tables, identity: string, intents: Intents, n: Digest, name: string)
    requires n in intents && intents[n].Intent? && Unneeded(t, identity, intents, n, name)
    ensures !ReferencesMedia(t, identity, name) && NamesMedia(intents[n], name)
    ensures forall m :: m in intents && m != n ==> !NamesMedia(intents[m], name)
  {
    var i := OccursListed(intents[n].media, name);
  }

  lemma ClearedStep(t: Tables, identity: string, start: Home, before: Home, after: Home, n: Digest)
    requires n in before.intents && before.intents[n].Intent? && Remain(start, before)
    requires ArchivesCleared(t, identity, start, before) && after.archives <= before.archives
    requires after.intents == before.intents - {n}
    requires ReferencesArchive(t, identity, before.intents[n].archive) || Cleared(t, identity, before, after, n)
    ensures ArchivesCleared(t, identity, start, after)
  {
    hide ReferencesArchive, Unneeded;
    forall r | RemovedOrphan(t, identity, start, after, r) && start.intents[r].archive in after.archives
      ensures StillNamed(after, start.intents[r].archive)
    {
      var path := start.intents[r].archive;
      var x :| x in before.intents && NamesArchive(before.intents[x], path);
      if x == n {
        var m :| m in before.intents && m != n && NamesArchive(before.intents[m], path);
        assert m in after.intents;
      } else {
        assert x in after.intents;
      }
    }
  }

  /** Also when the visit fails on the way: an intent that is gone went last. */
  lemma SameIntentsCleared(t: Tables, identity: string, start: Home, before: Home, after: Home)
    requires ArchivesCleared(t, identity, start, before) && after.archives <= before.archives
    requires after.intents == before.intents
    ensures ArchivesCleared(t, identity, start, after)
  {
    forall r | RemovedOrphan(t, identity, start, after, r) && start.intents[r].archive in after.archives
      ensures StillNamed(after, start.intents[r].archive)
    {
      assert RemovedOrphan(t, identity, start, before, r) && StillNamed(before, start.intents[r].archive);
    }
  }

  /** One visit, complete or cut short, keeps the pass careful. */
  lemma VisitIsCareful(t: Tables, identity: string, start: Home, before: Home, after: Home, n: Digest,
                       verify: (string, Digest, seq<FileRef>) -> bool)
    requires n in before.intents && before.intents[n].Intent?
    requires Careful(t, identity, start, before, before.intents.Keys, verify) && Spares(t, identity, before, after, n)
    requires after.intents == before.intents || Released(t, identity, before, after, n, verify)
    ensures Careful(t, identity, start, after, before.intents.Keys - {n}, verify)
  {
    assert Remain(start, after) && Verified(t, identity, start, after, verify);
    hide Safe, ArchivesCleared, Verified, Verifies, Cleared, Orphan, ReferencesArchive;
    SafeStep(t, identity, start, before, after, n);
    if after.intents == before.intents {
      SameIntentsCleared(t, identity, start, before, after);
    } else {
      ClearedStep(t, identity, start, before, after, n);
    }
  }

  predicate Distinct(names: seq<Digest>) {
    forall i, j :: 0 <= i < j < |names| ==> names[i] != names[j]
  }

  /** The intents one pass visits, in order. */
  function Targets(cursor: nat, names: seq<Digest>): (targets: seq<Digest>)
    requires names != []
    ensures |targets| == Min(|names|, BATCH)
  {
    var w := Window(cursor, |names|);
    seq(|w|, j requires 0 <= j < |w| => assert w[j] in w; names[w[j]])
  }

  lemma TargetsDistinct(cursor: nat, names: seq<Digest>)
    requires names != [] && Sorted(names)
    ensures Distinct(Targets(cursor, names)) && forall n :: n in Targets(cursor, names) ==> n in names
  {
    var w := Window(cursor, |names|);
    forall i, k | 0 <= i < k < |w| ensures Targets(cursor, names)[i] != Targets(cursor, names)[k] {
      WindowDistinct(cursor, i, k, |names|);
      assert w[i] in w && w[k] in w;
      if w[i] < w[k] {
        assert Rank(names[w[i]]) < Rank(names[w[k]]);
      } else {
        assert Rank(names[w[k]]) < Rank(names[w[i]]);
      }
    }
  }

  /**
   * The orphan at place `i` was the last to own the file: it listed the name
   * once, no row showed it, and every other intent that named it had gone before.
   */
  ghost predicate LastOwner(t: Tables, identity: string, start: Home, now: Home, targets: seq<Digest>, i: nat, name: string)
    requires i < |targets|
  {
    && targets[i] in start.intents && targets[i] !in now.intents && start.intents[targets[i]].Intent?
    && Orphan(t, identity, start.intents[targets[i]])
    && Occurrences(start.intents[targets[i]].media, name) == 1 && !ReferencesMedia(t, identity, name)
    && forall m :: m in start.intents && m != targets[i] && NamesMedia(start.intents[m], name) ==>
         m in targets[..i] && m !in now.intents
  }

  /** Of the media there at the start, exactly what had such a last owner among the first `j` targets is gone. */
  ghost predicate MediaSettled(t: Tables, identity: string, start: Home, now: Home, targets: seq<Digest>, j: nat)
    requires j <= |targets|
  {
    forall name :: name in start.media ==>
      (name !in now.media <==> exists i :: 0 <= i < j && LastOwner(t, identity, start, now, targets, i, name))
  }

  /** The targets ahead remain, of those behind only young orphans do, and nothing but targets has gone. */
  ghost predicate Progress(t: Tables, identity: string, start: Home, now: Home, targets: seq<Digest>, j: nat)
    requires j <= |targets|
  {
    && AllGenuine(identity, start.intents) && Remain(start, now)
    && (forall i :: j <= i < |targets| ==> targets[i] in now.intents)
    && (forall n :: n in targets[..j] && n in now.intents ==> Waiting(t, identity, start.intents[n]))
    && (forall n :: n in start.intents && n !in now.intents ==> n in targets[..j] && !Waiting(t, identity, start.intents[n]))
  }

  /** The pass has visited the first `j` targets. */
  ghost predicate Visited(t: Tables, identity: string, start: Home, now: Home, targets: seq<Digest>, j: nat,
                          verify: (string, Digest, seq<FileRef>) -> bool)
    requires j <= |targets|
  {
    && Progress(t, identity, start, now, targets, j)
    && Careful(t, identity, start, now, now.intents.Keys, verify)
    && MediaSettled(t, identity, start, now, targets, j)
  }

  lemma ProgressKept(t: Tables, identity: string, start: Home, now: Home, targets: seq<Digest>, j: nat)
    requires j < |targets| && Progress(t, identity, start, now, targets, j) && Waiting(t, identity, now.intents[targets[j]])
    ensures Progress(t, identity, start, now, targets, j + 1)
  {
    hide Waiting, Genuine;
    assert targets[..j + 1] == targets[..j] + [targets[j]];
  }

  lemma ProgressRemoved(t: Tables, identity: string, start: Home, before: Home, after: Home, targets: seq<Digest>, j: nat)
    requires j < |targets| && Distinct(targets) && after.intents == before.intents - {targets[j]}
    requires Progress(t, identity, start, before, targets, j) && !Waiting(t, identity, before.intents[targets[j]])
    ensures Progress(t, identity, start, after, targets, j + 1)
  {
    hide Waiting, Genuine;
    assert targets[..j + 1] == targets[..j] + [targets[j]];
  }

  lemma SettledKept(t: Tables, identity: string, start: Home, now: Home, targets: seq<Digest>, j: nat)
    requires j < |targets| && targets[j] in now.intents && MediaSettled(t, identity, start, now, targets, j)
    ensures MediaSettled(t, identity, start, now, targets, j + 1)
  {
    forall name | name in start.media
      ensures name !in now.media <==> exists i :: 0 <= i < j + 1 && LastOwner(t, identity, start, now, targets, i, name)
    {
      assert !LastOwner(t, identity, start, now, targets, j, name);
    }
  }

  /** Forgetting the intent just visited does not change who was the last owner before. */
  lemma EarlierOwnersStand(t: Tables, identity: string, start: Home, before: Home, after: Home, targets: seq<Digest>,
                           j: nat, i: nat, name: string)
    requires i < j < |targets| && Distinct(targets) && after.intents == before.intents - {targets[j]}
    ensures LastOwner(t, identity, start, before, targets, i, name) <==> LastOwner(t, identity, start, after, targets, i, name)
  {
    assert forall m :: m in targets[..i] ==> m != targets[j];
    hide Orphan, ReferencesMedia, Occurrences;
  }

  /** The orphan just visited is the last owner exactly of what only it still owned. */
  lemma NowLastOwner(t: Tables, identity: string, start: Home, before: Home, after: Home, targets: seq<Digest>, j: nat, name: string)
    requires j < |targets| && Progress(t, identity, start, before, targets, j) && after.intents == before.intents - {targets[j]}
    requires before.intents[targets[j]].Intent?
    ensures LastOwner(t, identity, start, after, targets, j, name) <==>
              Orphan(t, identity, before.intents[targets[j]]) && Unneeded(t, identity, before.intents, targets[j], name)
  {
    hide Orphan, ReferencesMedia, Occurrences, Waiting, Genuine;
    var n := targets[j];
    if !OthersNameMedia(before.intents, n, name) {
      forall m | m in start.intents && m != n && NamesMedia(start.intents[m], name)
        ensures m in targets[..j] && m !in after.intents
      {
        assert m !in before.intents;
      }
    }
    if LastOwner(t, identity, start, after, targets, j, name) {
      forall m | m in before.intents && m != n ensures !NamesMedia(before.intents[m], name) {}
    }
  }

  lemma SettledRemoved(t: Tables, identity: string, start: Home, before: Home, after: Home, targets: seq<Digest>, j: nat,
                       verify: (string, Digest, seq<FileRef>) -> bool)
    requires j < |targets| && Distinct(targets) && Progress(t, identity, start, before, targets, j)
    requires targets[j] in before.intents && before.intents[targets[j]].Intent? && before.media <= start.media
    requires MediaSettled(t, identity, start, before, targets, j)
    requires Spares(t, identity, before, after, targets[j]) && Released(t, identity, before, after, targets[j], verify)
    ensures MediaSettled(t, identity, start, after, targets, j + 1)
  {
    forall name | name in start.media
      ensures name !in after.media <==> exists i :: 0 <= i < j + 1 && LastOwner(t, identity, start, after, targets, i, name)
    {
      NowLastOwner(t, identity, start, before, after, targets, j, name);
      forall i | 0 <= i < j
        ensures LastOwner(t, identity, start, before, targets, i, name) <==> LastOwner(t, identity, start, after, targets, i, name)
      {
        EarlierOwnersStand(t, identity, start, before, after, targets, j, i, name);
      }
      hide LastOwner, Unneeded, Progress, Distinct, OthersNameArchive, Verifies;
      if exists i :: 0 <= i < j && LastOwner(t, identity, start, before, targets, i, name) {
        assert name !in before.media;
        var i :| 0 <= i < j && LastOwner(t, identity, start, before, targets, i, name);
        assert LastOwner(t, identity, start, after, targets, i, name);
      } else {
        assert name in before.media;
      }
    }
  }

  lemma VisitedKept(t: Tables, identity: string, start: Home, now: Home, targets: seq<Digest>, j: nat,
                    verify: (string, Digest, seq<FileRef>) -> bool)
    requires j < |targets| && Visited(t, identity, start, now, targets, j, verify)
    requires Waiting(t, identity, now.intents[targets[j]])
    ensures Visited(t, identity, start, now, targets, j + 1, verify)
  {
    ProgressKept(t, identity, start, now, targets, j);
    SettledKept(t, identity, start, now, targets, j);
  }

  lemma VisitedRemoved(t: Tables, identity: string, start: Home, before: Home, after: Home, targets: seq<Digest>, j: nat,
                       verify: (string, Digest, seq<FileRef>) -> bool)
    requires j < |targets| && Distinct(targets) && Visited(t, identity, start, before, targets, j, verify)
    requires targets[j] in before.intents && before.intents[targets[j]].Intent?
    requires Spares(t, identity, before, after, targets[j]) && Released(t, identity, before, after, targets[j], verify)
    ensures Visited(t, identity, start, after, targets, j + 1, verify)
  {
    assert before.media <= start.media && after.intents == before.intents - {targets[j]};
    assert after.intents.Keys == before.intents.Keys - {targets[j]};
    assert !Waiting(t, identity, before.intents[targets[j]]);
    hide Progress, Careful, MediaSettled, Spares, Released, Distinct;
    VisitIsCareful(t, identity, start, before, after, targets[j], verify);
    ProgressRemoved(t, identity, start, before, after, targets, j);
    SettledRemoved(t, identity, start, before, after, targets, j, verify);
  }

  /** The intents in listing order. */
  ghost predicate Lists(names: seq<Digest>, intents: Intents) { Sorted(names) && forall n :: n in names <==> n in intents }

  /** What a pass that ends well has done to the sorted listing. */
  ghost predicate Passed(t: Tables, identity: string, start: Home, now: Home, cursor: nat, names: seq<Digest>,
                         verify: (string, Digest, seq<FileRef>) -> bool)
  {
    && Lists(names, start.intents)
    && if names == [] then now == start
       else Visited(t, identity, start, now, Targets(cursor, names), |Targets(cursor, names)|, verify)
  }

  /** Lists and counts the intents; refused exactly when there are too many or one is not genuine. */
  method Survey(identity: string, intents: Intents) returns (r: Result<(seq<Digest>, Owners), AdmissionError>)
    ensures r.Ok? <==> |intents| <= MAX_STAGING_INTENTS && AllGenuine(identity, intents)
    ensures r.Ok? ==> Lists(r.value.0, intents) && Exact(r.value.1, intents)
  {
    var listed := ListIntents(intents);
    if listed.Err? { return Err(listed.error); }
    assert forall i, j :: 0 <= i < j < |listed.value| ==> Rank(listed.value[i]) < Rank(listed.value[j]);
    var counted := CountOwners(identity, intents, listed.value);
    if counted.Err? { return Err(counted.error); }
    return Ok((listed.value, counted.value));
  }

  /** One turn of the pass. */
  method VisitTarget(disk: Files, t: Tables, identity: string, targets: seq<Digest>, j: nat, o: Owners,
                     verify: (string, Digest, seq<FileRef>) -> bool, reliable: bool, ghost start: Home)
    returns (r: Result<Owners, AdmissionError>)
    requires j < |targets| && Distinct(targets) && Exact(o, disk.At(identity).intents)
    requires Visited(t, identity, start, disk.At(identity), targets, j, verify)
    requires targets[j] in start.intents && start.intents[targets[j]].Intent?
    modifies disk
    ensures forall other :: other != identity ==> disk.At(other) == old(disk.At(other))
    ensures r.Ok? ==> Exact(r.value, disk.At(identity).intents)
    ensures r.Ok? ==> Visited(t, identity, start, disk.At(identity), targets, j + 1, verify)
    ensures r.Ok? ==> Verifies(t, identity, start.intents[targets[j]], verify)
    ensures reliable && Verifies(t, identity, start.intents[targets[j]], verify) ==> r.Ok?
    ensures r.Err? ==> Careful(t, identity, start, disk.At(identity), disk.At(identity).intents.Keys - {targets[j]}, verify)
  {
    ghost var before := disk.At(identity);
    VisitedFacts(t, identity, start, before, targets, j, verify);
    hide Visited, Careful, Exact, Spares, Released, Verifies, Waiting;
    var visited := VisitIntent(disk, t, identity, targets[j], o, verify, reliable);
    if visited.Err? {
      VisitIsCareful(t, identity, start, before, disk.At(identity), targets[j], verify);
      FewerSpared(t, identity, start, before, disk.At(identity), targets[j], verify);
      return Err(visited.error);
    }
    if visited.value.Removed? {
      VisitedRemoved(t, identity, start, before, disk.At(identity), targets, j, verify);
      return Ok(visited.value.owners);
    }
    VisitedKept(t, identity, start, disk.At(identity), targets, j, verify);
    return Ok(o);
  }

  lemma VisitedFacts(t: Tables, identity: string, start: Home, now: Home, targets: seq<Digest>, j: nat,
                     verify: (string, Digest, seq<FileRef>) -> bool)
    requires j < |targets| && Visited(t, identity, start, now, targets, j, verify)
    ensures targets[j] in now.intents && targets[j] in start.intents && now.intents[targets[j]] == start.intents[targets[j]]
    ensures now.intents[targets[j]].Intent? && AllGenuine(identity, now.intents)
    ensures Careful(t, identity, start, now, now.intents.Keys, verify)
  {
  }

  lemma FewerSpared(t: Tables, identity: string, start: Home, before: Home, after: Home, n: Digest,
                    verify: (string, Digest, seq<FileRef>) -> bool)
    requires n in before.intents && before.intents[n].Intent?
    requires Careful(t, identity, start, after, before.intents.Keys - {n}, verify)
    requires after.intents == before.intents || Released(t, identity, before, after, n, verify)
    ensures Careful(t, identity, start, after, after.intents.Keys - {n}, verify)
  {
    assert after.intents.Keys - {n} == before.intents.Keys - {n};
  }

  /** Nothing in the directory stops the pass: few enough intents, all genuine, the retained ones of the window intact. */
  ghost predicate Reconcilable(t: Tables, identity: string, intents: Intents, cursor: nat,
                               verify: (string, Digest, seq<FileRef>) -> bool)
  {
    && |intents| <= MAX_STAGING_INTENTS && AllGenuine(identity, intents)
    && forall names :: Lists(names, intents) && names != [] ==> AllVerify(t, identity, intents, Targets(cursor, names), verify)
  }

  ghost predicate AllVerify(t: Tables, identity: string, intents: Intents, targets: seq<Digest>,
                            verify: (string, Digest, seq<FileRef>) -> bool)
  {
    forall n :: n in targets && n in intents && intents[n].Intent? ==> Verifies(t, identity, intents[n], verify)
  }

  lemma OneMoreVerifies(t: Tables, identity: string, intents: Intents, targets: seq<Digest>, j: nat,
                        verify: (string, Digest, seq<FileRef>) -> bool)
    requires j < |targets| && targets[j] in intents && intents[targets[j]].Intent?
    ensures AllVerify(t, identity, intents, targets[..j + 1], verify) <==>
              AllVerify(t, identity, intents, targets[..j], verify) && Verifies(t, identity, intents[targets[j]], verify)
    ensures AllVerify(t, identity, intents, targets, verify) ==> Verifies(t, identity, intents[targets[j]], verify)
  {
    hide Verifies;
    assert targets[..j + 1] == targets[..j] + [targets[j]];
    assert targets[j] in targets;
  }

  /** There is one listing, so the window's intents decide. */
  lemma ReconcilableBy(t: Tables, identity: string, intents: Intents, cursor: nat, names: seq<Digest>,
                       verify: (string, Digest, seq<FileRef>) -> bool)
    requires |intents| <= MAX_STAGING_INTENTS && AllGenuine(identity, intents) && Lists(names, intents)
    ensures Reconcilable(t, identity, intents, cursor, verify) <==>
              (names != [] ==> AllVerify(t, identity, intents, Targets(cursor, names), verify))
  {
    hide AllVerify, Genuine;
    forall other | Lists(other, intents) ensures other == names {
      ListingUnique(other, names);
    }
  }

  // ----- What a pass that ends well leaves, in terms of rows and ages -----

  ghost predicate Retains(t: Tables, identity: string, path: string) {
    exists k :: k in t.effects && k.identity == identity && t.effects[k].archive == path
  }

  ghost predicate Displays(t: Tables, identity: string, name: string) {
    || (exists k :: k in t.app.messages && k.identity == identity && t.app.messages[k].attachment == name)
    || (exists k :: k in t.app.messages && k.identity == identity && t.app.messages[k].image == name)
    || (exists k :: k in t.app.messages && k.identity == identity && t.app.messages[k].audio == name)
  }

  /** The place is one of the 256 from the cursor on, around the end of the list. */
  predicate Turn(cursor: nat, place: nat, n: nat)
    requires n > 0
  {
    var from := cursor % n;
    if from <= place then place - from < 256 else place + n - from < 256
  }

  /** An intent whose turn it is goes exactly if an effect keeps its archive or it is a day old. */
  ghost predicate GoneIff(t: Tables, identity: string, start: Home, now: Home, cursor: nat, names: seq<Digest>, i: nat)
    requires i < |names| && names[i] in start.intents && start.intents[names[i]].Intent?
  {
    names[i] !in now.intents <==>
      Turn(cursor, i, |names|) && (Retains(t, identity, start.intents[names[i]].archive) || start.intents[names[i]].age >= 86400)
  }

  /**
   * Which intents a pass removes; that those an effect keeps had their files verified; and that a
   * removed archive or file is in no row, and belonged to an intent a day old that went too.
   */
  ghost predicate Reconciled(t: Tables, identity: string, start: Home, now: Home, cursor: nat, names: seq<Digest>,
                             verify: (string, Digest, seq<FileRef>) -> bool)
  {
    && (forall n :: n in start.intents <==> n in names)
    && (forall n :: n in start.intents ==> start.intents[n].Intent?)
    && (forall i :: 0 <= i < |names| ==> GoneIff(t, identity, start, now, cursor, names, i))
    && (forall n :: n in now.intents ==> n in start.intents && now.intents[n] == start.intents[n])
    && (forall n :: n in start.intents && n !in now.intents && Retains(t, identity, start.intents[n].archive) ==>
          verify(start.intents[n].archive, start.intents[n].wire, start.intents[n].media))
    && (forall path :: path in start.archives && path !in now.archives ==>
          && !Retains(t, identity, path) && (forall m :: m in now.intents ==> now.intents[m].archive != path)
          && exists n :: n in start.intents && n !in now.intents && start.intents[n].age >= 86400 && start.intents[n].archive == path)
    && (forall name :: name in start.media && name !in now.media ==>
          && !Displays(t, identity, name)
          && (forall m, i :: m in now.intents && 0 <= i < |now.intents[m].media| ==> now.intents[m].media[i].name != name))
  }

  lemma ReferencesAre(t: Tables, identity: string, name: string)
    ensures ReferencesArchive(t, identity, name) <==> Retains(t, identity, name)
    ensures ReferencesMedia(t, identity, name) <==> Displays(t, identity, name)
  {
  }

  lemma TurnIff(cursor: nat, place: nat, n: nat)
    requires place < n
    ensures Turn(cursor, place, n) <==> place in Window(cursor, n)
  {
    var w, from := Window(cursor, n), cursor % n;
    var j := if from <= place then place - from else place + n - from;
    SlotOnce(cursor, j, n);
    if j < |w| { assert w[j] == place; }
    forall i | 0 <= i < |w| && w[i] == place ensures i == j { SlotOnce(cursor, i, n); }
  }

  lemma TargetIff(cursor: nat, names: seq<Digest>, i: nat)
    requires i < |names| && forall a, b :: 0 <= a < b < |names| ==> names[a] != names[b]
    ensures names[i] in Targets(cursor, names) <==> Turn(cursor, i, |names|)
  {
    var w, targets := Window(cursor, |names|), Targets(cursor, names);
    TurnIff(cursor, i, |names|);
    hide Window;
    if i in w {
      var j :| 0 <= j < |w| && w[j] == i;
      assert targets[j] == names[i];
    }
    if names[i] in targets {
      var j :| 0 <= j < |targets| && targets[j] == names[i];
      assert w[j] in w && names[w[j]] == names[i];
    }
  }

  lemma SortedOnce(names: seq<Digest>)
    requires Sorted(names)
    ensures forall a, b :: 0 <= a < b < |names| ==> names[a] != names[b]
  {
    hide Rank;
  }

  lemma PassedGoneIff(t: Tables, identity: string, start: Home, now: Home, cursor: nat, names: seq<Digest>, i: nat)
    requires names != [] && Lists(names, start.intents) && i < |names|
    requires Progress(t, identity, start, now, Targets(cursor, names), |Targets(cursor, names)|)
    ensures start.intents[names[i]].Intent? && GoneIff(t, identity, start, now, cursor, names, i)
  {
    SortedOnce(names);
    hide Sorted, Targets, Genuine, ReferencesArchive, Retains, Turn;
    var targets, n := Targets(cursor, names), names[i];
    TargetIff(cursor, names, i);
    assert n in start.intents;
    assert Genuine(identity, n, start.intents[n]);
    GenuineIsRead(identity, n, start.intents[n]);
    ReferencesAre(t, identity, start.intents[n].archive);
    assert targets[..|targets|] == targets;
  }

  lemma GenuineIsRead(identity: string, n: Digest, s: Staged)
    requires Genuine(identity, n, s)
    ensures s.Intent?
  {
  }

  lemma CarefulFiles(t: Tables, identity: string, start: Home, now: Home, verify: (string, Digest, seq<FileRef>) -> bool)
    requires Careful(t, identity, start, now, now.intents.Keys, verify)
    requires forall n :: n in start.intents ==> start.intents[n].Intent?
    ensures forall n :: n in start.intents && n !in now.intents && Retains(t, identity, start.intents[n].archive) ==>
              verify(start.intents[n].archive, start.intents[n].wire, start.intents[n].media)
    ensures forall path :: path in start.archives && path !in now.archives ==>
              && !Retains(t, identity, path) && (forall m :: m in now.intents ==> now.intents[m].Intent? && now.intents[m].archive != path)
              && exists n :: n in start.intents && n !in now.intents && start.intents[n].age >= 86400 && start.intents[n].archive == path
    ensures forall name :: name in start.media && name !in now.media ==>
              && !Displays(t, identity, name)
              && (forall m, i :: m in now.intents && 0 <= i < |now.intents[m].media| ==> now.intents[m].media[i].name != name)
  {
    hide ReferencesArchive, ReferencesMedia, Retains, Displays;
    forall path ensures (ReferencesArchive(t, identity, path) <==> Retains(t, identity, path))
                     && (ReferencesMedia(t, identity, path) <==> Displays(t, identity, path)) { ReferencesAre(t, identity, path); }
    forall path | path in start.archives && path !in now.archives
      ensures exists n :: n in start.intents && n !in now.intents && start.intents[n].age >= 86400 && start.intents[n].archive == path
    {
      var n :| OrphanNames(t, identity, start, now.intents.Keys, n) && NamesArchive(start.intents[n], path);
    }
    forall name, m, i | name in start.media && name !in now.media && m in now.intents && 0 <= i < |now.intents[m].media|
      ensures now.intents[m].media[i].name != name
    {
      assert !NamesMedia(start.intents[m], name);
    }
  }

  lemma PassedReconciles(t: Tables, identity: string, start: Home, now: Home, cursor: nat, names: seq<Digest>,
                         verify: (string, Digest, seq<FileRef>) -> bool)
    requires Passed(t, identity, start, now, cursor, names, verify)
    requires Careful(t, identity, start, now, now.intents.Keys, verify)
    ensures Reconciled(t, identity, start, now, cursor, names, verify)
  {
    hide Careful, Sorted, Targets, Retains, Displays, GoneIff, Progress, MediaSettled;
    if names != [] {
      forall i: nat | i < |names| ensures start.intents[names[i]].Intent? && GoneIff(t, identity, start, now, cursor, names, i) {
        PassedGoneIff(t, identity, start, now, cursor, names, i);
      }
    }
    CarefulRemains(t, identity, start, now, verify);
    CarefulFiles(t, identity, start, now, verify);
  }

  lemma CarefulRemains(t: Tables, identity: string, start: Home, now: Home, verify: (string, Digest, seq<FileRef>) -> bool)
    requires Careful(t, identity, start, now, now.intents.Keys, verify)
    ensures forall n :: n in now.intents ==> n in start.intents && now.intents[n] == start.intents[n]
  {
  }

  /** Visits the window the cursor selects, forgetting each intent it removes. */
  method ReconcileIntents(disk: Files, t: Tables, identity: string, cursor: nat,
                          verify: (string, Digest, seq<FileRef>) -> bool, reliable: bool)
    returns (r: Result<seq<Digest>, AdmissionError>, ghost victim: set<Digest>)
    modifies disk
    ensures forall other :: other != identity ==> disk.At(other) == old(disk.At(other))
    ensures |victim| <= 1
    ensures Careful(t, identity, old(disk.At(identity)), disk.At(identity), disk.At(identity).intents.Keys - victim, verify)
    ensures r.Ok? ==> Reconcilable(t, identity, old(disk.At(identity)).intents, cursor, verify)
    ensures reliable && Reconcilable(t, identity, old(disk.At(identity)).intents, cursor, verify) ==> r.Ok?
    ensures r.Ok? ==> victim == {} && Passed(t, identity, old(disk.At(identity)), disk.At(identity), cursor, r.value, verify)
    ensures r.Ok? ==> Reconciled(t, identity, old(disk.At(identity)), disk.At(identity), cursor, r.value, verify)
  {
    hide *;
    ghost var start := disk.At(identity);
    victim := {};
    NothingYet(t, identity, start, verify);
    EmptyPasses(t, identity, start, cursor, verify);
    assert start.intents.Keys - {} == start.intents.Keys;
    var surveyed := Survey(identity, disk.At(identity).intents);
    if surveyed.Err? {
      NotReconcilable(t, identity, start.intents, cursor, verify);
      return Err(surveyed.error), {};
    }
    var (names, o) := surveyed.value;
    ReconcilableBy(t, identity, start.intents, cursor, names, verify);
    if names == [] {
      PassedReconciles(t, identity, start, start, cursor, [], verify);
      return Ok(names), {};
    }
    var barrier: bool :| reliable ==> barrier;
    if !barrier { return Err(CommitUncertain), {}; }
    r, victim := VisitWindow(disk, t, identity, names, cursor, o, verify, reliable);
    if r.Ok? {
      ghost var now := disk.At(identity);
      assert now.intents.Keys - {} == now.intents.Keys;
      PassedReconciles(t, identity, start, now, cursor, names, verify);
    }
  }

  lemma EmptyPasses(t: Tables, identity: string, start: Home, cursor: nat, verify: (string, Digest, seq<FileRef>) -> bool)
    ensures Lists([], start.intents) ==> Passed(t, identity, start, start, cursor, [], verify)
  {
  }

  lemma NotReconcilable(t: Tables, identity: string, intents: Intents, cursor: nat,
                        verify: (string, Digest, seq<FileRef>) -> bool)
    requires !(|intents| <= MAX_STAGING_INTENTS && AllGenuine(identity, intents))
    ensures !Reconcilable(t, identity, intents, cursor, verify)
  {
  }

  lemma WindowStarts(t: Tables, identity: string, start: Home, cursor: nat, names: seq<Digest>,
                     verify: (string, Digest, seq<FileRef>) -> bool)
    requires AllGenuine(identity, start.intents) && Lists(names, start.intents) && names != []
    ensures Distinct(Targets(cursor, names)) && Visited(t, identity, start, start, Targets(cursor, names), 0, verify)
    ensures forall n :: n in Targets(cursor, names) ==> n in start.intents && start.intents[n].Intent?
    ensures AllVerify(t, identity, start.intents, [], verify)
  {
    TargetsDistinct(cursor, names);
    NothingYet(t, identity, start, verify);
    hide Careful;
    assert forall i :: 0 <= i < |Targets(cursor, names)| ==> Targets(cursor, names)[i] in Targets(cursor, names);
  }

  /** The loop over the window. */
  method VisitWindow(disk: Files, t: Tables, identity: string, names: seq<Digest>, cursor: nat, counted: Owners,
                     verify: (string, Digest, seq<FileRef>) -> bool, reliable: bool)
    returns (r: Result<seq<Digest>, AdmissionError>, ghost victim: set<Digest>)
    requires AllGenuine(identity, disk.At(identity).intents) && Lists(names, disk.At(identity).intents) && names != []
    requires Exact(counted, disk.At(identity).intents)
    modifies disk
    ensures forall other :: other != identity ==> disk.At(other) == old(disk.At(other))
    ensures |victim| <= 1
    ensures Careful(t, identity, old(disk.At(identity)), disk.At(identity), disk.At(identity).intents.Keys - victim, verify)
    ensures r.Ok? ==> AllVerify(t, identity, old(disk.At(identity)).intents, Targets(cursor, names), verify)
    ensures reliable && AllVerify(t, identity, old(disk.At(identity)).intents, Targets(cursor, names), verify) ==> r.Ok?
    ensures r.Ok? ==> victim == {} && Passed(t, identity, old(disk.At(identity)), disk.At(identity), cursor, names, verify)
    ensures r.Ok? ==> r.value == names
  {
    hide *;
    ghost var start := disk.At(identity);
    var targets := Targets(cursor, names);
    WindowStarts(t, identity, start, cursor, names, verify);
    var o := counted;
    for j := 0 to |targets|
      invariant forall other :: other != identity ==> disk.At(other) == old(disk.At(other))
      invariant Exact(o, disk.At(identity).intents)
      invariant Visited(t, identity, start, disk.At(identity), targets, j, verify)
      invariant AllVerify(t, identity, start.intents, targets[..j], verify)
    {
      assert targets[j] in targets;
      OneMoreVerifies(t, identity, start.intents, targets, j, verify);
      var visited := VisitTarget(disk, t, identity, targets, j, o, verify, reliable, start);
      if visited.Err? { return Err(visited.error), {targets[j]}; }
      o := visited.value;
    }
    WindowEnds(t, identity, start, disk.At(identity), cursor, names, verify);
    assert targets[..|targets|] == targets;
    return Ok(names), {};
  }

  lemma WindowEnds(t: Tables, identity: string, start: Home, now: Home, cursor: nat, names: seq<Digest>,
                   verify: (string, Digest, seq<FileRef>) -> bool)
    requires Lists(names, start.intents) && names != []
    requires Visited(t, identity, start, now, Targets(cursor, names), |Targets(cursor, names)|, verify)
    ensures Careful(t, identity, start, now, now.intents.Keys - {}, verify)
    ensures Passed(t, identity, start, now, cursor, names, verify)
  {
    assert now.intents.Keys - {} == now.intents.Keys;
  }
}
