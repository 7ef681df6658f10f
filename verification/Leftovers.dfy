/** Media that an orphan pass leaves on disk with nothing to answer for them. */
module Leftovers {
  import opened Tables
  import opened Disk
  import opened Reconcile

  /**
   * Media that nobody answers for after a pass: a file some intent of the start
   * named is left without a name and without a row exactly when its last owner
   * was dropped as retained, or listed it more than once.
   */
  lemma LeftBehindIff(t: Tables, identity: string, start: Home, now: Home, cursor: nat, names: seq<Digest>,
                      verify: (string, Digest, seq<FileRef>) -> bool, name: string, i: nat)
    requires Passed(t, identity, start, now, cursor, names, verify) && names != [] && i < |Targets(cursor, names)|
    requires name in start.media && !ReferencesMedia(t, identity, name)
    requires var targets := Targets(cursor, names);
             && targets[i] in start.intents && targets[i] !in now.intents && NamesMedia(start.intents[targets[i]], name)
             && forall m :: m in start.intents && m != targets[i] && NamesMedia(start.intents[m], name) ==>
                  m in targets[..i] && m !in now.intents
    ensures var s := start.intents[Targets(cursor, names)[i]];
            name in now.media <==> ReferencesArchive(t, identity, s.archive) || Occurrences(s.media, name) > 1
  {
    hide *;
    PassFacts(t, identity, start, now, cursor, names, verify);
    var targets := Targets(cursor, names);
    ThisOneLast(t, identity, start, now, targets, i, name);
    forall k | 0 <= k < |targets| && k != i ensures !LastOwner(t, identity, start, now, targets, k, name) {
      OneLastOwner(t, identity, start, now, targets, i, k, name);
    }
    OnlyOwnerDecides(t, identity, start, now, targets, i, name);
  }

  lemma PassFacts(t: Tables, identity: string, start: Home, now: Home, cursor: nat, names: seq<Digest>,
                  verify: (string, Digest, seq<FileRef>) -> bool)
    requires Passed(t, identity, start, now, cursor, names, verify) && names != []
    ensures var targets := Targets(cursor, names);
            && Distinct(targets) && Progress(t, identity, start, now, targets, |targets|)
            && MediaSettled(t, identity, start, now, targets, |targets|)
            && ArchivesCleared(t, identity, start, now) && now.archives <= start.archives && now.media <= start.media
  {
    TargetsDistinct(cursor, names);
    hide Targets, Distinct, Progress, MediaSettled, ArchivesCleared, Verified, Remain, OrphanNames;
  }

  lemma ThisOneLast(t: Tables, identity: string, start: Home, now: Home, targets: seq<Digest>, i: nat, name: string)
    requires i < |targets| && Progress(t, identity, start, now, targets, |targets|) && !ReferencesMedia(t, identity, name)
    requires targets[i] in start.intents && targets[i] !in now.intents && NamesMedia(start.intents[targets[i]], name)
    requires forall m :: m in start.intents && m != targets[i] && NamesMedia(start.intents[m], name) ==>
               m in targets[..i] && m !in now.intents
    ensures var s := start.intents[targets[i]];
            && (LastOwner(t, identity, start, now, targets, i, name) <==>
                  !ReferencesArchive(t, identity, s.archive) && Occurrences(s.media, name) == 1)
            && Occurrences(s.media, name) > 0
  {
    hide ReferencesArchive, ReferencesMedia, Occurrences, Genuine;
    NamedOccurs(start.intents[targets[i]], name);
  }

  lemma OnlyOwnerDecides(t: Tables, identity: string, start: Home, now: Home, targets: seq<Digest>, i: nat, name: string)
    requires i < |targets| && name in start.media && MediaSettled(t, identity, start, now, targets, |targets|)
    requires forall k :: 0 <= k < |targets| && k != i ==> !LastOwner(t, identity, start, now, targets, k, name)
    ensures name in now.media <==> !LastOwner(t, identity, start, now, targets, i, name)
  {
    hide LastOwner;
  }

  lemma NamedOccurs(s: Staged, name: string)
    requires s.Intent?
    ensures NamesMedia(s, name) <==> Occurrences(s.media, name) > 0
  {
    if NamesMedia(s, name) {
      var i :| 0 <= i < |s.media| && s.media[i].name == name;
      ListedOccurs(s.media, i);
    }
    if Occurrences(s.media, name) > 0 {
      var i := OccursListed(s.media, name);
    }
  }

  lemma OneLastOwner(t: Tables, identity: string, start: Home, now: Home, targets: seq<Digest>, i: nat, k: nat, name: string)
    requires i < |targets| && k < |targets| && i != k && Distinct(targets) && targets[i] in start.intents
    requires NamesMedia(start.intents[targets[i]], name)
    requires forall m :: m in start.intents && m != targets[i] && NamesMedia(start.intents[m], name) ==> m in targets[..i]
    ensures !LastOwner(t, identity, start, now, targets, k, name)
  {
    PlaceInPrefix(targets, i, k);
    PlaceInPrefix(targets, k, i);
    hide ReferencesMedia, ReferencesArchive, Occurrences;
    if targets[k] in start.intents && start.intents[targets[k]].Intent? {
      NamedOccurs(start.intents[targets[k]], name);
    }
  }

  lemma PlaceInPrefix(targets: seq<Digest>, i: nat, k: nat)
    requires i < |targets| && k < |targets| && Distinct(targets)
    ensures targets[i] in targets[..k] <==> i < k
  {
    if i < k { assert targets[..k][i] == targets[i]; }
  }

  /** An attachment and a recording with the same content share one name, so the intent lists it twice. */
  lemma ListedTwiceStays(t: Tables, identity: string, n: Digest, message: Digest, wire: Digest, file: FileRef,
                         cursor: nat, now: Home, names: seq<Digest>, verify: (string, Digest, seq<FileRef>) -> bool)
    requires var path := ArchivePath(identity, message, wire);
             var start := Home(map[n := Intent(identity, n, message, wire, path, [file, file], ORPHAN_GRACE)], {path}, {file.name});
             && !ReferencesArchive(t, identity, path) && !ReferencesMedia(t, identity, file.name)
             && Passed(t, identity, start, now, cursor, names, verify)
    ensures now == Home(map[], {}, {file.name})
  {
    hide ArchivePath, ReferencesArchive, ReferencesMedia, Occurrences, Careful, MediaSettled, Targets, Progress, Sorted;
    var path := ArchivePath(identity, message, wire);
    var start := Home(map[n := Intent(identity, n, message, wire, path, [file, file], ORPHAN_GRACE)], {path}, {file.name});
    assert n in names;
    OnlyTarget(cursor, names, n);
    PassFacts(t, identity, start, now, cursor, names, verify);
    LoneIntentGoes(t, identity, start, now, n);
    TwiceListed(file);
    NamedOccurs(start.intents[n], file.name);
    LeftBehindIff(t, identity, start, now, cursor, names, verify, file.name, 0);
  }

  /** A lone old orphan goes with its archive. */
  lemma LoneIntentGoes(t: Tables, identity: string, start: Home, now: Home, n: Digest)
    requires start.intents.Keys == {n} && Progress(t, identity, start, now, [n], 1)
    requires start.intents[n].Intent? && Orphan(t, identity, start.intents[n])
    requires ArchivesCleared(t, identity, start, now)
    ensures now.intents == map[] && start.intents[n].archive !in now.archives
  {
    hide ReferencesArchive, Genuine;
    assert [n][..1] == [n];
    assert n !in now.intents;
    assert RemovedOrphan(t, identity, start, now, n);
    assert !StillNamed(now, start.intents[n].archive);
  }

  lemma TwiceListed(file: FileRef)
    ensures Occurrences([file, file], file.name) == 2
  {
    assert [file, file][..1] == [file] && [file][..0] == [];
    assert Occurrences([file], file.name) == 1;
  }

  lemma OnlyTarget(cursor: nat, names: seq<Digest>, n: Digest)
    requires Sorted(names) && forall m :: m in names <==> m == n
    ensures names == [n] && Targets(cursor, names) == [n]
  {
    ListingUnique(names, [n]);
    SlotOnce(cursor, 0, 1);
  }
}
