/**
 * An identity's directories: staging intents, archived wire images and
 * attachment files. Writes and removals are durable and atomic here.
 */
module Disk {
  import opened Tables
  import Hex

  /** A staging intent as read back; `age` is the seconds since it was written. */
  datatype Staged =
    | Unreadable
    | Intent(identity: string, transient: Digest, message: Digest, wire: Digest,
             archive: string, media: seq<FileRef>, age: nat)

  /** The files of one identity. Intents are named by their transient id. */
  datatype Home = Home(intents: map<Digest, Staged>, archives: set<string>, media: set<string>)

  const MAX_STAGING_INTENTS: nat := 4096

  function Root(identity: string): string { "identities/" + identity + "/propagation-admissions/" }

  function ArchivePath(identity: string, message: Digest, wire: Digest): string {
    Root(identity) + Hex.Encode(message) + "-" + Hex.Encode(wire) + ".lxm"
  }

  predicate SafeChar(c: char) {
    'a' <= c <= 'z' || 'A' <= c <= 'Z' || '0' <= c <= '9' || c == '.' || c == '-'
  }

  predicate SafeName(name: string) {
    0 < |name| <= 128 && name !in {".", ".."} && forall c :: c in name ==> SafeChar(c)
  }

  /** What `read_intent` insists on before an intent is believed. */
  predicate Genuine(identity: string, name: Digest, s: Staged) {
    && s.Intent?
    && s.identity == identity
    && s.archive == ArchivePath(identity, s.message, s.wire)
    && s.transient == name
    && |s.media| <= 2
    && forall f :: f in s.media ==> SafeName(f.name)
  }

  ghost predicate AllGenuine(identity: string, intents: map<Digest, Staged>) {
    forall n :: n in intents ==> Genuine(identity, n, intents[n])
  }

  predicate NamesMedia(s: Staged, name: string) {
    s.Intent? && exists i :: 0 <= i < |s.media| && s.media[i].name == name
  }

  function NamesOf(media: seq<FileRef>): set<string> { set i | 0 <= i < |media| :: media[i].name }

  predicate NamesArchive(s: Staged, path: string) { s.Intent? && s.archive == path }

  /** Equal paths under one root come from equal hashes. */
  lemma ArchivePathInjective(identity: string, m1: Digest, w1: Digest, m2: Digest, w2: Digest)
    requires ArchivePath(identity, m1, w1) == ArchivePath(identity, m2, w2)
    ensures m1 == m2 && w1 == w2
  {
    var root, p := |Root(identity)|, ArchivePath(identity, m1, w1);
    assert p[root..root + 64] == Hex.Encode(m1) && p[root + 65..root + 129] == Hex.Encode(w1);
    assert p[root..root + 64] == Hex.Encode(m2) && p[root + 65..root + 129] == Hex.Encode(w2);
    Hex.DecodeInvertsEncode(m1);
    Hex.DecodeInvertsEncode(m2);
    Hex.DecodeInvertsEncode(w1);
    Hex.DecodeInvertsEncode(w2);
  }

  /** Whether any effect of the identity keeps this archive. */
  predicate ReferencesArchive(t: Tables, identity: string, path: string) {
    exists k :: k in t.effects && k.identity == identity && t.effects[k].archive == path
  }

  /** Whether any message row of the identity shows this file. */
  predicate ReferencesMedia(t: Tables, identity: string, name: string) {
    exists k :: k in t.app.messages && k.identity == identity
                && name in {t.app.messages[k].attachment, t.app.messages[k].image, t.app.messages[k].audio}
  }

  class Files {
    var homes: map<string, Home>

    constructor ()
      ensures homes == map[]
    {
      homes := map[];
    }

    function At(identity: string): Home
      reads this
    {
      if identity in homes then homes[identity] else Home(map[], {}, {})
    }

    /** A durable write or removal; one that reports failure may still have happened. */
    method Put(identity: string, after: Home, reliable: bool) returns (ok: bool)
      modifies this
      ensures reliable ==> ok
      ensures forall other :: other != identity ==> At(other) == old(At(other))
      ensures At(identity) == after || (!ok && At(identity) == old(At(identity)))
    {
      var landed: bool;
      ok, landed :| (reliable ==> ok) && (ok ==> landed);
      if landed {
        homes := homes[identity := after];
      }
    }

    method WriteIntent(identity: string, name: Digest, staged: Staged, reliable: bool) returns (ok: bool)
      modifies this
      ensures reliable ==> ok
      ensures forall other :: other != identity ==> At(other) == old(At(other))
      ensures At(identity) == old(At(identity)).(intents := old(At(identity)).intents[name := staged])
              || (!ok && At(identity) == old(At(identity)))
    {
      ok := Put(identity, At(identity).(intents := At(identity).intents[name := staged]), reliable);
    }

    method WriteArchive(identity: string, path: string, reliable: bool) returns (ok: bool)
      modifies this
      ensures reliable ==> ok
      ensures forall other :: other != identity ==> At(other) == old(At(other))
      ensures At(identity) == old(At(identity)).(archives := old(At(identity)).archives + {path})
              || (!ok && At(identity) == old(At(identity)))
    {
      ok := Put(identity, At(identity).(archives := At(identity).archives + {path}), reliable);
    }

    method WriteMedia(identity: string, name: string, reliable: bool) returns (ok: bool)
      modifies this
      ensures reliable ==> ok
      ensures forall other :: other != identity ==> At(other) == old(At(other))
      ensures At(identity) == old(At(identity)).(media := old(At(identity)).media + {name})
              || (!ok && At(identity) == old(At(identity)))
    {
      ok := Put(identity, At(identity).(media := At(identity).media + {name}), reliable);
    }

    method RemoveArchive(identity: string, path: string, reliable: bool) returns (ok: bool)
      modifies this
      ensures reliable ==> ok
      ensures forall other :: other != identity ==> At(other) == old(At(other))
      ensures At(identity) == old(At(identity)).(archives := old(At(identity)).archives - {path})
              || (!ok && At(identity) == old(At(identity)))
    {
      ok := Put(identity, At(identity).(archives := At(identity).archives - {path}), reliable);
    }

    method RemoveMedia(identity: string, name: string, reliable: bool) returns (ok: bool)
      modifies this
      ensures reliable ==> ok
      ensures forall other :: other != identity ==> At(other) == old(At(other))
      ensures At(identity) == old(At(identity)).(media := old(At(identity)).media - {name})
              || (!ok && At(identity) == old(At(identity)))
    {
      ok := Put(identity, At(identity).(media := At(identity).media - {name}), reliable);
    }

    method RemoveIntent(identity: string, name: Digest, reliable: bool) returns (ok: bool)
      modifies this
      ensures reliable ==> ok
      ensures forall other :: other != identity ==> At(other) == old(At(other))
      ensures At(identity) == old(At(identity)).(intents := old(At(identity)).intents - {name})
              || (!ok && At(identity) == old(At(identity)))
    {
      ok := Put(identity, At(identity).(intents := At(identity).intents - {name}), reliable);
    }
  }
}
