/**
 * Tables and files together, over whole runs of deliveries, deletions, cleanups
 * and orphan passes. The admission guard lets one of them run at a time.
 */
module Retention {
  import opened Tables
  import opened Disk
  import opened Admission
  import Delivery
  import Hex
  import Reconcile
  import Runs
  import Sweep

  datatype World = World(t: Tables, homes: map<string, Home>)

  function HomeOf(w: World, identity: string): Home { Sweep.HomeIn(w.homes, identity) }

  /** `Change` is a transaction that leaves the files alone; only the cascade of a deleted identity does not. */
  datatype Event =
    | Deliver(p: Plan, h: Handlers, purge: set<Key>, fate: Fate)
    | Change(e: Runs.Event)
    | Clean(ids: set<nat>)
    | Tidy(identity: string)

  ghost predicate OthersAlone(w: World, x: World, identity: string) {
    forall other :: other != identity ==> HomeOf(x, other) == HomeOf(w, other)
  }

  /** Deletions only add to the journal, and only an identity's own cascade drops its rows. */
  ghost predicate JournalLives(t: Tables, e: Runs.Event, u: Tables) {
    && (e.Elsewhere? ==> u.journal == t.journal)
    && (e.Forget? ==> forall a :: a in t.journal.Values && a.identity != e.owner ==> a in u.journal.Values)
  }

  ghost predicate Step(w: World, e: Event, x: World) {
    match e
    case Deliver(p, h, purge, fate) =>
      && OthersAlone(w, x, p.identity)
      && Delivery.Delivered(w.t, HomeOf(w, p.identity), p, h, purge, fate, x.t, HomeOf(x, p.identity))
    case Change(c) =>
      && !c.Admit? && Runs.Step(w.t, c, x.t) && JournalLives(w.t, c, x.t)
      && if c.Forget? then OthersAlone(w, x, c.owner) else x.homes == w.homes
    case Clean(ids) =>
      Sweep.Swept(w.t, w.homes, x.homes) && Sweep.Completed(w.t, w.homes, x.homes, x.t, ids)
    case Tidy(identity) =>
      && x.t == w.t && OthersAlone(w, x, identity)
      && Reconcile.Remain(HomeOf(w, identity), HomeOf(x, identity))
      && Reconcile.Safe(w.t, identity, HomeOf(w, identity), HomeOf(x, identity), {})
      && Reconcile.ArchivesCleared(w.t, identity, HomeOf(w, identity), HomeOf(x, identity))
  }

  ghost predicate Run(states: seq<World>, events: seq<Event>) {
    && |states| == |events| + 1
    && forall i :: 0 <= i < |events| ==> Step(states[i], events[i], states[i + 1])
  }

  // ----- No retained message loses its archive -----

  ghost predicate Retained(w: World, identity: string) {
    forall k :: k in w.t.effects && k.identity == identity ==> w.t.effects[k].archive in HomeOf(w, identity).archives
  }

  /** An admission adds at most its own effect, and never touches the journal. */
  lemma AdmissionAddsOne(t: Tables, p: Plan, h: Handlers, purge: set<Key>, fate: Fate)
    ensures var u := Outcome(t, p, h, purge, fate).0;
            && u.journal == t.journal
            && (forall k :: k in t.effects ==> k in u.effects && u.effects[k] == t.effects[k])
            && (forall k :: k in u.effects && k !in t.effects ==>
                  k.identity == p.identity && u.effects[k].archive == p.archive && u.effects[k].files == p.files)
  {
  }

  lemma ChangeAddsNone(t: Tables, e: Runs.Event, u: Tables)
    requires !e.Admit? && Runs.Step(t, e, u)
    ensures forall k :: k in u.effects ==> k in t.effects && u.effects[k] == t.effects[k]
  {
  }

  /** What is retained is referenced, and no cleanup or orphan pass removes what is referenced. */
  lemma StepRetains(w: World, e: Event, x: World, identity: string)
    requires Step(w, e, x) && Retained(w, identity)
    ensures Retained(x, identity)
  {
    var a, b := HomeOf(w, identity), HomeOf(x, identity);
    forall k | k in x.t.effects && k.identity == identity ensures x.t.effects[k].archive in b.archives {
      match e
      case Deliver(p, h, purge, fate) => AdmissionAddsOne(w.t, p, h, purge, fate);
      case Change(c) => ChangeAddsNone(w.t, c, x.t);
      case Clean(ids) =>
        assert Sweep.SweptFiles(w.t, a, b, identity);
        assert ReferencesArchive(w.t, identity, w.t.effects[k].archive);
      case Tidy(other) =>
        assert ReferencesArchive(w.t, identity, w.t.effects[k].archive);
    }
  }

  /** Over every run: the archive of every live effect is on disk. */
  lemma {:induction false} ArchivesAreRetained(states: seq<World>, events: seq<Event>, i: nat, identity: string)
    requires Run(states, events) && Retained(states[0], identity) && i < |states|
    ensures Retained(states[i], identity)
  {
    if i > 0 {
      ArchivesAreRetained(states, events, i - 1, identity);
      StepRetains(states[i - 1], events[i - 1], states[i], identity);
    }
  }

  /** So a download that was answered as stored or as a duplicate can be recovered from disk. */
  lemma AcknowledgedIsOnDisk(w: World, k: Key)
    requires Consistent(w.t) && Retained(w, k.identity) && k in w.t.receipts && !Counted(w.t.receipts[k])
    ensures var m := Key(k.identity, w.t.receipts[k].message);
            m in w.t.effects && w.t.effects[m].archive in HomeOf(w, k.identity).archives
  {
    assert Grounded(w.t, k);
  }

  // ----- No attachment that is shown goes -----

  lemma StepKeepsShown(w: World, e: Event, x: World, identity: string, name: string)
    requires Step(w, e, x) && e != Change(Runs.Event.Forget(identity))
    requires name in HomeOf(w, identity).media && ReferencesMedia(w.t, identity, name)
    ensures name in HomeOf(x, identity).media
  {
    hide ReferencesMedia, Outcome;
    var a, b := HomeOf(w, identity), HomeOf(x, identity);
    match e
    case Deliver(p, _, _, _) =>
    case Change(_) =>
    case Clean(_) => assert Sweep.SweptFiles(w.t, a, b, identity);
    case Tidy(other) =>
  }

  /** A file that some message row shows all along stays on disk. */
  lemma {:induction false} ShownStays(states: seq<World>, events: seq<Event>, i: nat, j: nat, identity: string, name: string)
    requires Run(states, events) && i <= j < |states| && name in HomeOf(states[i], identity).media
    requires forall n :: i <= n < j ==> ReferencesMedia(states[n].t, identity, name)
    requires forall n :: i <= n < j ==> events[n] != Change(Runs.Event.Forget(identity))
    ensures name in HomeOf(states[j], identity).media
    decreases j
  {
    hide ReferencesMedia, Step;
    if i < j {
      ShownStays(states, events, i, j - 1, identity, name);
      StepKeepsShown(states[j - 1], events[j - 1], states[j], identity, name);
    }
  }

  /** The message's own row shows the file. */
  predicate ShownBy(t: Tables, k: Key, name: string) {
    var row := RowKey(k.identity, Hex.Encode(k.id));
    row in t.app.messages
    && name in {t.app.messages[row].attachment, t.app.messages[row].image, t.app.messages[row].audio}
  }

  lemma OwnRowReferences(t: Tables, k: Key, name: string)
    requires ShownBy(t, k, name)
    ensures ReferencesMedia(t, k.identity, name)
  {
  }

  /** An effect appears only with all the files of its manifest on disk. */
  lemma EffectBringsFiles(w: World, e: Event, x: World, k: Key)
    requires Step(w, e, x) && k in x.t.effects && k !in w.t.effects
    ensures NamesOf(x.t.effects[k].files) <= HomeOf(x, k.identity).media
  {
    hide Outcome;
    match e
    case Deliver(p, h, purge, fate) => AdmissionAddsOne(w.t, p, h, purge, fate);
    case Change(c) => ChangeAddsNone(w.t, c, x.t);
    case Clean(_) =>
    case Tidy(_) =>
  }

  /** Over every run: a file of a message's manifest is on disk for as long as the message shows it. */
  lemma ManifestIsRetained(states: seq<World>, events: seq<Event>, i: nat, j: nat, k: Key, name: string)
    requires Run(states, events) && i < j < |states|
    requires k !in states[i].t.effects && k in states[i + 1].t.effects
    requires name in NamesOf(states[i + 1].t.effects[k].files)
    requires forall n :: i < n < j ==> ShownBy(states[n].t, k, name)
    requires forall n :: i < n < j ==> events[n] != Change(Runs.Event.Forget(k.identity))
    ensures name in HomeOf(states[j], k.identity).media
  {
    hide Step, ShownBy, ReferencesMedia;
    EffectBringsFiles(states[i], events[i], states[i + 1], k);
    forall n | i < n < j ensures ReferencesMedia(states[n].t, k.identity, name) {
      OwnRowReferences(states[n].t, k, name);
    }
    ShownStays(states, events, i + 1, j, k.identity, name);
  }

  // ----- No archive is left without an owner -----

  /** An effect, a staging intent or a journal row answers for the archive. */
  ghost predicate Answered(w: World, identity: string, path: string) {
    || ReferencesArchive(w.t, identity, path)
    || Reconcile.StillNamed(HomeOf(w, identity), path)
    || Artifact(identity, Archive, path) in w.t.journal.Values
  }

  ghost predicate NoneStray(w: World, identity: string) {
    forall path :: path in HomeOf(w, identity).archives ==> Answered(w, identity, path)
  }

  /**
   * A delivery whose transient id already had an intent for another archive,
   * and that intent was the only one to answer for it.
   */
  ghost predicate Displaces(w: World, e: Event, x: World) {
    && e.Deliver?
    && var (home, tr) := (HomeOf(w, e.p.identity), e.p.transient);
       && tr in home.intents && home.intents[tr].Intent? && HomeOf(x, e.p.identity).intents != home.intents
       && var path := home.intents[tr].archive;
          && path != e.p.archive && path in home.archives && !ReferencesArchive(w.t, e.p.identity, path)
          && (forall m :: m in home.intents && m != tr ==> !NamesArchive(home.intents[m], path))
          && Artifact(e.p.identity, Archive, path) !in w.t.journal.Values
  }

  lemma DeliveryAnswers(w: World, e: Event, x: World, path: string)
    requires e.Deliver? && Step(w, e, x) && NoneStray(w, e.p.identity) && !Displaces(w, e, x)
    requires path in HomeOf(x, e.p.identity).archives
    ensures Answered(x, e.p.identity, path)
  {
    var id, tr := e.p.identity, e.p.transient;
    var a, b := HomeOf(w, id), HomeOf(x, id);
    AdmissionAddsOne(w.t, e.p, e.h, e.purge, e.fate);
    hide Outcome;
    if path in a.archives && ReferencesArchive(w.t, id, path) {
      var k :| k in w.t.effects && k.identity == id && w.t.effects[k].archive == path;
      assert k in x.t.effects && x.t.effects[k].archive == path;
    } else if b.intents == a.intents[tr := Delivery.StagingIntent(e.p)] && path == e.p.archive {
      assert NamesArchive(b.intents[tr], path);
    } else if m :| m in a.intents && NamesArchive(a.intents[m], path) && (m != tr || b.intents == a.intents) {
      assert m in b.intents && b.intents[m] == a.intents[m];
    }
  }

  lemma DisplacedIsStray(w: World, e: Event, x: World)
    requires Step(w, e, x) && Displaces(w, e, x)
    ensures !NoneStray(x, e.p.identity)
  {
    var id, tr := e.p.identity, e.p.transient;
    var a, b := HomeOf(w, id), HomeOf(x, id);
    var path := a.intents[tr].archive;
    AdmissionAddsOne(w.t, e.p, e.h, e.purge, e.fate);
    hide Outcome;
    assert path in b.archives;
    assert forall m :: m in b.intents && m != tr ==> b.intents[m] == a.intents[m];
  }

  lemma ChangeAnswers(w: World, e: Event, x: World, identity: string, path: string)
    requires e.Change? && Step(w, e, x) && e != Change(Runs.Event.Forget(identity))
    requires path in HomeOf(w, identity).archives && Answered(w, identity, path)
    ensures Answered(x, identity, path)
  {
    if ReferencesArchive(w.t, identity, path) && !ReferencesArchive(x.t, identity, path) {
      var k :| k in w.t.effects && k.identity == identity && w.t.effects[k].archive == path;
      assert k !in x.t.effects;
      DroppedIsJournalled(w.t, e.e, x.t, k);
    }
  }

  /** A deletion journals the archive of every effect it drops. */
  lemma DroppedIsJournalled(t: Tables, e: Runs.Event, u: Tables, k: Key)
    requires !e.Admit? && Runs.Step(t, e, u) && k in t.effects && k !in u.effects && e != Runs.Event.Forget(k.identity)
    ensures Artifact(k.identity, Archive, t.effects[k].archive) in u.journal.Values
  {
  }

  lemma CleaningAnswers(w: World, e: Event, x: World, identity: string, path: string)
    requires e.Clean? && Step(w, e, x) && path in HomeOf(x, identity).archives
    requires path in HomeOf(w, identity).archives && Answered(w, identity, path)
    ensures Answered(x, identity, path)
  {
    assert Sweep.SweptFiles(w.t, HomeOf(w, identity), HomeOf(x, identity), identity);
    if Artifact(identity, Archive, path) in w.t.journal.Values {
      var id :| id in w.t.journal && w.t.journal[id] == Artifact(identity, Archive, path);
      assert id in x.t.journal;
    }
  }

  lemma TidyingAnswers(w: World, e: Event, x: World, path: string)
    requires e.Tidy? && Step(w, e, x) && path in HomeOf(x, e.identity).archives
    requires path in HomeOf(w, e.identity).archives && Answered(w, e.identity, path)
    ensures Answered(x, e.identity, path)
  {
    var a, b := HomeOf(w, e.identity), HomeOf(x, e.identity);
    if Reconcile.StillNamed(a, path) && !ReferencesArchive(w.t, e.identity, path) {
      var m :| m in a.intents && NamesArchive(a.intents[m], path);
      if m in b.intents {
        assert NamesArchive(b.intents[m], path);
      } else {
        assert Reconcile.RemovedOrphan(w.t, e.identity, a, b, m);
      }
    }
  }

  /** Archives stay answered for, except when a delivery displaces the last intent of another one. */
  lemma StaysAnsweredIff(w: World, e: Event, x: World, identity: string)
    requires Step(w, e, x) && NoneStray(w, identity) && e != Change(Runs.Event.Forget(identity))
    ensures NoneStray(x, identity) <==> !(Displaces(w, e, x) && e.p.identity == identity)
  {
    if Displaces(w, e, x) && e.p.identity == identity {
      DisplacedIsStray(w, e, x);
    } else {
      forall path | path in HomeOf(x, identity).archives ensures Answered(x, identity, path) {
        StepAnswers(w, e, x, identity, path);
      }
    }
  }

  lemma StepAnswers(w: World, e: Event, x: World, identity: string, path: string)
    requires Step(w, e, x) && NoneStray(w, identity) && e != Change(Runs.Event.Forget(identity))
    requires !(Displaces(w, e, x) && e.p.identity == identity) && path in HomeOf(x, identity).archives
    ensures Answered(x, identity, path)
  {
    match e
    case Deliver(p, h, purge, fate) =>
      if p.identity == identity {
        DeliveryAnswers(w, e, x, path);
      } else {
        OtherDeliveryAnswers(w, e, x, identity, path);
      }
    case Change(c) => ChangeAnswers(w, e, x, identity, path);
    case Clean(ids) => CleaningAnswers(w, e, x, identity, path);
    case Tidy(other) =>
      if other == identity { TidyingAnswers(w, e, x, path); }
  }

  lemma OtherDeliveryAnswers(w: World, e: Event, x: World, identity: string, path: string)
    requires e.Deliver? && Step(w, e, x) && e.p.identity != identity && Answered(w, identity, path)
    ensures Answered(x, identity, path)
  {
    AdmissionAddsOne(w.t, e.p, e.h, e.purge, e.fate);
    hide Outcome;
    if ReferencesArchive(w.t, identity, path) {
      var k :| k in w.t.effects && k.identity == identity && w.t.effects[k].archive == path;
      assert k in x.t.effects && x.t.effects[k].archive == path;
    }
  }

  /** Over every run in which a transient id always stands for one archive: nothing on disk is forgotten. */
  lemma {:induction false} NothingGoesAstray(states: seq<World>, events: seq<Event>, i: nat, identity: string)
    requires Run(states, events) && NoneStray(states[0], identity) && i < |states|
    requires forall n :: 0 <= n < i ==> events[n] != Change(Runs.Event.Forget(identity))
    requires forall n :: 0 <= n < i ==> !(Displaces(states[n], events[n], states[n + 1]) && events[n].p.identity == identity)
    ensures NoneStray(states[i], identity)
  {
    if i > 0 {
      NothingGoesAstray(states, events, i - 1, identity);
      StaysAnsweredIff(states[i - 1], events[i - 1], states[i], identity);
    }
  }

  /** The tables alone cannot rule it out: a second image under one transient id orphans the first one's archive. */
  lemma SecondImageStrays(p: Plan, h: Handlers, wire: Digest)
    requires p.archive == ArchivePath(p.identity, p.message, p.wire) && wire != p.wire
    ensures exists w, x :: && Step(w, Deliver(p, h, {}, Certain), x) && NoneStray(w, p.identity)
                           && !NoneStray(x, p.identity)
  {
    hide Outcome, ArchivePath, Displaces;
    var t := Tables(map[], map[], map[], map[], map[], 1, App(map[], {}, {}, map[], {}, {}, {}));
    var first := ArchivePath(p.identity, p.message, wire);
    if first == p.archive { ArchivePathInjective(p.identity, p.message, wire, p.message, p.wire); }
    var staged := Intent(p.identity, p.transient, p.message, wire, first, [], 0);
    var a := Home(map[p.transient := staged], {first}, {});
    var b := a.(intents := a.intents[p.transient := Delivery.StagingIntent(p)]);
    var w, x := World(t, map[p.identity := a]), World(t, map[p.identity := b]);
    var e := Deliver(p, h, {}, Certain);
    assert HomeOf(w, p.identity) == a && HomeOf(x, p.identity) == b;
    IntentOverwritten(w, x, p, h, first);
    assert NamesArchive(a.intents[p.transient], first) && Reconcile.StillNamed(a, first);
    assert NoneStray(w, p.identity);
    DisplacedIsStray(w, e, x);
  }

  /** A delivery that stops right after writing its intent. */
  lemma IntentOverwritten(w: World, x: World, p: Plan, h: Handlers, path: string)
    requires x.t == w.t && OthersAlone(w, x, p.identity) && path != p.archive
    requires var (a, b) := (HomeOf(w, p.identity), HomeOf(x, p.identity));
             && b == a.(intents := a.intents[p.transient := Delivery.StagingIntent(p)])
             && a.intents.Keys == {p.transient} && NamesArchive(a.intents[p.transient], path) && path in a.archives
             && !ReferencesArchive(w.t, p.identity, path) && Artifact(p.identity, Archive, path) !in w.t.journal.Values
    ensures Step(w, Deliver(p, h, {}, Certain), x) && Displaces(w, Deliver(p, h, {}, Certain), x)
  {
    hide Outcome;
  }
}
