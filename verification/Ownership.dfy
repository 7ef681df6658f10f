/** Switching who owns the network: a staged credential, a trial start, one commit, and rollback. */
module Ownership {
  import opened Common

  type Profile = seq<char>
  type Ref = nat
  type Key = seq<byte>
  type Endpoint = seq<char>

  datatype Mode = Managed | Existing

  datatype Selection = Selection(mode: Mode, share: bool, endpoint: Option<Endpoint>, credential: Option<Ref>)

  datatype KeyInput = Absent | Malformed | Supplied(key: Key)

  /** A missing endpoint also stands for an unusable one. */
  datatype Request = Request(mode: Mode, share: bool, endpoint: Option<Endpoint>, key: KeyInput)

  /** What survives a restart: committed selections, and keys in protected storage. */
  datatype Vault = Vault(settings: map<Profile, Selection>, store: map<Ref, Key>)

  datatype Identity = Identity(hardware: bool)

  datatype Fault = Refused | Unreachable | StoreFailed | ShutdownFailed | StartFailed | CommitFailed | Interrupted

  /** Where an armed transition may be cancelled: at each of its waits. */
  datatype Wait = AtShutdown | AtStart | AtStop | AtRestore | AtDiscard

  /** How everything outside answers during one call. */
  datatype World = World(
    settingsOpen: bool,
    reachable: bool,
    writes: bool,
    readable: bool,
    deletes: bool,
    shutsDown: bool,
    starts: bool,
    commits: bool,
    stops: bool,
    restores: bool,
    cut: Option<Wait>
  )

  // ----- References and keys -----

  ghost predicate Refers(settings: map<Profile, Selection>, r: Ref) {
    exists p :: p in settings && settings[p].credential == Some(r)
  }

  /** Profiles do not share a credential. */
  ghost predicate Separate(settings: map<Profile, Selection>) {
    forall p, q :: p in settings && q in settings && p != q && settings[p].credential.Some? ==>
      settings[p].credential != settings[q].credential
  }

  /** No reference without its key. */
  ghost predicate NoneMissing(v: Vault) {
    forall p :: p in v.settings && v.settings[p].credential.Some? ==> v.settings[p].credential.value in v.store
  }

  /** No key without a reference. */
  ghost predicate NoneUnused(v: Vault) { forall r :: r in v.store ==> Refers(v.settings, r) }

  ghost predicate Tidy(v: Vault) { Separate(v.settings) && NoneMissing(v) && NoneUnused(v) }

  function Credential(settings: map<Profile, Selection>, p: Profile): Option<Ref> {
    if p in settings then settings[p].credential else None
  }

  // ----- What a request selects, and when it is refused -----

  /** A managed stack takes no key; a client needs an endpoint, does not share, and needs a readable key. */
  predicate Admissible(v: Vault, profile: Profile, request: Request, world: World) {
    && request.key != Malformed
    && if request.mode == Managed then request.key == Absent
       else
         && !request.share && request.endpoint.Some?
         && (request.key == Absent ==>
               var r := Credential(v.settings, profile);
               r.Some? && r.value in v.store && world.readable)
  }

  /** A managed stack keeps no endpoint and no credential; a client keeps its own unless a key is supplied. */
  function Chosen(v: Vault, profile: Profile, request: Request, uuid: Ref): Selection {
    if request.mode == Managed then Selection(Managed, request.share, None, None)
    else
      Selection(Existing, false, request.endpoint,
                if request.key.Supplied? then Some(uuid) else Credential(v.settings, profile))
  }

  /** A staged key is stored under a name nobody refers to. */
  ghost predicate Fresh(v: Vault, r: Ref) { r !in v.store && !Refers(v.settings, r) }

  /** The key of the selection that a commit replaces. */
  function Replaced(v: Vault, profile: Profile, selection: Selection): set<Ref> {
    match Credential(v.settings, profile)
    case None => {}
    case Some(r) => if selection.credential == Some(r) then {} else {r}
  }

  function Stored(v: Vault, request: Request, uuid: Ref): Vault {
    if request.key.Supplied? then v.(store := v.store[uuid := request.key.key]) else v
  }

  function Committed(v: Vault, profile: Profile, request: Request, uuid: Ref): Vault {
    var w := Stored(v, request, uuid);
    w.(settings := w.settings[profile := Chosen(v, profile, request, uuid)])
  }

  function Cleaned(v: Vault, gone: set<Ref>): Vault { v.(store := v.store - gone) }

  // ----- The verdict on a call -----

  /** What ends the armed part of a transition, if anything does. */
  function Course(world: World): Option<Fault> {
    if world.cut == Some(AtShutdown) then Some(Interrupted)
    else if !world.shutsDown then Some(ShutdownFailed)
    else if world.cut == Some(AtStart) then Some(Interrupted)
    else if world.starts && world.commits then None
    else if world.cut in {Some(AtStop), Some(AtDiscard)} || (world.cut == Some(AtRestore) && world.stops) then Some(Interrupted)
    else if world.starts then Some(CommitFailed) else Some(StartFailed)
  }

  /** `None` when the call commits; `open` says that the identity is unlocked and the request still allowed. */
  function Verdict(v: Vault, profile: Profile, request: Request, open: bool, world: World): Option<Fault> {
    if !open || !world.settingsOpen || !Admissible(v, profile, request, world) then Some(Refused)
    else if request.mode == Existing && !world.reachable then Some(Unreachable)
    else if request.key.Supplied? && !(world.writes && world.readable) then Some(StoreFailed)
    else Course(world)
  }

  /** The new key was written, but the call fails and does not remove it. */
  predicate Leftover(v: Vault, profile: Profile, request: Request, open: bool, world: World) {
    var fault := Verdict(v, profile, request, open, world);
    && request.key.Supplied? && world.writes && fault.Some? && fault.value !in {Refused, Unreachable}
    && (!world.deletes || (fault.value == Interrupted && world.cut != Some(AtDiscard)))
  }

  /** What the call leaves behind. */
  function Outcome(v: Vault, profile: Profile, request: Request, uuid: Ref, open: bool, world: World): Vault {
    if Verdict(v, profile, request, open, world).None? then
      Cleaned(Committed(v, profile, request, uuid),
              if world.deletes then Replaced(v, profile, Chosen(v, profile, request, uuid)) else {})
    else if Leftover(v, profile, request, open, world) then Stored(v, request, uuid)
    else v
  }

  /** An identity on a device is locked when no stack was brought back for it. */
  predicate Locks(world: World) {
    && world.shutsDown && world.cut != Some(AtShutdown) && Course(world).Some?
    && (world.cut in {Some(AtStart), Some(AtStop)} || !world.stops || world.cut == Some(AtRestore) || !world.restores)
  }

  // ----- What the verdicts keep -----

  lemma ClientKeepsOwnKey(v: Vault, profile: Profile, request: Request, uuid: Ref, world: World)
    requires Admissible(v, profile, request, world)
    ensures var c := Chosen(v, profile, request, uuid).credential;
            c.Some? ==> c.value in Stored(v, request, uuid).store
                        && (c == Credential(v.settings, profile) || (c.value == uuid && request.key.Supplied?))
    ensures request.key.Supplied? ==> Chosen(v, profile, request, uuid).credential == Some(uuid)
  {
  }

  /** Whatever cleanup is skipped, no committed selection loses its key, and profiles stay apart. */
  lemma CommitLosesNothing(v: Vault, profile: Profile, request: Request, uuid: Ref, world: World, gone: set<Ref>)
    requires Separate(v.settings) && NoneMissing(v) && Fresh(v, uuid) && Admissible(v, profile, request, world)
    requires gone <= Replaced(v, profile, Chosen(v, profile, request, uuid))
    ensures var w := Cleaned(Committed(v, profile, request, uuid), gone); Separate(w.settings) && NoneMissing(w)
  {
    var selection := Chosen(v, profile, request, uuid);
    var w := Cleaned(Committed(v, profile, request, uuid), gone);
    ClientKeepsOwnKey(v, profile, request, uuid, world);
    hide Admissible, Chosen;
    assert w.settings[profile] == selection;
    forall p | p in w.settings && p != profile && w.settings[p].credential.Some?
      ensures w.settings[p].credential != selection.credential && w.settings[p].credential.value in w.store
    {
      assert v.settings[p] == w.settings[p];
      assert Refers(v.settings, v.settings[p].credential.value);
      assert Credential(v.settings, profile) != w.settings[p].credential;
    }
  }

  lemma ReplacedIsUnused(v: Vault, profile: Profile, request: Request, uuid: Ref, world: World)
    requires Separate(v.settings) && Fresh(v, uuid) && Admissible(v, profile, request, world)
    ensures var selection := Chosen(v, profile, request, uuid);
            forall r :: r in Replaced(v, profile, selection) ==> !Refers(v.settings[profile := selection], r)
  {
    var selection := Chosen(v, profile, request, uuid);
    var after := v.settings[profile := selection];
    hide Admissible, Chosen;
    assert forall p :: p in after && p != profile ==> after[p] == v.settings[p];
  }

  /** Every stored key but the replaced one still has its reference. */
  lemma OnlyReplacedIsUnused(v: Vault, profile: Profile, request: Request, uuid: Ref, world: World, r: Ref)
    requires NoneUnused(v) && Admissible(v, profile, request, world)
    requires r in Committed(v, profile, request, uuid).store
    requires r !in Replaced(v, profile, Chosen(v, profile, request, uuid))
    ensures Refers(Committed(v, profile, request, uuid).settings, r)
  {
    var selection := Chosen(v, profile, request, uuid);
    var after := Committed(v, profile, request, uuid).settings;
    ClientKeepsOwnKey(v, profile, request, uuid, world);
    hide Admissible, Chosen;
    if selection.credential == Some(r) {
      assert after[profile].credential == Some(r);
    } else {
      assert r in v.store;
      var p :| p in v.settings && v.settings[p].credential == Some(r);
      assert p != profile && after[p] == v.settings[p];
    }
  }

  /** A commit keeps references and keys in step exactly when the replaced key, if there is one, is deleted. */
  lemma CommitKeepsTidyIff(v: Vault, profile: Profile, request: Request, uuid: Ref, world: World)
    requires Tidy(v) && Fresh(v, uuid) && Admissible(v, profile, request, world)
    ensures var selection := Chosen(v, profile, request, uuid);
            var gone := if world.deletes then Replaced(v, profile, selection) else {};
            Tidy(Cleaned(Committed(v, profile, request, uuid), gone))
            <==> world.deletes || Replaced(v, profile, selection) == {}
  {
    var selection := Chosen(v, profile, request, uuid);
    var replaced := Replaced(v, profile, selection);
    var gone := if world.deletes then replaced else {};
    var committed := Committed(v, profile, request, uuid);
    var w := Cleaned(committed, gone);
    CommitLosesNothing(v, profile, request, uuid, world, gone);
    ReplacedIsUnused(v, profile, request, uuid, world);
    hide Admissible, Chosen;
    if world.deletes || replaced == {} {
      forall r | r in w.store ensures Refers(w.settings, r) {
        OnlyReplacedIsUnused(v, profile, request, uuid, world, r);
      }
    } else {
      var r :| r in replaced;
      assert r in v.store && r in w.store && !Refers(w.settings, r);
    }
  }

  /** A key that is stored without a reference is the only thing a failed call can leave. */
  lemma LeftoverIsUntidy(v: Vault, request: Request, uuid: Ref)
    requires Fresh(v, uuid) && request.key.Supplied?
    ensures !Tidy(Stored(v, request, uuid))
  {
    assert uuid in Stored(v, request, uuid).store;
  }

  /**
   * The whole transaction keeps references and keys in step exactly unless it
   * fails and leaves the new key, or commits and cannot delete the replaced one.
   */
  lemma ApplyKeepsTidyIff(v: Vault, profile: Profile, request: Request, uuid: Ref, open: bool, world: World)
    requires Tidy(v) && Fresh(v, uuid)
    ensures var committed := Verdict(v, profile, request, open, world).None?;
            Tidy(Outcome(v, profile, request, uuid, open, world))
            <==> if committed then world.deletes || Replaced(v, profile, Chosen(v, profile, request, uuid)) == {}
                 else !Leftover(v, profile, request, open, world)
  {
    if Verdict(v, profile, request, open, world).None? {
      CommitKeepsTidyIff(v, profile, request, uuid, world);
    } else if Leftover(v, profile, request, open, world) {
      LeftoverIsUntidy(v, request, uuid);
    }
  }

  /** When the store deletes what it is asked to, only a cancelled call that had staged a key leaves one behind. */
  lemma DeletionsKeepTidy(v: Vault, profile: Profile, request: Request, uuid: Ref, open: bool, world: World)
    requires Tidy(v) && Fresh(v, uuid) && world.deletes
    requires Verdict(v, profile, request, open, world) != Some(Interrupted) || !request.key.Supplied?
    ensures Tidy(Outcome(v, profile, request, uuid, open, world))
  {
    ApplyKeepsTidyIff(v, profile, request, uuid, open, world);
  }

  /** Whatever fails: no committed selection loses its key, and only this profile's selection can change. */
  lemma OutcomeIsSafe(v: Vault, profile: Profile, request: Request, uuid: Ref, open: bool, world: World)
    requires Separate(v.settings) && NoneMissing(v) && Fresh(v, uuid)
    ensures var w := Outcome(v, profile, request, uuid, open, world);
            && Separate(w.settings) && NoneMissing(w)
            && (Verdict(v, profile, request, open, world).Some? ==> w.settings == v.settings)
            && w.settings - {profile} == v.settings - {profile}
  {
    if Verdict(v, profile, request, open, world).None? {
      CommitLosesNothing(v, profile, request, uuid, world,
                         if world.deletes then Replaced(v, profile, Chosen(v, profile, request, uuid)) else {});
    } else {
      assert forall p :: p in v.settings && v.settings[p].credential.Some? ==>
          v.settings[p].credential.value in v.store && v.settings[p].credential.value in Stored(v, request, uuid).store;
    }
  }

  // ----- The whole call, in plain terms -----

  /** Everything that has to go well. */
  ghost predicate Succeeds(v: Vault, profile: Profile, request: Request, open: bool, world: World) {
    && open && world.settingsOpen
    && (match request.mode
        case Managed => request.key.Absent?
        case Existing =>
          && !request.share && request.endpoint.Some? && world.reachable
          && match request.key
             case Malformed => false
             case Supplied(_) => world.writes && world.readable
             case Absent =>
               && profile in v.settings && v.settings[profile].credential.Some?
               && v.settings[profile].credential.value in v.store && world.readable)
    && world.shutsDown && world.starts && world.commits
    && world.cut != Some(AtShutdown) && world.cut != Some(AtStart)
  }

  /** The selection that is committed: what was asked for, with the new key's name or the profile's own. */
  ghost predicate Commits(v: Vault, profile: Profile, request: Request, uuid: Ref, selection: Selection) {
    && selection.mode == request.mode && (selection.share <==> request.share)
    && match request.mode
       case Managed => selection.endpoint.None? && selection.credential.None?
       case Existing =>
         && selection.endpoint == request.endpoint
         && if request.key.Supplied? then selection.credential == Some(uuid)
            else profile in v.settings && selection.credential == v.settings[profile].credential
  }

  /** Which keys are stored afterwards. */
  ghost predicate Leaves(v: Vault, profile: Profile, request: Request, uuid: Ref, w: Vault, kept: bool, deletes: bool) {
    && (forall r :: r in w.store ==>
          if r == uuid && request.key.Supplied? then w.store[r] == request.key.key
          else r in v.store && w.store[r] == v.store[r])
    && if kept then
         forall r :: r in w.store <==>
           || (r == uuid && request.key.Supplied?)
           || (r in v.store && !(deletes && profile in v.settings && v.settings[profile].credential == Some(r)
                                 && (profile in w.settings ==> w.settings[profile].credential != Some(r))))
       else forall r :: r in w.store && r !in v.store ==> r == uuid && request.key.Supplied?
  }

  /** A call gets as far as taking the stack down. */
  ghost predicate Arms(v: Vault, profile: Profile, request: Request, open: bool, world: World) {
    && open && world.settingsOpen
    && match request.mode
       case Managed => request.key.Absent?
       case Existing => Asks(v, profile, request, world) && world.reachable && (request.key.Supplied? ==> world.writes && world.readable)
  }

  /** A client's request that is not refused. */
  ghost predicate Asks(v: Vault, profile: Profile, request: Request, world: World) {
    && !request.share && request.endpoint.Some? && !request.key.Malformed?
    && (request.key.Absent? ==>
          && profile in v.settings && v.settings[profile].credential.Some?
          && v.settings[profile].credential.value in v.store && world.readable)
  }

  /** A task is cancelled at a point that it reaches. */
  predicate CutShort(world: World) {
    || world.cut == Some(AtShutdown)
    || (world.shutsDown && world.cut == Some(AtStart))
    || (world.shutsDown && !(world.starts && world.commits)
        && (world.cut == Some(AtStop) || world.cut == Some(AtDiscard) || (world.stops && world.cut == Some(AtRestore))))
  }

  /** Which fault a failing call reports. */
  lemma FaultIs(v: Vault, profile: Profile, request: Request, open: bool, world: World, fault: Fault)
    ensures Verdict(v, profile, request, open, world) == Some(fault) <==>
            match fault
            case Refused =>
              !(open && world.settingsOpen && (if request.mode == Managed then request.key.Absent? else Asks(v, profile, request, world)))
            case Unreachable =>
              open && world.settingsOpen && request.mode == Existing && Asks(v, profile, request, world) && !world.reachable
            case StoreFailed =>
              && open && world.settingsOpen && request.mode == Existing && Asks(v, profile, request, world) && world.reachable
              && request.key.Supplied? && !(world.writes && world.readable)
            case Interrupted => Arms(v, profile, request, open, world) && CutShort(world)
            case ShutdownFailed => Arms(v, profile, request, open, world) && !CutShort(world) && !world.shutsDown
            case StartFailed => Arms(v, profile, request, open, world) && !CutShort(world) && world.shutsDown && !world.starts
            case CommitFailed =>
              Arms(v, profile, request, open, world) && !CutShort(world) && world.shutsDown && world.starts && !world.commits
  {
  }

  lemma OutcomeMeans(v: Vault, profile: Profile, request: Request, uuid: Ref, open: bool, world: World)
    requires Fresh(v, uuid)
    ensures var w := Outcome(v, profile, request, uuid, open, world);
            if Succeeds(v, profile, request, open, world) then
              && Verdict(v, profile, request, open, world).None?
              && profile in w.settings && Commits(v, profile, request, uuid, w.settings[profile])
              && w.settings == v.settings[profile := w.settings[profile]]
              && Leaves(v, profile, request, uuid, w, true, world.deletes)
            else
              && Verdict(v, profile, request, open, world).Some? && w.settings == v.settings
              && (forall r :: r in v.store ==> r in w.store) && Leaves(v, profile, request, uuid, w, false, world.deletes)
  {
    assert Verdict(v, profile, request, open, world).None? <==> Succeeds(v, profile, request, open, world);
    hide Verdict, Leftover;
  }

  /** A new key stays behind exactly when it was written, the call failed, and it was not removed. */
  lemma StaysBehindIff(v: Vault, profile: Profile, request: Request, uuid: Ref, open: bool, world: World)
    requires Fresh(v, uuid) && !Succeeds(v, profile, request, open, world)
    ensures uuid in Outcome(v, profile, request, uuid, open, world).store <==>
              && open && world.settingsOpen && request.mode == Existing && request.key.Supplied?
              && !request.share && request.endpoint.Some? && world.reachable && world.writes
              && (world.deletes ==>
                    && world.readable
                    && (|| world.cut == Some(AtShutdown)
                        || (world.shutsDown && world.cut == Some(AtStart))
                        || (world.shutsDown && world.cut == Some(AtStop))
                        || (world.shutsDown && world.cut == Some(AtRestore) && world.stops)))
  {
  }

  /** A hardware identity stays unlocked exactly when its stack was never taken down, or one was brought up again. */
  lemma LocksIff(world: World)
    ensures Locks(world) <==>
              && world.shutsDown && world.cut != Some(AtShutdown)
              && (world.cut == Some(AtStart)
                  || (!(world.starts && world.commits)
                      && !(world.stops && world.restores && world.cut != Some(AtStop) && world.cut != Some(AtRestore))))
  {
  }

  // ----- The transaction -----

  class NetworkOwner {
    var settings: map<Profile, Selection>
    var store: map<Ref, Key>
    var proposed: Option<(Profile, Selection)>
    var retained: Option<Identity>
    var locked: bool
    var error: bool

    ghost function State(): Vault
      reads this
    {
      Vault(settings, store)
    }

    ghost predicate Idle()
      reads this
    {
      proposed.None? && retained.None?
    }

    constructor ()
      ensures Idle() && State() == Vault(map[], map[]) && !locked && !error
    {
      settings, store, proposed, retained, locked, error := map[], map[], None, None, false, false;
    }

    /** A supplied key is staged only afterwards, so the selection does not name it yet. */
    method Prepare(profile: Profile, request: Request, world: World) returns (selection: Result<Selection, Fault>)
      ensures var admitted := Admissible(State(), profile, request, world);
              && (selection.Ok? <==> admitted && (request.mode == Existing ==> world.reachable))
              && (selection.Err? ==> selection.error == if admitted then Unreachable else Refused)
      ensures selection.Ok? ==>
                forall uuid :: Chosen(State(), profile, request, uuid)
                               == if request.key.Supplied? then selection.value.(credential := Some(uuid)) else selection.value
    {
      if request.key == Malformed {
        return Err(Refused);
      }
      if request.mode == Managed {
        if request.key.Supplied? {
          return Err(Refused);
        }
        return Ok(Selection(Managed, request.share, None, None));
      }
      if request.share || request.endpoint.None? {
        return Err(Refused);
      }
      var credential := None;
      if request.key == Absent {
        credential := if profile in settings then settings[profile].credential else None;
        if credential.None? || credential.value !in store || !world.readable {
          return Err(Refused);
        }
      }
      if !world.reachable {
        return Err(Unreachable);
      }
      return Ok(Selection(Existing, false, request.endpoint, credential));
    }

    /** Protected storage may refuse a deletion. */
    method DeleteCredential(r: Ref, world: World) returns (deleted: bool)
      modifies this`store
      ensures deleted == world.deletes && store == if world.deletes then old(store) - {r} else old(store)
    {
      deleted := world.deletes;
      if deleted {
        store := store - {r};
      }
    }

    /** Writes the key and reads it back; a key that cannot be read back is removed again. */
    method Stage(uuid: Ref, key: Key, world: World) returns (staged: bool)
      requires uuid !in store
      modifies this`store
      ensures staged == (world.writes && world.readable)
      ensures store == if world.writes && (world.readable || !world.deletes) then old(store)[uuid := key] else old(store)
    {
      if !world.writes {
        return false;
      }
      store := store[uuid := key];
      if world.readable {
        return true;
      }
      var _ := DeleteCredential(uuid, world);
      assert old(store)[uuid := key] - {uuid} == old(store);
      return false;
    }

    /** The guard of an unwound or cancelled transition. */
    method DropGuard()
      modifies this`proposed, this`retained, this`locked, this`error
      ensures Idle() && error && locked == (old(locked) || (old(retained).Some? && old(retained).value.hardware))
    {
      proposed := None;
      if retained.Some? && retained.value.hardware {
        locked := true;
      }
      retained := None;
      error := true;
    }

    method Discard(uuid: Ref, staged: bool, world: World)
      modifies this`store
      ensures store == if staged && world.deletes then old(store) - {uuid} else old(store)
    {
      if staged {
        var _ := DeleteCredential(uuid, world);
      }
    }

    /**
     * `uuid` is the fresh name of a staged key, `identity` the unlocked identity,
     * `allowed` whether the profile is still the one the request was made for.
     */
    method Apply(profile: Profile, request: Request, uuid: Ref, identity: Option<Identity>, allowed: bool, world: World)
      returns (done: Result<Selection, Fault>)
      requires Idle() && Fresh(State(), uuid)
      modifies this
      ensures Idle()
      ensures var open := allowed && identity.Some?;
              var fault := Verdict(old(State()), profile, request, open, world);
              && State() == Outcome(old(State()), profile, request, uuid, open, world)
              && done == (if fault.Some? then Err(fault.value) else Ok(Chosen(old(State()), profile, request, uuid)))
              && locked == (old(locked) || (open && identity.value.hardware && Reached(fault) && Locks(world)))
      ensures done.Err? && done.error in {StartFailed, CommitFailed, Interrupted} ==> error
    {
      if !allowed || identity.None? || !world.settingsOpen {
        return Err(Refused);
      }
      var previous := Credential(settings, profile);
      var prepared := Prepare(profile, request, world);
      if prepared.Err? {
        return Err(prepared.error);
      }
      var selection := prepared.value;
      var staged := false;
      if request.key.Supplied? {
        staged := Stage(uuid, request.key.key, world);
        if !staged {
          return Err(StoreFailed);
        }
        selection := selection.(credential := Some(uuid));
      }
      assert selection == Chosen(old(State()), profile, request, uuid);
      assert State() == Stored(old(State()), request, uuid);
      var fault := TearDownAndStart(profile, selection, identity.value, uuid, staged, world);
      if fault.Some? {
        assert staged ==> old(store)[uuid := request.key.key] - {uuid} == old(store);
        return Err(fault.value);
      }
      if previous.Some? && previous != selection.credential {
        var deleted := DeleteCredential(previous.value, world);
        if !deleted {
          error := true;
        }
      }
      return Ok(selection);
    }

    /** From arming the guard to disarming it: `None` once the new selection is committed. */
    method TearDownAndStart(profile: Profile, selection: Selection, identity: Identity, uuid: Ref, staged: bool, world: World)
      returns (fault: Option<Fault>)
      requires Idle() && (staged ==> uuid in store)
      modifies this
      ensures Idle() && fault == Course(world)
      ensures settings == if fault.None? then old(settings)[profile := selection] else old(settings)
      ensures store == if staged && Removes(world) then old(store) - {uuid} else old(store)
      ensures locked == (old(locked) || (identity.hardware && Locks(world)))
      ensures fault.Some? && fault.value in {StartFailed, CommitFailed, Interrupted} ==> error
    {
      if world.cut == Some(AtShutdown) {
        DropGuard();
        return Some(Interrupted);
      }
      if !world.shutsDown {
        Discard(uuid, staged, world);
        return Some(ShutdownFailed);
      }
      retained, proposed := Some(identity), Some((profile, selection));
      if world.cut == Some(AtStart) {
        DropGuard();
        return Some(Interrupted);
      }
      if world.starts && world.commits {
        settings := settings[profile := selection];
        proposed, retained := None, None;
        return None;
      }
      var failure := RollBack(if world.starts then CommitFailed else StartFailed, uuid, staged, world);
      return Some(failure);
    }

    /** Stops the trial, restarts the committed selection and removes the staged key. */
    method RollBack(cause: Fault, uuid: Ref, staged: bool, world: World) returns (failure: Fault)
      requires cause == (if world.starts then CommitFailed else StartFailed) && retained.Some? && (staged ==> uuid in store)
      requires world.shutsDown && !(world.starts && world.commits) && world.cut !in {Some(AtShutdown), Some(AtStart)}
      modifies this
      ensures Idle() && settings == old(settings) && error && Some(failure) == Course(world)
      ensures store == if staged && Removes(world) then old(store) - {uuid} else old(store)
      ensures locked == (old(locked) || (old(retained).value.hardware && Locks(world)))
    {
      if world.cut == Some(AtStop) {
        DropGuard();
        return Interrupted;
      }
      proposed := None;
      if world.stops && world.cut == Some(AtRestore) {
        DropGuard();
        return Interrupted;
      }
      var restored := world.stops && world.restores;
      if !restored && retained.value.hardware {
        locked := true;
      }
      retained := None;
      Discard(uuid, staged, world);
      if world.cut == Some(AtDiscard) {
        DropGuard();
        return Interrupted;
      }
      error := true;
      return cause;
    }

    /**
     * Forgetting a deleted profile. Its key goes first: if the settings row then
     * cannot be removed, the row outlives the key it names.
     */
    method ForgetDeletedProfile(profile: Profile, active: Profile, world: World) returns (done: Result<(), Fault>)
      modifies this`settings, this`store
      ensures State() == Forgotten(old(State()), profile, done)
      ensures done == Farewell(old(State()), profile, active, world)
      ensures done.Ok? <==> active != profile && world.settingsOpen && world.commits
                            && (profile in old(settings) && old(settings)[profile].credential.Some? ==> world.deletes)
      ensures done.Ok? ==> settings == old(settings) - {profile}
      ensures done.Err? ==> settings == old(settings)
      ensures old(Tidy(State())) ==>
                (Tidy(State()) <==> !(done == Err(CommitFailed) && Credential(old(settings), profile).Some?))
    {
      ghost var before := State();
      if active == profile || !world.settingsOpen {
        return Err(Refused);
      }
      var credential := Credential(settings, profile);
      if credential.Some? {
        var deleted := DeleteCredential(credential.value, world);
        if !deleted {
          return Err(StoreFailed);
        }
      } else {
        assert store - {} == store;
      }
      if !world.commits {
        done := Err(CommitFailed);
      } else {
        settings := settings - {profile};
        done := Ok(());
      }
      if Tidy(before) { ForgettingKeepsTidyIff(before, profile, done.Ok?); }
    }
  }

  predicate Reached(fault: Option<Fault>) { fault.None? || fault.value !in {Refused, Unreachable, StoreFailed} }

  /** A staged key is removed on every failing path but the cancelled ones before the removal. */
  predicate Removes(world: World) {
    world.deletes && Course(world).Some? && (Course(world) != Some(Interrupted) || world.cut == Some(AtDiscard))
  }

  // ----- Forgetting a profile -----

  const NOTHING: Selection := Selection(Managed, false, None, None)

  function Farewell(v: Vault, profile: Profile, active: Profile, world: World): Result<(), Fault> {
    if active == profile || !world.settingsOpen then Err(Refused)
    else if Credential(v.settings, profile).Some? && !world.deletes then Err(StoreFailed)
    else if !world.commits then Err(CommitFailed)
    else Ok(())
  }

  /** Before the key's deletion an error changes nothing; after it, only the settings row is left. */
  function Forgotten(v: Vault, profile: Profile, done: Result<(), Fault>): Vault {
    if done.Err? && done.error != CommitFailed then v
    else
      var w := Cleaned(v, Replaced(v, profile, NOTHING));
      if done.Ok? then w.(settings := w.settings - {profile}) else w
  }

  /** Forgetting a profile keeps references and keys in step exactly when its settings row goes too, or it had no key. */
  lemma ForgettingKeepsTidyIff(v: Vault, profile: Profile, rowGone: bool)
    requires Tidy(v)
    ensures var w := Cleaned(v, Replaced(v, profile, NOTHING));
            Tidy(if rowGone then Vault(w.settings - {profile}, w.store) else w)
            <==> rowGone || Credential(v.settings, profile).None?
  {
    var gone := Replaced(v, profile, NOTHING);
    var w := Cleaned(v, gone);
    var x := if rowGone then Vault(w.settings - {profile}, w.store) else w;
    if rowGone {
      forall r | r in x.store ensures Refers(x.settings, r) {
        var p :| p in v.settings && v.settings[p].credential == Some(r);
        assert p in x.settings && x.settings[p] == v.settings[p];
      }
      forall p | p in x.settings && x.settings[p].credential.Some?
        ensures x.settings[p].credential.value in x.store
      {
        assert v.settings[p] == x.settings[p] && Credential(v.settings, profile) != v.settings[p].credential;
      }
    } else if Credential(v.settings, profile).None? {
      assert w == v;
    } else {
      assert profile in x.settings && x.settings[profile].credential.value !in x.store;
    }
  }

  /** A profile with a key whose settings row cannot be removed is left with a reference to nothing. */
  lemma RowOutlivesKey()
    ensures exists v: Vault, world: World ::
              && Tidy(v) && world.settingsOpen && world.deletes && Farewell(v, "p", "q", world) == Err(CommitFailed)
              && !NoneMissing(Forgotten(v, "p", Err(CommitFailed)))
  {
    var client := Selection(Existing, false, Some("e"), Some(7));
    var v := Vault(map["p" := client], map[7 := [1]]);
    var world := World(true, true, true, true, true, true, true, false, true, true, None);
    assert Refers(v.settings, 7) by { assert "p" in v.settings && v.settings["p"].credential == Some(7); }
    assert Tidy(v);
    var w := Forgotten(v, "p", Err(CommitFailed));
    assert "p" in w.settings && w.settings["p"].credential == Some(7) && 7 !in w.store;
  }
}
