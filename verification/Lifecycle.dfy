/** The Android Activity lifecycle that outlives its Activities. */
module Lifecycle {
  import opened Common
  import Decimal

  datatype Owner = Owner(generation: u64, activityId: int, resumed: bool, webviewReady: bool)

  datatype Life = Life(
    latest: u64,
    activity: Option<Owner>,
    restore: Option<u64>,
    ready: bool,
    exiting: bool
  )

  const FRESH: Life := Life(0, None, None, false, false)

  predicate Current(l: Life, generation: u64) { l.activity.Some? && l.activity.value.generation == generation }

  /** The Activity that may present: resumed, its WebView ready, the runtime up and not exiting. */
  predicate Presents(l: Life) {
    l.ready && !l.exiting && l.activity.Some? && l.activity.value.resumed && l.activity.value.webviewReady
  }

  predicate Retains(l: Life) { l.ready && !l.exiting }

  function Attached(l: Life, generation: u64, id: int, webviewReady: bool): Life {
    if generation <= l.latest || l.exiting then l
    else l.(latest := generation, activity := Some(Owner(generation, id, false, webviewReady)), restore := None)
  }

  function Detached(l: Life, generation: u64): Life {
    if Current(l, generation) then l.(activity := None, restore := None) else l
  }

  function Resumed(l: Life, generation: u64, resumed: bool): Life {
    if Current(l, generation) then l.(activity := Some(l.activity.value.(resumed := resumed))) else l
  }

  function WebviewReady(l: Life, generation: u64): Life {
    if Current(l, generation) then l.(activity := Some(l.activity.value.(webviewReady := true))) else l
  }

  function Restorable(l: Life, windowExists: bool): Option<Owner> {
    if Retains(l) && !windowExists && l.activity.Some? && l.restore != Some(l.activity.value.generation)
    then l.activity else None
  }

  function RestoreRequested(l: Life, windowExists: bool): Life {
    match Restorable(l, windowExists)
    case None => l
    case Some(owner) => l.(restore := Some(owner.generation))
  }

  predicate Restores(l: Life, owner: Owner, windowExists: bool) {
    && l.restore == Some(owner.generation) && Retains(l) && !windowExists
    && Current(l, owner.generation) && l.activity.value.activityId == owner.activityId
  }

  function RestoreTaken(l: Life, generation: u64): Life {
    if l.restore == Some(generation) then l.(restore := None) else l
  }

  class NativeLifecycle {
    var latestGeneration: u64
    var activity: Option<Owner>
    var restoreRequested: Option<u64>
    var runtimeReady: bool
    var exiting: bool

    ghost function State(): Life
      reads this
    {
      Life(latestGeneration, activity, restoreRequested, runtimeReady, exiting)
    }

    constructor ()
      ensures State() == FRESH
    {
      latestGeneration, activity, restoreRequested, runtimeReady, exiting := 0, None, None, false, false;
    }

    /** The generation a transaction may run under, if the expected one is still the presenting one. */
    method PresentationOwner(expected: Option<string>) returns (generation: Option<u64>)
      ensures generation.Some? <==>
                && Presents(State())
                && (expected.Some? ==> Decimal.ToString(activity.value.generation) == expected.value)
      ensures generation.Some? ==> Current(State(), generation.value)
      ensures generation.Some? ==> runtimeReady && !exiting && activity.value.resumed && activity.value.webviewReady
    {
      if !runtimeReady || exiting {
        return None;
      }
      if activity.None? || !activity.value.resumed || !activity.value.webviewReady {
        return None;
      }
      if expected.Some? && Decimal.ToString(activity.value.generation) != expected.value {
        return None;
      }
      return Some(activity.value.generation);
    }

    method Attach(generation: u64, id: int, webviewReady: bool) returns (attached: bool)
      modifies this
      ensures State() == Attached(old(State()), generation, id, webviewReady)
      ensures attached <==> State() != old(State())
      ensures attached ==> latestGeneration == generation > old(latestGeneration)
      ensures attached <==> generation > old(latestGeneration) && !exiting
      ensures attached ==> activity == Some(Owner(generation, id, false, webviewReady)) && restoreRequested.None?
      ensures !attached ==> unchanged(this)
    {
      if generation == 0 || generation <= latestGeneration || exiting {
        return false;
      }
      latestGeneration := generation;
      activity := Some(Owner(generation, id, false, webviewReady));
      restoreRequested := None;
      return true;
    }

    method Detach(generation: u64) returns (detached: bool)
      modifies this
      ensures State() == Detached(old(State()), generation)
      ensures detached <==> old(activity).Some? && activity.None?
      ensures detached <==> old(activity).Some? && old(activity).value.generation == generation
      ensures if detached then activity.None? && restoreRequested.None? else unchanged(this)
    {
      if activity.Some? && activity.value.generation == generation {
        activity, restoreRequested := None, None;
        return true;
      }
      return false;
    }

    method SetResumed(generation: u64, resumed: bool) returns (published: bool)
      modifies this`activity
      ensures State() == Resumed(old(State()), generation, resumed)
      ensures published <==> Current(old(State()), generation) && !exiting
      ensures if old(activity).Some? && old(activity).value.generation == generation
              then activity == Some(old(activity).value.(resumed := resumed)) else activity == old(activity)
    {
      if activity.None? || activity.value.generation != generation {
        return false;
      }
      activity := Some(activity.value.(resumed := resumed));
      return !exiting;
    }

    method SetWebviewReady(generation: u64) returns (found: bool)
      modifies this`activity
      ensures State() == WebviewReady(old(State()), generation)
      ensures found <==> Current(old(State()), generation)
    {
      if activity.None? || activity.value.generation != generation {
        return false;
      }
      activity := Some(activity.value.(webviewReady := true));
      return true;
    }

    method SetReady()
      modifies this`runtimeReady
      ensures State() == old(State()).(ready := true)
    {
      runtimeReady := true;
    }

    method RequestRestore(windowExists: bool) returns (owner: Option<Owner>)
      modifies this`restoreRequested
      ensures owner == Restorable(old(State()), windowExists)
      ensures State() == RestoreRequested(old(State()), windowExists)
      ensures owner.Some? <==> runtimeReady && !exiting && !windowExists && activity.Some?
                               && old(restoreRequested) != Some(activity.value.generation)
      ensures owner.Some? ==> owner == activity && restoreRequested == Some(activity.value.generation)
      ensures owner.None? ==> restoreRequested == old(restoreRequested)
    {
      if !(runtimeReady && !exiting) || windowExists {
        return None;
      }
      if activity.None? || restoreRequested == Some(activity.value.generation) {
        return None;
      }
      restoreRequested := Some(activity.value.generation);
      return activity;
    }

    method BeginRestore(owner: Owner, windowExists: bool) returns (begins: bool)
      modifies this`restoreRequested
      ensures begins <==> Restores(old(State()), owner, windowExists)
      ensures begins <==> old(restoreRequested) == Some(owner.generation) && runtimeReady && !exiting && !windowExists
                          && activity.Some? && activity.value.generation == owner.generation
                          && activity.value.activityId == owner.activityId
      ensures restoreRequested == if old(restoreRequested) == Some(owner.generation) then None else old(restoreRequested)
      ensures State() == RestoreTaken(old(State()), owner.generation)
    {
      if restoreRequested != Some(owner.generation) {
        return false;
      }
      restoreRequested := None;
      return runtimeReady && !exiting && !windowExists && activity.Some?
             && activity.value.generation == owner.generation && activity.value.activityId == owner.activityId;
    }

    method AbandonRestore(generation: u64)
      modifies this`restoreRequested
      ensures State() == RestoreTaken(old(State()), generation)
    {
      if restoreRequested == Some(generation) {
        restoreRequested := None;
      }
    }

    method Exit()
      modifies this`exiting, this`restoreRequested
      ensures State() == old(State()).(exiting := true, restore := None)
    {
      exiting, restoreRequested := true, None;
    }
  }
}
