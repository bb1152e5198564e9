/**
 Cancelling a volume expansion: the claim is deleted and created again with the size the
 volume really has, while the persistent volume is protected by its reclaim policy.

 The calls run against a cluster that other parties keep changing: between any two
 requests volumes and claims may be rewritten, claims may be deleted, finalised and
 created by others, and released volumes may be reclaimed.  Every request may fail, also
 after it took effect.  The cluster's trace records every state in between.
 */
module CancelExpand {

  datatype Option<T> = None | Some(value: T)

  datatype Policy = Retain | Delete | Recycle

  datatype Volume = Volume(policy: Policy, claimRef: Option<string>, rest: string)

  /** `identity` is name, namespace, labels and annotations; the server owns `uid`. */
  datatype Claim = Claim(
    uid: nat,
    identity: string,
    volumeName: string,
    requests: map<Resource, int>,
    spec: string,
    capacity: map<Resource, int>)

  datatype Resource = Storage | OtherResource(name: string)

  datatype Who = Us | Others

  /** A claim, with who asked for its deletion if anybody has, or the lack of one. */
  datatype ClaimState = Bound(claim: Claim, doomedBy: Option<Who>) | Gone(cause: Who)

  datatype World = World(
    volume: Option<Volume>,
    version: nat,
    claim: ClaimState,
    nextUid: nat,
    reclaimedFor: Option<Who>)

  /** The claim is gone, or going, because of our own delete. */
  predicate OurAbsence(w: World) {
    w.claim == Gone(Us) || (w.claim.Bound? && w.claim.doomedBy == Some(Us))
  }

  predicate Protected(w: World) {
    w.volume.Some? ==> w.volume.value.policy.Retain?
  }

  /** While our delete keeps the claim away the volume is retained and not reclaimed. */
  predicate Safe(w: World) {
    (OurAbsence(w) ==> Protected(w)) && w.reclaimedFor != Some(Us)
  }

  /** Other parties never write the reclaim policy; otherwise they are free. */
  predicate VolumeInterference(w: World, w': World) {
    || (w'.volume == w.volume && w'.version == w.version)
    || (w'.volume.None? && w'.version >= w.version)
    || (w.volume.Some? && w'.volume.Some? && w'.volume.value.policy == w.volume.value.policy && w'.version > w.version)
  }

  predicate ClaimInterference(w: World, w': World) {
    || w'.claim == w.claim
    || (w.claim.Bound? && w'.claim.Bound? && w'.claim.doomedBy == w.claim.doomedBy)
    || (w.claim.Bound? && w.claim.doomedBy.None? && w'.claim == w.claim.(doomedBy := Some(Others)))
    || (w.claim.Bound? && w.claim.doomedBy.Some? && w'.claim == Gone(w.claim.doomedBy.value))
    || (w.claim.Gone? && w'.claim.Bound? && w'.claim.doomedBy.None?)
  }

  /** A released volume that is not retained may be reclaimed. */
  predicate Reclaim(w: World, w': World) {
    && w.claim.Gone? && w.volume.Some? && !w.volume.value.policy.Retain?
    && w' == w.(volume := None, reclaimedFor := Some(w.claim.cause))
  }

  predicate Interference(w: World, w': World) {
    || Reclaim(w, w')
    || (w'.reclaimedFor == w.reclaimedFor && VolumeInterference(w, w') && ClaimInterference(w, w'))
  }

  /**
   What a caller can rely on across steps by other parties: its own deletes are the only
   ones charged to it, the policy stays, and a version number stands for one value.
   */
  predicate Rely(w: World, w': World) {
    && (OurAbsence(w') ==> OurAbsence(w))
    && (w'.volume.Some? ==> w.volume.Some? && w'.volume.value.policy == w.volume.value.policy)
    && w'.version >= w.version
    && (w'.version == w.version && w'.volume.Some? ==> w'.volume == w.volume)
  }

  /** What other parties do cannot endanger the volume, during the call or ever after. */
  lemma InterferenceKeepsSafe(w: World, w': World)
    requires Safe(w) && Interference(w, w')
    ensures Safe(w') && Rely(w, w')
  {
  }

  /** What one write of the volume changes. */
  datatype VolumeUpdate = SetPolicy(policy: Policy) | ClearClaimRef

  function Apply(u: VolumeUpdate, v: Volume): Volume {
    match u
    case SetPolicy(p) => v.(policy := p)
    case ClearClaimRef => v.(claimRef := None)
  }

  function AfterVolumeUpdate(w: World, v: Volume): World {
    w.(volume := Some(v), version := w.version + 1)
  }

  /** Deleting an already doomed claim changes nothing. */
  function AfterClaimDelete(w: World): World {
    if w.claim.Bound? && w.claim.doomedBy.None? then w.(claim := w.claim.(doomedBy := Some(Us))) else w
  }

  /** The server gives a new claim an identity of its own and no capacity yet. */
  function AfterClaimCreate(w: World, c: Claim): World {
    w.(claim := Bound(c.(uid := w.nextUid, capacity := map[]), None), nextUid := w.nextUid + 1)
  }

  function StorageOf(quantities: map<Resource, int>): int {
    if Storage in quantities then quantities[Storage] else 0
  }

  /** The claim to create again: the observed one with its real size requested. */
  function RestoredClaim(c: Claim): Claim {
    c.(uid := 0, requests := c.requests[Storage := StorageOf(c.capacity)])
  }

  /** Claim `a` is `b`, up to what the server assigns, with the capacity of `b` as its storage request. */
  predicate SameButSize(a: Claim, b: Claim) {
    && a.identity == b.identity && a.volumeName == b.volumeName && a.spec == b.spec
    && (Storage in b.capacity ==> a.requests == b.requests[Storage := b.capacity[Storage]])
    && (Storage !in b.capacity ==> a.requests == b.requests[Storage := 0])
  }

  /** What the caches answer a call. */
  datatype Observation = Observation(claim: Option<Claim>, attachedTo: Option<seq<string>>, volume: Option<Volume>)

  datatype Outcome = Ok | Conflict | NotFound | Failed

  const RETRY_STEPS: nat := 5
  const WAIT_STEPS: nat := 30

  /** The effects of a call, in order; it waits for the old claim to be finalised. */
  datatype Action = Protect | DeleteOld | Finalised | Unbind | Recreate | Restore

  const EFFECTS: nat := 6

  function Saga(n: nat): Action
    requires n < EFFECTS
  {
    if n == 0 then Protect
    else if n == 1 then DeleteOld
    else if n == 2 then Finalised
    else if n == 3 then Unbind
    else if n == 4 then Recreate
    else Restore
  }

  /** The volume is written once, and nothing else changes. */
  predicate VolumeWritten(w: World, w': World) {
    w.volume.Some? && w'.volume.Some? && w' == w.(volume := w'.volume, version := w.version + 1)
  }

  /** The claim is marked for deletion, by us unless it was already. */
  predicate ClaimDeleted(w: World, w': World) {
    && w.claim.Bound? && w' == w.(claim := w'.claim) && w'.claim.Bound? && w'.claim.claim == w.claim.claim
    && w'.claim.doomedBy == if w.claim.doomedBy.Some? then w.claim.doomedBy else Some(Us)
  }

  /** What each effect does to the world, for a call that observed claim `c` and policy `backup`. */
  predicate Effect(a: Action, w: World, w': World, c: Claim, backup: Policy) {
    match a
    case Protect => VolumeWritten(w, w') && w'.volume.value == w.volume.value.(policy := Retain)
    case Unbind => VolumeWritten(w, w') && w'.volume.value == w.volume.value.(claimRef := None)
    case Restore => VolumeWritten(w, w') && w'.volume.value == w.volume.value.(policy := backup)
    case DeleteOld => ClaimDeleted(w, w')
    case Finalised => w'.claim.Gone?
    case Recreate =>
      && w.claim.Gone? && w' == w.(claim := w'.claim, nextUid := w'.nextUid)
      && w'.claim.Bound? && w'.claim.doomedBy.None? && SameButSize(w'.claim.claim, c) && w'.claim.claim.uid == w.nextUid
  }

  /** The effects of a call that began at `from`: a part of the saga, in order, at these places of the trace. */
  ghost predicate Took(trace: seq<World>, from: nat, steps: seq<nat>, c: Claim, backup: Policy) {
    steps == [] ||
    var n := |steps| - 1;
    && n < EFFECTS && Took(trace, from, steps[..n], c, backup)
    && from <= steps[n] && 0 < steps[n] < |trace| && (n > 0 ==> steps[n - 1] < steps[n])
    && Effect(Saga(n), trace[steps[n] - 1], trace[steps[n]], c, backup)
  }

  /** Later states do not matter. */
  lemma {:induction false} TookLater(older: seq<World>, trace: seq<World>, from: nat, steps: seq<nat>, c: Claim,
                                     backup: Policy)
    requires Took(older, from, steps, c, backup) && older <= trace
    ensures Took(trace, from, steps, c, backup)
  {
    if steps != [] {
      TookLater(older, trace, from, steps[..|steps| - 1], c, backup);
    }
  }

  /** The next effect comes with the newest state. */
  lemma TookNext(older: seq<World>, trace: seq<World>, from: nat, steps: seq<nat>, c: Claim, backup: Policy)
    requires Took(older, from, steps, c, backup) && older <= trace && |older| < |trace| && 0 < from <= |older|
    requires |steps| < EFFECTS && Effect(Saga(|steps|), trace[|trace| - 2], trace[|trace| - 1], c, backup)
    ensures Took(trace, from, steps + [|trace| - 1], c, backup)
  {
    LastStepIsInside(older, from, steps, c, backup);
    TookLater(older, trace, from, steps, c, backup);
    TookOneMore(trace, from, steps, |trace| - 1, c, backup);
  }

  lemma LastStepIsInside(trace: seq<World>, from: nat, steps: seq<nat>, c: Claim, backup: Policy)
    requires Took(trace, from, steps, c, backup)
    ensures steps != [] ==> steps[|steps| - 1] < |trace|
  {
  }

  lemma TookOneMore(trace: seq<World>, from: nat, steps: seq<nat>, n: nat, c: Claim, backup: Policy)
    requires Took(trace, from, steps, c, backup) && |steps| < EFFECTS && from <= n && 0 < n < |trace|
    requires steps != [] ==> steps[|steps| - 1] < n
    requires Effect(Saga(|steps|), trace[n - 1], trace[n], c, backup)
    ensures Took(trace, from, steps + [n], c, backup)
  {
    var more := steps + [n];
    assert more[..|steps|] == steps && more[|steps|] == n;
    assert steps != [] ==> more[|steps| - 1] == steps[|steps| - 1];
  }

  /** Others kept the volume from being written: it is gone, or each attempt was overtaken. */
  predicate VolumeTrouble(w: World, w': World) {
    w'.volume.None? || w'.version >= w.version + RETRY_STEPS
  }

  /** What others can do to keep a call from its next effect. */
  predicate Hindered(next: Action, w: World, w': World) {
    match next
    case DeleteOld => w'.claim.Gone?
    case Finalised => w'.claim.Bound?
    case Recreate => w'.claim.Bound?
    case _ => VolumeTrouble(w, w')
  }

  predicate AllSafe(trace: seq<World>) {
    trace == [] || (AllSafe(trace[..|trace| - 1]) && Safe(trace[|trace| - 1]))
  }

  lemma {:induction false} EveryStateIsSafe(trace: seq<World>)
    requires AllSafe(trace)
    ensures forall i :: 0 <= i < |trace| ==> Safe(trace[i])
  {
    if trace != [] {
      EveryStateIsSafe(trace[..|trace| - 1]);
      assert forall i :: 0 <= i < |trace| - 1 ==> trace[i] == trace[..|trace| - 1][i];
    }
  }

  /** The world as the last effect left it. */
  ghost function LastStep(start: World, trace: seq<World>, steps: seq<nat>): World {
    if steps != [] && steps[|steps| - 1] < |trace| then trace[steps[|steps| - 1]] else start
  }

  class Cluster {
    var world: World
    ghost var trace: seq<World>
    /** Requests that failed without need, or whose answer got lost. */
    ghost var faults: nat

    ghost predicate Valid() reads this {
      trace != [] && trace[|trace| - 1] == world && Safe(world) && AllSafe(trace)
    }

    constructor (w: World)
      requires Safe(w)
      ensures Valid() && world == w && trace == [w]
    {
      world := w;
      trace := [w];
      faults := 0;
    }

    method Become(w: World)
      requires Valid() && Safe(w)
      modifies this`world, this`trace
      ensures Valid() && world == w && trace == old(trace) + [w]
    {
      world := w;
      trace := trace + [w];
      assert trace[..|trace| - 1] == old(trace);
    }

    /** Any number of steps by other parties. */
    method Interfere()
      requires Valid()
      modifies this`world, this`trace
      ensures Valid() && old(trace) <= trace && Rely(old(world), world)
    {
      var steps: nat := *;
      while steps > 0
        invariant Valid() && old(trace) <= trace && Rely(old(world), world)
      {
        var w: World := *;
        if Interference(world, w) {
          InterferenceKeepsSafe(world, w);
          Become(w);
        }
        steps := steps - 1;
      }
    }

    /** Whether something goes wrong with a request on its way. */
    method Trouble() returns (fault: bool)
      modifies this`faults
      ensures faults == if fault then old(faults) + 1 else old(faults)
    {
      fault := *;
      if fault {
        faults := faults + 1;
      }
    }

    method GetVolume() returns (r: Outcome, v: Volume, version: nat)
      requires Valid()
      modifies this
      ensures Valid() && old(trace) <= trace && Rely(old(world), world) && faults >= old(faults)
      ensures r.Ok? ==> world.volume == Some(v) && world.version == version
      ensures !r.Ok? ==> faults > old(faults) || world.volume.None?
    {
      Interfere();
      var fault := Trouble();
      v, version := Volume(Retain, None, ""), 0;
      if fault {
        r := Failed;
      } else if world.volume.None? {
        r := NotFound;
      } else {
        r, v, version := Ok, world.volume.value, world.version;
      }
    }

    /**
     A versioned write of a volume computed from the copy `v` fetched at `version`.  A
     policy other than Retain may be written only with no delete of ours outstanding.
     */
    method UpdateVolume(u: VolumeUpdate, v: Volume, version: nat) returns (r: Outcome)
      requires Valid()
      requires version <= world.version
      requires world.version == version && world.volume.Some? ==> world.volume.value == v
      requires u.SetPolicy? && !u.policy.Retain? ==> !OurAbsence(world)
      modifies this
      ensures Valid() && old(trace) <= trace && Guarantee(u, old(world), world) && faults >= old(faults)
      ensures r.Ok? ==> |trace| > |old(trace)| && Written(u, trace[|trace| - 2], world)
      ensures r.Conflict? ==> Rely(old(world), world) && world.version > version
      ensures !r.Ok? && !r.Conflict? ==> faults > old(faults) || world.volume.None?
    {
      Interfere();
      var fault := Trouble();
      if fault || world.volume.None? {
        return Failed;
      }
      if world.version != version {
        return Conflict;
      }
      Become(AfterVolumeUpdate(world, Apply(u, v)));
      var lost := Trouble();
      r := if lost then Failed else Ok;
    }

    /**
     tryUpdatePV: fetch, change and write, again on conflict.  It fails only for a fault, a volume
     that is gone, or five writes by others that overtook it.
     */
    method TryUpdateVolume(u: VolumeUpdate) returns (ok: bool)
      requires Valid()
      requires u.SetPolicy? && !u.policy.Retain? ==> !OurAbsence(world)
      modifies this
      ensures Valid() && old(trace) <= trace && Guarantee(u, old(world), world) && faults >= old(faults)
      ensures ok ==> |trace| > |old(trace)| && Written(u, trace[|trace| - 2], world)
      ensures !ok ==> faults > old(faults) || VolumeTrouble(old(world), world)
    {
      for attempt := 0 to RETRY_STEPS
        invariant Valid() && old(trace) <= trace && Rely(old(world), world) && faults >= old(faults)
        invariant world.version >= old(world).version + attempt
      {
        var r, v, version := GetVolume();
        if !r.Ok? {
          return false;
        }
        r := UpdateVolume(u, v, version);
        if r.Ok? {
          return true;
        }
        if !r.Conflict? {
          return false;
        }
      }
      ok := false;
    }

    method DeleteClaim() returns (r: Outcome)
      requires Valid() && Protected(world)
      modifies this
      ensures Valid() && old(trace) <= trace && Protected(world) && faults >= old(faults)
      ensures r.Ok? ==> |trace| > |old(trace)| && ClaimDeleted(trace[|trace| - 2], world)
      ensures !r.Ok? ==> faults > old(faults) || world.claim.Gone?
    {
      Interfere();
      var fault := Trouble();
      if fault {
        return Failed;
      }
      if world.claim.Gone? {
        return NotFound;
      }
      Become(AfterClaimDelete(world));
      var lost := Trouble();
      r := if lost then Failed else Ok;
    }

    /** waitPVCDeleted: poll until the claim is no longer found. */
    method WaitClaimDeleted() returns (ok: bool)
      requires Valid()
      modifies this
      ensures Valid() && old(trace) <= trace && Rely(old(world), world) && faults >= old(faults)
      ensures ok ==> world.claim.Gone?
      ensures !ok ==> faults > old(faults) || world.claim.Bound?
    {
      for attempt := 0 to WAIT_STEPS
        invariant Valid() && old(trace) <= trace && Rely(old(world), world) && faults >= old(faults)
        invariant attempt > 0 ==> world.claim.Bound?
      {
        Interfere();
        var fault := Trouble();
        if fault {
          return false;
        }
        if world.claim.Gone? {
          return true;
        }
      }
      ok := false;
    }

    method CreateClaim(c: Claim) returns (ok: bool)
      requires Valid()
      modifies this
      ensures Valid() && old(trace) <= trace && faults >= old(faults)
      ensures ok ==> !OurAbsence(world) && |trace| > |old(trace)| && Created(c, trace[|trace| - 2], world)
      ensures !ok ==> faults > old(faults) || world.claim.Bound?
      ensures Rely(old(world), world.(claim := old(world).claim))
    {
      Interfere();
      var fault := Trouble();
      if fault || world.claim.Bound? {
        return false;
      }
      Become(AfterClaimCreate(world, c));
      var lost := Trouble();
      ok := !lost;
    }

    /** The call has got as far as `steps`, the last of which is the state now. */
    ghost predicate At(from: nat, steps: seq<nat>, claim: Claim, backup: Policy)
      reads this
    {
      && Valid() && 0 < from <= |trace| && Took(trace, from, steps, claim, backup)
      && (steps != [] ==> steps[|steps| - 1] == |trace| - 1)
    }

    /** The next effect has taken place, or the call stopped before it, for a fault or hindered by others. */
    twostate predicate Went(ok: bool, from: nat, taken: seq<nat>, steps: seq<nat>, claim: Claim, backup: Policy)
      requires |taken| < EFFECTS
      reads this
    {
      && Valid() && old(trace) <= trace && faults >= old(faults)
      && (ok ==> |steps| == |taken| + 1 && At(from, steps, claim, backup))
      && (!ok ==>
            && steps == taken && Took(trace, from, taken, claim, backup)
            && (faults > old(faults) || Hindered(Saga(|taken|), old(world), world)))
    }

    method NextVolumeUpdate(u: VolumeUpdate, claim: Claim, backup: Policy, ghost from: nat, ghost taken: seq<nat>,
                            ghost a: Action)
      returns (ok: bool, ghost steps: seq<nat>)
      requires At(from, taken, claim, backup) && |taken| < EFFECTS && Saga(|taken|) == a && Updates(a, u, backup)
      requires u.SetPolicy? && !u.policy.Retain? ==> !OurAbsence(world)
      modifies this
      ensures Went(ok, from, taken, steps, claim, backup)
      ensures Guarantee(u, old(world), world)
      ensures ok ==> world.volume.Some? && (u.SetPolicy? ==> world.volume.value.policy == u.policy)
    {
      ghost var before := trace;
      ok := TryUpdateVolume(u);
      steps := taken;
      if ok {
        WrittenIsEffect(u, a, trace[|trace| - 2], world, claim, backup);
        TookNext(before, trace, from, taken, claim, backup);
        steps := taken + [|trace| - 1];
      } else {
        TookLater(before, trace, from, taken, claim, backup);
      }
    }

    method NextDelete(claim: Claim, backup: Policy, ghost from: nat, ghost taken: seq<nat>)
      returns (ok: bool, ghost steps: seq<nat>)
      requires At(from, taken, claim, backup) && |taken| == 1 && Protected(world)
      modifies this
      ensures Went(ok, from, taken, steps, claim, backup) && (ok ==> world.claim.Bound?)
    {
      ghost var before := trace;
      var r := DeleteClaim();
      ok, steps := r.Ok?, taken;
      if ok {
        TookNext(before, trace, from, taken, claim, backup);
        steps := taken + [|trace| - 1];
      } else {
        TookLater(before, trace, from, taken, claim, backup);
      }
    }

    method NextWait(claim: Claim, backup: Policy, ghost from: nat, ghost taken: seq<nat>)
      returns (ok: bool, ghost steps: seq<nat>)
      requires At(from, taken, claim, backup) && |taken| == 2 && world.claim.Bound?
      modifies this
      ensures Went(ok, from, taken, steps, claim, backup)
    {
      ghost var before := trace;
      ok := WaitClaimDeleted();
      steps := taken;
      if ok {
        TookNext(before, trace, from, taken, claim, backup);
        steps := taken + [|trace| - 1];
      } else {
        TookLater(before, trace, from, taken, claim, backup);
      }
    }

    method NextCreate(claim: Claim, backup: Policy, ghost from: nat, ghost taken: seq<nat>)
      returns (ok: bool, ghost steps: seq<nat>)
      requires At(from, taken, claim, backup) && |taken| == 4
      modifies this
      ensures Went(ok, from, taken, steps, claim, backup) && (ok ==> !OurAbsence(world))
    {
      ghost var before := trace;
      RestoredMeaning(claim);
      ok := CreateClaim(RestoredClaim(claim));
      steps := taken;
      if ok {
        TookNext(before, trace, from, taken, claim, backup);
        steps := taken + [|trace| - 1];
      } else {
        TookLater(before, trace, from, taken, claim, backup);
      }
    }

    /**
     cancelExpand, given what the caches answered for the claim, the machines that use it
     and the volume.  However the requests fail and whatever others do, every state in
     between is safe.  The effects of the call, at the places `steps` of the trace, are a part of the
     saga, all of it if and only if the call succeeds.  It stops before an effect only for a fault or
     because others stand in its way.
     */
    method CancelExpand(observedClaim: Option<Claim>, attachedTo: Option<seq<string>>, observedVolume: Option<Volume>)
      returns (ok: bool, ghost steps: seq<nat>)
      requires Valid()
      modifies this
      ensures Valid() && old(trace) <= trace
      ensures observedClaim.None? || attachedTo != Some([]) || observedVolume.None? ==>
                !ok && steps == [] && trace == old(trace)
      ensures observedClaim.Some? && attachedTo == Some([]) && observedVolume.Some? ==>
                && Took(trace, |old(trace)|, steps, observedClaim.value, observedVolume.value.policy)
                && (ok <==> |steps| == EFFECTS)
                && (!ok ==>
                      || faults > old(faults)
                      || Hindered(Saga(|steps|), LastStep(old(world), trace, steps), world))
      ensures ok ==>
                && !OurAbsence(world)
                && (world.volume.Some? ==> world.volume.value.policy == observedVolume.value.policy)
      ensures forall i :: 0 <= i < |trace| ==> Safe(trace[i])
    {
      ok, steps := Cancel(observedClaim, attachedTo, observedVolume);
      EveryStateIsSafe(trace);
    }

    method Cancel(observedClaim: Option<Claim>, attachedTo: Option<seq<string>>, observedVolume: Option<Volume>)
      returns (ok: bool, ghost steps: seq<nat>)
      requires Valid()
      modifies this
      ensures Valid() && old(trace) <= trace
      ensures observedClaim.None? || attachedTo != Some([]) || observedVolume.None? ==>
                !ok && steps == [] && trace == old(trace)
      ensures observedClaim.Some? && attachedTo == Some([]) && observedVolume.Some? ==>
                && Took(trace, |old(trace)|, steps, observedClaim.value, observedVolume.value.policy)
                && (ok <==> |steps| == EFFECTS)
                && (!ok ==>
                      || faults > old(faults)
                      || Hindered(Saga(|steps|), LastStep(old(world), trace, steps), world))
      ensures ok ==>
                && !OurAbsence(world)
                && (world.volume.Some? ==> world.volume.value.policy == observedVolume.value.policy)
    {
      if observedClaim.None? || attachedTo.None? || attachedTo.value != [] || observedVolume.None? {
        return false, [];
      }
      var claim, policyBackup := observedClaim.value, observedVolume.value.policy;
      ok, steps := RemoveClaim(claim, policyBackup);
      if ok {
        ok, steps := PutBack(claim, policyBackup, |old(trace)|, steps);
      }
    }

    /** The first half of cancelExpand: protect the volume and get rid of the claim. */
    method RemoveClaim(claim: Claim, policyBackup: Policy) returns (ok: bool, ghost steps: seq<nat>)
      requires Valid()
      modifies this
      ensures Valid() && old(trace) <= trace && faults >= old(faults)
      ensures |steps| <= 3 && (ok <==> |steps| == 3) && Took(trace, |old(trace)|, steps, claim, policyBackup)
      ensures ok ==> At(|old(trace)|, steps, claim, policyBackup)
      ensures !ok ==> faults > old(faults) || Hindered(Saga(|steps|), LastStep(old(world), trace, steps), world)
    {
      ghost var from := |trace|;
      ok, steps := NextVolumeUpdate(SetPolicy(Retain), claim, policyBackup, from, [], Protect);
      if ok {
        ok, steps := NextDelete(claim, policyBackup, from, steps);
        if ok {
          ok, steps := NextWait(claim, policyBackup, from, steps);
        }
      }
    }

    /** The second half: release the volume, create the claim again and give the policy back. */
    method PutBack(claim: Claim, policyBackup: Policy, ghost from: nat, ghost taken: seq<nat>)
      returns (ok: bool, ghost steps: seq<nat>)
      requires At(from, taken, claim, policyBackup) && |taken| == 3
      modifies this
      ensures Valid() && old(trace) <= trace && faults >= old(faults)
      ensures 3 <= |steps| <= EFFECTS && (ok <==> |steps| == EFFECTS) && Took(trace, from, steps, claim, policyBackup)
      ensures !ok ==> faults > old(faults) || Hindered(Saga(|steps|), LastStep(world, trace, steps), world)
      ensures ok ==> !OurAbsence(world) && (world.volume.Some? ==> world.volume.value.policy == policyBackup)
    {
      ok, steps := NextVolumeUpdate(ClearClaimRef, claim, policyBackup, from, taken, Unbind);
      if ok {
        ok, steps := NextCreate(claim, policyBackup, from, steps);
        if ok {
          ok, steps := NextVolumeUpdate(SetPolicy(policyBackup), claim, policyBackup, from, steps, Restore);
        }
      }
    }

    /**
     Any sequence of calls, each made after the one before returned, whether that failed or not: all
     states stay safe, also those in which the delete of a failed call is still outstanding.
     */
    method CancelRepeatedly(seen: seq<Observation>) returns (outcomes: seq<bool>)
      requires Valid()
      modifies this
      ensures Valid() && old(trace) <= trace && |outcomes| == |seen|
      ensures outcomes != [] && outcomes[|seen| - 1] ==>
                && !OurAbsence(world) && seen[|seen| - 1].volume.Some?
                && (world.volume.Some? ==> world.volume.value.policy == seen[|seen| - 1].volume.value.policy)
    {
      outcomes := [];
      for i := 0 to |seen|
        invariant Valid() && old(trace) <= trace && |outcomes| == i
        invariant i > 0 && outcomes[i - 1] ==>
                    && !OurAbsence(world) && seen[i - 1].volume.Some?
                    && (world.volume.Some? ==> world.volume.value.policy == seen[i - 1].volume.value.policy)
      {
        var ok, _ := CancelExpand(seen[i].claim, seen[i].attachedTo, seen[i].volume);
        outcomes := outcomes + [ok];
      }
    }
  }

  /** What a write of the volume may change, whether or not its answer arrives. */
  predicate Guarantee(u: VolumeUpdate, w: World, w': World) {
    && (OurAbsence(w') ==> OurAbsence(w))
    && (w'.volume.Some? ==>
          && w.volume.Some?
          && (w'.volume.value.policy == w.volume.value.policy || (u.SetPolicy? && w'.volume.value.policy == u.policy)))
  }

  /** The volume has been written with just this change. */
  predicate Written(u: VolumeUpdate, w: World, w': World) {
    && VolumeWritten(w, w')
    && w'.volume.value == match u
                          case SetPolicy(p) => w.volume.value.(policy := p)
                          case ClearClaimRef => w.volume.value.(claimRef := None)
  }

  /** The claim has been created where there was none. */
  predicate Created(c: Claim, w: World, w': World) {
    && w.claim.Gone? && w' == w.(claim := w'.claim, nextUid := w'.nextUid)
    && w'.claim == Bound(c.(uid := w.nextUid, capacity := map[]), None)
  }

  /** The effects that are writes of the volume, and what they write. */
  predicate Updates(a: Action, u: VolumeUpdate, backup: Policy) {
    match a
    case Protect => u == SetPolicy(Retain)
    case Unbind => u == ClearClaimRef
    case Restore => u == SetPolicy(backup)
    case _ => false
  }

  lemma WrittenIsEffect(u: VolumeUpdate, a: Action, w: World, w': World, c: Claim, backup: Policy)
    requires Written(u, w, w') && Updates(a, u, backup)
    ensures Effect(a, w, w', c, backup)
  {
  }

  lemma RestoredMeaning(c: Claim)
    ensures SameButSize(RestoredClaim(c), c)
  {
  }

  // Overlapping calls: each is a further writer of the policy to the others.

  /** A step of call number `call`, or of other parties. */
  datatype Turn = Turn(call: nat, action: Action) | Meanwhile(world: World)

  /** A step that takes effect: a claim is deleted where there is one and created where there is none. */
  predicate Possible(w: World, t: Turn) {
    match t
    case Meanwhile(w') => Interference(w, w')
    case Turn(_, a) =>
      match a {
        case DeleteOld => w.claim.Bound?
        case Finalised => w.claim.Gone? || w.claim.doomedBy.Some?
        case Recreate => w.claim.Gone?
        case _ => w.volume.Some?
      }
  }

  function WithVolume(w: World, u: VolumeUpdate): World {
    if w.volume.Some? then AfterVolumeUpdate(w, Apply(u, w.volume.value)) else w
  }

  function Perform(w: World, a: Action, c: Claim, backup: Policy): World {
    match a
    case Protect => WithVolume(w, SetPolicy(Retain))
    case DeleteOld => AfterClaimDelete(w)
    case Finalised => if w.claim.Bound? && w.claim.doomedBy.Some? then w.(claim := Gone(w.claim.doomedBy.value)) else w
    case Unbind => WithVolume(w, ClearClaimRef)
    case Recreate => AfterClaimCreate(w, RestoredClaim(c))
    case Restore => WithVolume(w, SetPolicy(backup))
  }

  /** The world after a turn; `backups` holds the policy each call observed when it began. */
  function AfterTurn(w: World, t: Turn, c: Claim, backups: seq<Policy>): World {
    match t
    case Meanwhile(w') => w'
    case Turn(call, a) => if call < |backups| then Perform(w, a, c, backups[call]) else w
  }

  function PerformAll(w: World, turns: seq<Turn>, c: Claim, backups: seq<Policy>): World {
    if turns == [] then w
    else AfterTurn(PerformAll(w, turns[..|turns| - 1], c, backups), turns[|turns| - 1], c, backups)
  }

  /** How many steps a call has taken. */
  function Done(call: nat, turns: seq<Turn>): nat {
    if turns == [] then 0
    else
      var t := turns[|turns| - 1];
      Done(call, turns[..|turns| - 1]) + if t.Turn? && t.call == call then 1 else 0
  }

  /** Every call keeps to its order and may stop anywhere, and every step takes effect. */
  predicate Interleaving(w: World, turns: seq<Turn>, c: Claim, backups: seq<Policy>) {
    turns == [] ||
    var before, t := turns[..|turns| - 1], turns[|turns| - 1];
    && Interleaving(w, before, c, backups)
    && Possible(PerformAll(w, before, c, backups), t)
    && (t.Turn? ==>
          t.call < |backups| && Done(t.call, before) < EFFECTS && t.action == Saga(Done(t.call, before)))
  }

  /** All interleavings of the calls keep the volume safe. */
  ghost predicate OverlapIsSafe(w: World, c: Claim, backups: seq<Policy>) {
    forall turns | Interleaving(w, turns, c, backups) :: Safe(PerformAll(w, turns, c, backups))
  }

  /** A step that is possible has the effect that a call's step has. */
  lemma PerformHasEffect(w: World, call: nat, a: Action, c: Claim, backup: Policy)
    requires Possible(w, Turn(call, a))
    ensures Effect(a, w, Perform(w, a, c, backup), c, backup)
  {
    RestoredMeaning(c);
  }

  /** A retained volume stays retained whatever calls and other parties do. */
  lemma {:induction false} RetainedStaysSafe(w: World, turns: seq<Turn>, c: Claim, backups: seq<Policy>)
    requires Protected(w) && Safe(w) && (forall b | b in backups :: b.Retain?)
    requires Interleaving(w, turns, c, backups)
    ensures var w' := PerformAll(w, turns, c, backups); Safe(w') && Protected(w')
  {
    if turns != [] {
      var n := |turns| - 1;
      RetainedStaysSafe(w, turns[..n], c, backups);
      RetainedTurn(PerformAll(w, turns[..n], c, backups), turns[n], c, backups);
    }
  }

  lemma RetainedTurn(w: World, t: Turn, c: Claim, backups: seq<Policy>)
    requires Protected(w) && Safe(w) && Possible(w, t)
    requires forall b | b in backups :: b.Retain?
    ensures Safe(AfterTurn(w, t, c, backups)) && Protected(AfterTurn(w, t, c, backups))
  {
    if t.Meanwhile? {
      InterferenceKeepsSafe(w, t.world);
    } else if t.call < |backups| {
      assert backups[t.call] in backups;
    }
  }

  /** Where the claim is, as far as deletes by the calls are concerned. */
  datatype ClaimStage = Alive | Doomed | Away

  predicate InStage(w: World, stage: ClaimStage) {
    w.volume.Some? &&
    match stage
    case Alive => w.claim.Bound? && w.claim.doomedBy.None?
    case Doomed => w.claim.Bound? && w.claim.doomedBy == Some(Us)
    case Away => w.claim == Gone(Us)
  }

  predicate Suits(stage: ClaimStage, a: Action) {
    match a
    case DeleteOld => !stage.Away?
    case Finalised => !stage.Alive?
    case Recreate => stage.Away?
    case _ => true
  }

  function NextStage(stage: ClaimStage, a: Action): ClaimStage {
    match a
    case DeleteOld => if stage.Alive? then Doomed else stage
    case Finalised => if stage.Doomed? then Away else stage
    case Recreate => Alive
    case _ => stage
  }

  lemma TurnChangesStage(w: World, stage: ClaimStage, t: Turn, c: Claim, backups: seq<Policy>)
    requires InStage(w, stage) && t.Turn? && t.call < |backups| && Suits(stage, t.action)
    ensures Possible(w, t) && InStage(AfterTurn(w, t, c, backups), NextStage(stage, t.action))
    ensures t.action.Restore? ==> AfterTurn(w, t, c, backups).volume.value.policy == backups[t.call]
  {
  }

  /** Two calls have taken so many of their steps and the claim is in this stage. */
  predicate Reached(w: World, turns: seq<Turn>, c: Claim, backups: seq<Policy>,
                    first: nat, second: nat, stage: ClaimStage) {
    && Interleaving(w, turns, c, backups) && Done(0, turns) == first && Done(1, turns) == second
    && InStage(PerformAll(w, turns, c, backups), stage)
  }

  /** The first (0) or the second (1) call takes its next step. */
  lemma NextTurn(w: World, turns: seq<Turn>, c: Claim, backups: seq<Policy>,
                 first: nat, second: nat, stage: ClaimStage, call: nat)
    returns (more: seq<Turn>)
    requires Reached(w, turns, c, backups, first, second, stage) && call < 2 <= |backups|
    requires var done := if call == 0 then first else second; done < EFFECTS && Suits(stage, Saga(done))
    ensures var a := Saga(if call == 0 then first else second);
            && Reached(w, more, c, backups, first + 1 - call, second + call, NextStage(stage, a))
            && (a.Restore? ==> PerformAll(w, more, c, backups).volume.value.policy == backups[call])
  {
    var t := Turn(call, Saga(if call == 0 then first else second));
    TurnChangesStage(PerformAll(w, turns, c, backups), stage, t, c, backups);
    more := turns + [t];
    assert more[..|turns|] == turns;
  }

  /**
   The first call gets as far as creating the claim again; the second, which had protected the
   volume before, deletes the new claim; then the first gives the volume its policy back.
   */
  lemma LosingTurns(w: World, c: Claim, backups: seq<Policy>) returns (turns: seq<Turn>)
    requires w.volume.Some? && w.claim == Bound(c, None) && |backups| >= 2
    ensures Interleaving(w, turns, c, backups)
    ensures var w' := PerformAll(w, turns, c, backups);
            w'.claim == Gone(Us) && w'.volume.Some? && w'.volume.value.policy == backups[0]
  {
    turns := [];
    turns := NextTurn(w, turns, c, backups, 0, 0, Alive, 0);
    turns := NextTurn(w, turns, c, backups, 1, 0, Alive, 1);
    turns := NextTurn(w, turns, c, backups, 1, 1, Alive, 0);
    turns := NextTurn(w, turns, c, backups, 2, 1, Doomed, 0);
    turns := NextTurn(w, turns, c, backups, 3, 1, Away, 0);
    turns := NextTurn(w, turns, c, backups, 4, 1, Away, 0);
    turns := NextTurn(w, turns, c, backups, 5, 1, Alive, 1);
    turns := NextTurn(w, turns, c, backups, 5, 2, Doomed, 1);
    turns := NextTurn(w, turns, c, backups, 5, 3, Away, 0);
  }

  /** A state in which the volume may be reclaimed because of a delete by one of the calls. */
  ghost predicate CanBeLost(w: World) {
    exists w' :: Reclaim(w, w') && w'.reclaimedFor == Some(Us)
  }

  /**
   Two or more overlapping calls are safe in every interleaving, with whatever others do in between,
   if and only if the volume was retained to begin with.  Otherwise some interleaving loses it.
   */
  lemma OverlapIsSafeExactly(w: World, c: Claim, backups: seq<Policy>)
    requires Safe(w) && w.volume.Some? && w.claim == Bound(c, None)
    requires |backups| >= 2 && backups[0] == w.volume.value.policy
    requires forall b | b in backups :: b == w.volume.value.policy || b == Retain
    ensures OverlapIsSafe(w, c, backups) <==> w.volume.value.policy.Retain?
    ensures !w.volume.value.policy.Retain? ==>
              exists turns :: Interleaving(w, turns, c, backups) && CanBeLost(PerformAll(w, turns, c, backups))
  {
    if w.volume.value.policy.Retain? {
      forall turns | Interleaving(w, turns, c, backups)
        ensures Safe(PerformAll(w, turns, c, backups))
      {
        RetainedStaysSafe(w, turns, c, backups);
      }
    } else {
      var turns := LosingTurns(w, c, backups);
      var w' := PerformAll(w, turns, c, backups);
      assert Reclaim(w', w'.(volume := None, reclaimedFor := Some(Us)));
      assert CanBeLost(w') && !Safe(w');
    }
  }
}
