/**
 Ejecting a CD-ROM: the device's volume is taken out of the virtual machine by a versioned
 write, retried on conflict, and only then are the claims that backed it deleted.  Other
 parties rewrite the machine and create or delete claims at any time.
 */
module EjectCdRom {
  import opened Filtering

  datatype Option<T> = None | Some(value: T)

  datatype Volume = Volume(name: string, claim: Option<string>, rest: string)

  datatype Entry = Entry(name: string, rest: string)

  /** The volumeClaimTemplates annotation. */
  datatype Templates = Missing | Malformed | Entries(entries: seq<Entry>)

  datatype Vm = Vm(sataCdRoms: set<string>, volumes: seq<Volume>, templates: Templates, rest: string)

  function NotOn(device: string): Volume -> bool {
    (v: Volume) => v.name != device
  }

  function Unrelated(claims: seq<string>): Entry -> bool {
    (e: Entry) => e.name !in claims
  }

  /** The claims behind the device's volumes. */
  function RemovedClaims(vs: seq<Volume>, device: string): seq<string> {
    if vs == [] then []
    else
      var v := vs[|vs| - 1];
      RemovedClaims(vs[..|vs| - 1], device) + if v.name == device && v.claim.Some? then [v.claim.value] else []
  }

  function KeptTemplates(t: Templates, claims: seq<string>): Templates {
    if t.Entries? then Entries(Filter(Unrelated(claims), t.entries)) else t
  }

  /** The machine without the device's volumes and without their template entries. */
  function Ejected(vm: Vm, device: string): Vm {
    vm.(volumes := Filter(NotOn(device), vm.volumes),
        templates := KeptTemplates(vm.templates, RemovedClaims(vm.volumes, device)))
  }

  lemma {:induction false} RemovedClaimsMeaning(vs: seq<Volume>, device: string)
    ensures forall c :: c in RemovedClaims(vs, device) <==>
                        exists v :: v in vs && v.name == device && v.claim == Some(c)
  {
    if vs != [] {
      var n := |vs| - 1;
      RemovedClaimsMeaning(vs[..n], device);
      assert vs == vs[..n] + [vs[n]];
    }
  }

  /**
   An eject takes out exactly the device's volumes and exactly the template entries of their claims;
   all other volumes and entries stay, each as often and in the order they were in.
   */
  lemma EjectedMeaning(vm: Vm, device: string) returns (volumes: seq<nat>, entries: seq<nat>)
    ensures KeepsExactly(NotOn(device), vm.volumes, Ejected(vm, device).volumes, volumes)
    ensures vm.templates.Entries? ==>
              && Ejected(vm, device).templates.Entries?
              && KeepsExactly(Unrelated(RemovedClaims(vm.volumes, device)), vm.templates.entries,
                              Ejected(vm, device).templates.entries, entries)
    ensures !vm.templates.Entries? ==> Ejected(vm, device).templates == vm.templates
    ensures Ejected(vm, device) ==
            vm.(volumes := Ejected(vm, device).volumes, templates := Ejected(vm, device).templates)
  {
    volumes := FilterMeaning(NotOn(device), vm.volumes);
    entries := [];
    if vm.templates.Entries? {
      entries := FilterMeaning(Unrelated(RemovedClaims(vm.volumes, device)), vm.templates.entries);
    }
  }

  datatype Outcome = Ok | Conflict | NotFound | Failed

  const RETRY_STEPS: nat := 5
  const BACKOFF_STEPS: nat := 4

  /** A committed write takes out exactly the device's volumes and their entries. */
  ghost predicate OurWrite(w: (Vm, Vm), device: string) {
    w.1 == Ejected(w.0, device) && device in w.0.sataCdRoms && !w.0.templates.Malformed?
  }

  ghost predicate OneWrite(before: seq<(Vm, Vm)>, after: seq<(Vm, Vm)>, device: string) {
    |after| == |before| + 1 && before <= after && OurWrite(after[|before|], device)
  }

  /** There is nothing the eject could do for this machine. */
  predicate Unfit(vm: Option<Vm>, device: string) {
    vm.None? || device !in vm.value.sataCdRoms || vm.value.templates.Malformed?
  }

  class Cluster {
    var vm: Option<Vm>
    var version: nat
    var claims: set<string>
    /** The committed writes of the eject, with the machine before and after. */
    ghost var written: seq<(Vm, Vm)>
    /** The claims the eject asked to delete, and those it deleted or found gone. */
    ghost var asked: set<string>
    ghost var gone: set<string>
    /** How often the machine was fetched, a request got no proper answer, and a delete met a conflict. */
    ghost var fetches: nat
    ghost var faults: nat
    ghost var rejections: nat

    /** Any number of steps by other parties: a changed machine has a new version. */
    method Interfere()
      modifies this`vm, this`version, this`claims
      ensures version >= old(version)
      ensures version == old(version) && vm.Some? ==> vm == old(vm)
    {
      var newVm: Option<Vm> := *;
      var newClaims: set<string> := *;
      var change: bool := *;
      if change {
        vm, version := newVm, version + 1;
      }
      claims := newClaims;
    }

    method GetVm() returns (r: Option<Vm>, at: nat)
      modifies this`vm, this`version, this`claims, this`fetches, this`faults
      ensures version >= old(version) && fetches == old(fetches) + 1 && faults >= old(faults)
      ensures r.Some? ==> vm == r && version == at && faults == old(faults)
      ensures r.None? ==> faults > old(faults) || vm.None?
    {
      Interfere();
      fetches := fetches + 1;
      var fault: bool := *;
      if fault {
        faults := faults + 1;
      }
      r, at := if fault then None else vm, version;
    }

    /** A failure may come after the write took effect. */
    method UpdateVm(before: Vm, after: Vm, at: nat) returns (r: Outcome)
      requires version >= at && (version == at && vm.Some? ==> vm == Some(before))
      modifies this`vm, this`version, this`claims, this`written, this`faults
      ensures version >= old(version) && faults >= old(faults) && !r.NotFound?
      ensures written == old(written) || (written == old(written) + [(before, after)] && vm == Some(after))
      ensures r.Ok? ==> written == old(written) + [(before, after)] && version == at + 1 && faults == old(faults)
      ensures r.Conflict? ==> written == old(written) && version > at && faults == old(faults)
      ensures r.Failed? ==> faults > old(faults) || (vm.None? && written == old(written))
    {
      Interfere();
      var fault: bool := *;
      var lost: bool := *;
      if fault || vm.None? {
        if fault {
          faults := faults + 1;
        }
        return Failed;
      }
      if version != at {
        return Conflict;
      }
      assert vm == Some(before);
      vm, version := Some(after), version + 1;
      written := written + [(before, after)];
      if lost {
        faults := faults + 1;
        return Failed;
      }
      r := Ok;
    }

    /** The server's answer may also be a conflict from the admission webhook. */
    method DeleteClaim(claim: string) returns (r: Outcome)
      modifies this`vm, this`version, this`claims, this`asked, this`gone, this`faults, this`rejections
      ensures asked == old(asked) + {claim}
      ensures r.Ok? || r.NotFound? ==>
                && gone == old(gone) + {claim} && claim !in claims
                && faults == old(faults) && rejections == old(rejections)
      ensures r.Failed? ==> gone == old(gone) && faults > old(faults) && rejections == old(rejections)
      ensures r.Conflict? ==> gone == old(gone) && faults == old(faults) && rejections == old(rejections) + 1
    {
      Interfere();
      asked := asked + {claim};
      var fault: Outcome := *;
      if fault.Failed? {
        faults := faults + 1;
        return fault;
      }
      if fault.Conflict? {
        rejections := rejections + 1;
        return fault;
      }
      r := if claim in claims then Ok else NotFound;
      claims := claims - {claim};
      gone := gone + {claim};
    }

    /** removeCdRomVolumeFromVM: one attempt on the live machine. */
    method RemoveVolume(device: string) returns (r: Outcome, toRemove: seq<string>)
      modifies this`vm, this`version, this`claims, this`written, this`fetches, this`faults
      ensures version >= old(version) && fetches == old(fetches) + 1 && faults >= old(faults) && !r.NotFound?
      ensures written == old(written) || OneWrite(old(written), written, device)
      ensures r.Ok? ==>
                && OneWrite(old(written), written, device) && vm == Some(written[|old(written)|].1)
                && toRemove == RemovedClaims(written[|old(written)|].0.volumes, device) && faults == old(faults)
      ensures r.Conflict? ==> written == old(written) && version > old(version) && faults == old(faults)
      ensures r.Failed? ==> faults > old(faults) || (written == old(written) && Unfit(vm, device))
    {
      toRemove := [];
      var found, at := GetVm();
      if found.None? || device !in found.value.sataCdRoms {
        return Failed, [];
      }
      var live := found.value;
      var volumes;
      volumes, toRemove := SplitVolumes(live.volumes, device);
      if live.templates.Malformed? {
        return Failed, [];
      }
      var templates := RemoveEntries(live.templates, toRemove);
      r := UpdateVm(live, live.(volumes := volumes, templates := templates), at);
    }

    /** One pass over the claims; it stops at the first answer that is an error. */
    method DeleteClaims(toRemove: seq<string>) returns (r: Outcome)
      modifies this`vm, this`version, this`claims, this`asked, this`gone, this`faults, this`rejections
      ensures forall c | c in asked && c !in old(asked) :: c in toRemove
      ensures !r.NotFound? && faults >= old(faults)
      ensures r.Ok? ==> (forall c | c in toRemove :: c in gone) && rejections == old(rejections)
      ensures r.Failed? ==> faults > old(faults) && rejections == old(rejections)
      ensures r.Conflict? ==> rejections == old(rejections) + 1
    {
      for i := 0 to |toRemove|
        invariant forall c | c in asked && c !in old(asked) :: c in toRemove
        invariant forall j :: 0 <= j < i ==> toRemove[j] in gone
        invariant faults == old(faults) && rejections == old(rejections)
      {
        r := DeleteClaim(toRemove[i]);
        if !r.Ok? && !r.NotFound? {
          return;
        }
      }
      r := Ok;
    }

    /** The first retry loop: it gives up only for a fault, an unfit machine, or after five conflicts. */
    method RemoveWithRetry(device: string) returns (r: Outcome, toRemove: seq<string>)
      modifies this`vm, this`version, this`claims, this`written, this`fetches, this`faults
      ensures fetches <= old(fetches) + RETRY_STEPS && faults >= old(faults)
      ensures written == old(written) || OneWrite(old(written), written, device)
      ensures r.Ok? ==>
                && OneWrite(old(written), written, device)
                && toRemove == RemovedClaims(written[|old(written)|].0.volumes, device)
      ensures !r.Ok? ==>
                || faults > old(faults)
                || (written == old(written) && (Unfit(vm, device) || version >= old(version) + RETRY_STEPS))
    {
      r, toRemove := Conflict, [];
      var attempt := 0;
      while attempt < RETRY_STEPS && r.Conflict?
        invariant attempt <= RETRY_STEPS && fetches == old(fetches) + attempt && faults >= old(faults) && !r.NotFound?
        invariant r.Conflict? ==> written == old(written) && version >= old(version) + attempt
        invariant written == old(written) || OneWrite(old(written), written, device)
        invariant r.Ok? ==>
                    && OneWrite(old(written), written, device)
                    && toRemove == RemovedClaims(written[|old(written)|].0.volumes, device)
        invariant r.Failed? ==> faults > old(faults) || (written == old(written) && Unfit(vm, device))
      {
        r, toRemove := RemoveVolume(device);
        attempt := attempt + 1;
      }
    }

    /**
     ejectCdRomVolume.  At most one write commits.  Claims are asked to be deleted only if
     it did and only if that very write dropped their volume; on success each of them was
     deleted or already gone.  It fails only for a fault, a machine it can do nothing for, five conflicts on
     the machine, or four on the claims.
     */
    method Eject(device: string) returns (ok: bool)
      modifies this
      ensures fetches <= old(fetches) + RETRY_STEPS && rejections <= old(rejections) + BACKOFF_STEPS
      ensures written == old(written) || OneWrite(old(written), written, device)
      ensures written == old(written) ==> !ok && asked == old(asked)
      ensures written != old(written) ==>
                forall c | c in asked && c !in old(asked) ::
                  c in RemovedClaims(written[|old(written)|].0.volumes, device)
      ensures ok ==> forall c | c in RemovedClaims(written[|old(written)|].0.volumes, device) :: c in gone
      ensures !ok ==>
                || faults > old(faults)
                || (written == old(written) && (Unfit(vm, device) || version >= old(version) + RETRY_STEPS))
                || (written != old(written) && rejections == old(rejections) + BACKOFF_STEPS)
    {
      var r, toRemove := RemoveWithRetry(device);
      if !r.Ok? {
        return false;
      }
      ghost var committed := written;
      r := Conflict;
      var attempt := 0;
      while attempt < BACKOFF_STEPS && r.Conflict?
        invariant attempt <= BACKOFF_STEPS && !r.NotFound? && written == committed && faults >= old(faults)
        invariant fetches <= old(fetches) + RETRY_STEPS && rejections <= old(rejections) + attempt
        invariant forall c | c in asked && c !in old(asked) :: c in toRemove
        invariant r.Ok? ==> forall c | c in toRemove :: c in gone
        invariant r.Failed? ==> faults > old(faults)
        invariant r.Conflict? ==> rejections == old(rejections) + attempt
      {
        r := DeleteClaims(toRemove);
        attempt := attempt + 1;
      }
      ok := r.Ok?;
    }
  }

  /** The loop over the volumes: those to keep, and the claims of the others. */
  method SplitVolumes(vs: seq<Volume>, device: string) returns (kept: seq<Volume>, toRemove: seq<string>)
    ensures kept == Filter(NotOn(device), vs) && toRemove == RemovedClaims(vs, device)
  {
    kept, toRemove := [], [];
    for i := 0 to |vs|
      invariant kept == Filter(NotOn(device), vs[..i]) && toRemove == RemovedClaims(vs[..i], device)
    {
      var v := vs[i];
      FilterMore(NotOn(device), vs, i);
      assert vs[..i + 1][..i] == vs[..i];
      if device != v.name {
        kept := kept + [v];
        continue;
      }
      if v.claim.Some? {
        toRemove := toRemove + [v.claim.value];
      }
    }
    assert vs[..|vs|] == vs;
  }

  /** removeVolumeClaimTemplatesFromVMAnnotation on a readable annotation. */
  method RemoveEntries(t: Templates, claims: seq<string>) returns (r: Templates)
    requires !t.Malformed?
    ensures r == KeptTemplates(t, claims)
  {
    if t.Missing? {
      return t;
    }
    var kept := [];
    for i := 0 to |t.entries|
      invariant kept == Filter(Unrelated(claims), t.entries[..i])
    {
      FilterMore(Unrelated(claims), t.entries, i);
      if t.entries[i].name !in claims {
        kept := kept + [t.entries[i]];
      }
    }
    assert t.entries[..|t.entries|] == t.entries;
    r := Entries(kept);
  }
}
