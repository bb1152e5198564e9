/**
 Storage migration of a virtual machine: an entry of the volumeClaimTemplates annotation
 names a target volume, the controller swaps volumes over to their targets, and a cancel
 puts everything back.  The annotation is taken as the list of entries it encodes.
 */
module StorageMigration {

  datatype Option<T> = None | Some(value: T)

  datatype Volume =
    | ClaimVolume(name: string, claim: string, hotpluggable: bool, readOnly: bool)
    | OtherVolume(name: string, source: string)

  /** An entry of the annotation; `target` is empty when no migration is active. */
  datatype Entry = Entry(name: string, target: string, claimSpec: string)

  datatype Vm = Vm(
    volumes: seq<Volume>,
    entries: seq<Entry>,
    waiting: bool,
    strategy: Option<string>,
    migrating: bool)

  /** Targets by source name; of several entries with a name the last active one counts. */
  function Targets(entries: seq<Entry>): map<string, string> {
    if entries == [] then map[]
    else
      var e := entries[|entries| - 1];
      var before := Targets(entries[..|entries| - 1]);
      if e.target != "" then before[e.name := e.target] else before
  }

  /** Source names by target; of several entries with a target the last one counts. */
  function Sources(entries: seq<Entry>): map<string, string> {
    if entries == [] then map[]
    else
      var e := entries[|entries| - 1];
      var before := Sources(entries[..|entries| - 1]);
      if e.target != "" then before[e.target := e.name] else before
  }

  predicate Active(vm: Vm) {
    exists e | e in vm.entries :: e.target != ""
  }

  /** A volume moved over to the target of its claim, if it has one. */
  function Moved(targets: map<string, string>, v: Volume): Volume {
    if v.ClaimVolume? && v.claim != "" && v.claim in targets
    then ClaimVolume(v.name, targets[v.claim], v.hotpluggable, false)
    else v
  }

  /** A volume put back to the source of its claim, if its claim is a target. */
  function PutBack(sources: map<string, string>, v: Volume): Volume {
    if v.ClaimVolume? && v.claim in sources
    then ClaimVolume(v.name, sources[v.claim], v.hotpluggable, false)
    else v
  }

  /** The machine after the volumes at the given places have been moved. */
  function Swapped(vm: Vm, moved: set<nat>): Vm {
    vm.(volumes := seq(|vm.volumes|, i requires 0 <= i < |vm.volumes| =>
                       if i in moved then Moved(Targets(vm.entries), vm.volumes[i]) else vm.volumes[i]),
        waiting := true,
        strategy := Some("Migration"))
  }

  function ClearTargets(entries: seq<Entry>): seq<Entry> {
    seq(|entries|, i requires 0 <= i < |entries| => entries[i].(target := ""))
  }

  function Cancelled(vm: Vm): Vm {
    Vm(seq(|vm.volumes|, i requires 0 <= i < |vm.volumes| => PutBack(Sources(vm.entries), vm.volumes[i])),
       ClearTargets(vm.entries), false, None, vm.migrating)
  }

  /** The same claim with the same hotplug flag. */
  predicate SameClaim(a: Volume, b: Volume) {
    if a.ClaimVolume? && b.ClaimVolume?
    then a.name == b.name && a.claim == b.claim && a.hotpluggable == b.hotpluggable
    else a == b
  }

  predicate SameClaims(a: seq<Volume>, b: seq<Volume>) {
    |a| == |b| && forall i :: 0 <= i < |a| ==> SameClaim(a[i], b[i])
  }

  /** The targets lead back: no claim in use is taken for a target of another volume. */
  predicate LeadsBack(entries: seq<Entry>, claim: string) {
    && (claim in Sources(entries) ==> Sources(entries)[claim] == claim)
    && (claim != "" && claim in Targets(entries) && Targets(entries)[claim] in Sources(entries) ==>
          Sources(entries)[Targets(entries)[claim]] == claim)
  }

  predicate Reversible(vm: Vm) {
    forall i :: 0 <= i < |vm.volumes| && vm.volumes[i].ClaimVolume? ==> LeadsBack(vm.entries, vm.volumes[i].claim)
  }

  /** Entry `j` is the last active one of that name. */
  predicate LastNamed(entries: seq<Entry>, name: string, j: nat) {
    && j < |entries| && entries[j].name == name && entries[j].target != ""
    && forall k :: j < k < |entries| && entries[k].name == name ==> entries[k].target == ""
  }

  /** Entry `j` is the last one with that target. */
  predicate LastTargeting(entries: seq<Entry>, target: string, j: nat) {
    && target != "" && j < |entries| && entries[j].target == target
    && forall k :: j < k < |entries| ==> entries[k].target != target
  }

  lemma {:induction false} TargetsMeaning(entries: seq<Entry>, name: string)
    ensures name in Targets(entries) <==> exists j: nat :: LastNamed(entries, name, j)
    ensures forall j: nat | LastNamed(entries, name, j) ::
              name in Targets(entries) && Targets(entries)[name] == entries[j].target
  {
    if entries != [] {
      var n := |entries| - 1;
      var before := entries[..n];
      TargetsMeaning(before, name);
      if entries[n].name == name && entries[n].target != "" {
        assert LastNamed(entries, name, n);
        assert forall j: nat :: LastNamed(entries, name, j) ==> j == n;
      } else {
        assert forall j: nat :: LastNamed(entries, name, j) <==> LastNamed(before, name, j);
      }
    }
  }

  lemma {:induction false} SourcesMeaning(entries: seq<Entry>, target: string)
    ensures target in Sources(entries) <==> exists j: nat :: LastTargeting(entries, target, j)
    ensures forall j: nat | LastTargeting(entries, target, j) ::
              target in Sources(entries) && Sources(entries)[target] == entries[j].name
  {
    if entries != [] {
      var n := |entries| - 1;
      var before := entries[..n];
      SourcesMeaning(before, target);
      if entries[n].target == target && target != "" {
        assert LastTargeting(entries, target, n);
        assert forall j: nat :: LastTargeting(entries, target, j) ==> j == n;
      } else {
        assert forall j: nat :: LastTargeting(entries, target, j) <==> LastTargeting(before, target, j);
      }
    }
  }

  /** A volume with an active entry goes to that entry's target; any other stays. */
  ghost predicate MovesTo(entries: seq<Entry>, v: Volume, v': Volume) {
    if v.ClaimVolume? && v.claim != "" && exists j: nat :: LastNamed(entries, v.claim, j) then
      exists j: nat :: LastNamed(entries, v.claim, j) &&
                       v' == ClaimVolume(v.name, entries[j].target, v.hotpluggable, false)
    else v' == v
  }

  /** A volume on the target of an entry goes to that entry's claim; any other stays. */
  ghost predicate ReturnsTo(entries: seq<Entry>, v: Volume, v': Volume) {
    if v.ClaimVolume? && exists j: nat :: LastTargeting(entries, v.claim, j) then
      exists j: nat :: LastTargeting(entries, v.claim, j) &&
                       v' == ClaimVolume(v.name, entries[j].name, v.hotpluggable, false)
    else v' == v
  }

  lemma MovesAndReturns(entries: seq<Entry>, v: Volume)
    ensures MovesTo(entries, v, Moved(Targets(entries), v)) && ReturnsTo(entries, v, PutBack(Sources(entries), v))
  {
    if v.ClaimVolume? {
      TargetsMeaning(entries, v.claim);
      SourcesMeaning(entries, v.claim);
    }
  }

  lemma {:induction false} TargetsAreSources(entries: seq<Entry>)
    ensures forall s | s in Targets(entries) :: Targets(entries)[s] in Sources(entries)
  {
    if entries != [] {
      TargetsAreSources(entries[..|entries| - 1]);
    }
  }

  /** One volume comes back whether or not it was moved exactly when its claim leads back. */
  lemma OneVolumeComesBack(entries: seq<Entry>, v: Volume)
    ensures v.ClaimVolume? ==>
              (LeadsBack(entries, v.claim) <==>
               && SameClaim(PutBack(Sources(entries), v), v)
               && SameClaim(PutBack(Sources(entries), Moved(Targets(entries), v)), v))
    ensures v.OtherVolume? ==>
              PutBack(Sources(entries), Moved(Targets(entries), v)) == PutBack(Sources(entries), v) == v
  {
    TargetsAreSources(entries);
  }

  /**
   Cancelling undoes every partial swap, whichever volumes had been moved, exactly when
   the targets lead back.
   */
  lemma CancelUndoesEverySwap(vm: Vm)
    ensures Reversible(vm) <==> forall moved :: SameClaims(Cancelled(Swapped(vm, moved)).volumes, vm.volumes)
  {
    var sources, targets := Sources(vm.entries), Targets(vm.entries);
    forall i | 0 <= i < |vm.volumes| {
      OneVolumeComesBack(vm.entries, vm.volumes[i]);
    }
    if forall moved :: SameClaims(Cancelled(Swapped(vm, moved)).volumes, vm.volumes) {
      forall i: nat | i < |vm.volumes| && vm.volumes[i].ClaimVolume?
        ensures LeadsBack(vm.entries, vm.volumes[i].claim)
      {
        assert SameClaims(Cancelled(Swapped(vm, {})).volumes, vm.volumes);
        assert SameClaims(Cancelled(Swapped(vm, {i})).volumes, vm.volumes);
        assert SameClaim(Cancelled(Swapped(vm, {})).volumes[i], vm.volumes[i]);
        assert SameClaim(Cancelled(Swapped(vm, {i})).volumes[i], vm.volumes[i]);
      }
    }
  }

  /** Active targets are distinct and none of them is a claim the machine uses. */
  predicate TargetsAreNew(vm: Vm) {
    && DistinctTargets(vm.entries)
    && (forall e, v | e in vm.entries && v in vm.volumes :: e.target != "" && v.ClaimVolume? ==> v.claim != e.target)
  }

  lemma {:induction false} SourcesAreTargets(entries: seq<Entry>)
    ensures forall t :: t in Sources(entries) <==> exists e :: e in entries && e.target == t && t != ""
  {
    if entries != [] {
      var n := |entries| - 1;
      SourcesAreTargets(entries[..n]);
      assert entries == entries[..n] + [entries[n]];
    }
  }

  lemma {:induction false} TargetsOfEntries(entries: seq<Entry>)
    ensures forall s | s in Targets(entries) ::
              exists e :: e in entries && e.name == s && e.target == Targets(entries)[s] && e.target != ""
  {
    if entries != [] {
      var n := |entries| - 1;
      TargetsOfEntries(entries[..n]);
      assert entries == entries[..n] + [entries[n]];
    }
  }

  lemma {:induction false} SourcesOfEntries(entries: seq<Entry>)
    requires DistinctTargets(entries)
    ensures forall i :: 0 <= i < |entries| && entries[i].target != "" ==>
              entries[i].target in Sources(entries) && Sources(entries)[entries[i].target] == entries[i].name
  {
    if entries != [] {
      SourcesOfEntries(entries[..|entries| - 1]);
    }
  }

  lemma SourceOfTarget(entries: seq<Entry>)
    requires DistinctTargets(entries)
    ensures forall t :: t in Sources(entries) <==> exists e :: e in entries && e.target == t && t != ""
    ensures forall e | e in entries && e.target != "" ::
              e.target in Sources(entries) && Sources(entries)[e.target] == e.name
    ensures forall s | s in Targets(entries) ::
              exists e :: e in entries && e.name == s && e.target == Targets(entries)[s] && e.target != ""
  {
    SourcesAreTargets(entries);
    TargetsOfEntries(entries);
    SourcesOfEntries(entries);
  }

  lemma NewTargetsAreReversible(vm: Vm)
    requires TargetsAreNew(vm)
    ensures Reversible(vm)
  {
    SourceOfTarget(vm.entries);
  }

  /** Moving changes the volume. */
  predicate Moves(vm: Vm, i: nat)
    requires i < |vm.volumes|
  {
    Moved(Targets(vm.entries), vm.volumes[i]) != vm.volumes[i]
  }

  /**
   With new targets, cancelling gives back the very same volumes if and only if no volume
   that was moved was mounted read-only: moving drops that flag and nothing restores it.
   */
  lemma ReadOnlyIsLost(vm: Vm, moved: set<nat>)
    requires TargetsAreNew(vm)
    ensures Cancelled(Swapped(vm, moved)).volumes == vm.volumes <==>
            forall i: nat :: i < |vm.volumes| && i in moved && Moves(vm, i) ==> !vm.volumes[i].readOnly
  {
    NewTargetsAreReversible(vm);
    SourceOfTarget(vm.entries);
    var back := Cancelled(Swapped(vm, moved)).volumes;
    forall i: nat | i < |vm.volumes|
      ensures back[i] == vm.volumes[i] <==>
              (i in moved && Moves(vm, i) ==> !vm.volumes[i].readOnly)
    {
      OneVolumeComesBack(vm.entries, vm.volumes[i]);
      assert vm.volumes[i] in vm.volumes;
    }
  }

  // The handlers, which rewrite a copy of the machine entry by entry and volume by volume.

  /** storageMigration: names a target in the first entry of the source volume. */
  method StartMigration(vm: Vm, source: string, target: string) returns (r: Option<Vm>)
    ensures r.Some? <==> exists e | e in vm.entries :: e.name == source
    ensures r.Some? ==> exists i ::
              && 0 <= i < |vm.entries| && vm.entries[i].name == source
              && (forall j :: 0 <= j < i ==> vm.entries[j].name != source)
              && r.value == vm.(entries := vm.entries[i := vm.entries[i].(target := target)])
  {
    var i := 0;
    while i < |vm.entries|
      invariant 0 <= i <= |vm.entries|
      invariant forall j :: 0 <= j < i ==> vm.entries[j].name != source
    {
      if vm.entries[i].name == source {
        return Some(vm.(entries := vm.entries[i := vm.entries[i].(target := target)]));
      }
      i := i + 1;
    }
    r := None;
  }

  /** A cancel right after a start gives back the annotation as it was. */
  lemma CancelUndoesStart(vm: Vm, i: nat, target: string)
    requires !Active(vm) && i < |vm.entries|
    ensures ClearTargets(vm.entries[i := vm.entries[i].(target := target)]) == vm.entries
  {
    forall j | 0 <= j < |vm.entries| ensures vm.entries[j].target == "" {
      assert vm.entries[j] in vm.entries;
    }
  }

  function Below(n: nat): (r: set<nat>)
    ensures forall i: nat :: i in r <==> i < n
  {
    if n == 0 then {} else Below(n - 1) + {n - 1}
  }

  function MovedAll(vm: Vm): Vm {
    Swapped(vm, Below(|vm.volumes|)).(waiting := vm.waiting)
  }

  /**
   One round of the controller: it moves every volume that has a target and waits; once there is
   nothing left to move it stops waiting as soon as the machine migrates.
   */
  function Round(vm: Vm): Vm {
    if !Active(vm) then vm
    else if MovedAll(vm) != vm then MovedAll(vm).(waiting := true)
    else vm.(waiting := vm.waiting && !vm.migrating)
  }

  /** Rounds between which the machine's status may change. */
  function Rounds(vm: Vm, statuses: seq<bool>): Vm {
    if statuses == [] then vm
    else Round(Rounds(vm, statuses[..|statuses| - 1]).(migrating := statuses[|statuses| - 1]))
  }

  /** A volume after a number of moves. */
  function MovedTimes(targets: map<string, string>, v: Volume, n: nat): Volume {
    if n == 0 then v else Moved(targets, MovedTimes(targets, v, n - 1))
  }

  lemma {:induction false} NoTargets(entries: seq<Entry>)
    requires forall i :: 0 <= i < |entries| ==> entries[i].target == ""
    ensures Targets(entries) == map[]
  {
    if entries != [] {
      NoTargets(entries[..|entries| - 1]);
    }
  }

  /** A round moves each volume once and leaves the entries alone. */
  lemma RoundMovesEach(vm: Vm)
    ensures Round(vm).entries == vm.entries && |Round(vm).volumes| == |vm.volumes|
    ensures forall i :: 0 <= i < |vm.volumes| ==> Round(vm).volumes[i] == Moved(Targets(vm.entries), vm.volumes[i])
  {
    if !Active(vm) {
      NoTargets(vm.entries);
    } else {
      assert forall i :: 0 <= i < |vm.volumes| ==> MovedAll(vm).volumes[i] == Moved(Targets(vm.entries), vm.volumes[i]);
    }
  }

  lemma {:induction false} RoundsMoveEach(vm: Vm, statuses: seq<bool>)
    ensures var r := Rounds(vm, statuses);
            && r.entries == vm.entries && |r.volumes| == |vm.volumes|
            && forall i :: 0 <= i < |r.volumes| ==>
                             r.volumes[i] == MovedTimes(Targets(vm.entries), vm.volumes[i], |statuses|)
  {
    if statuses != [] {
      var n := |statuses| - 1;
      RoundsMoveEach(vm, statuses[..n]);
      RoundMovesEach(Rounds(vm, statuses[..n]).(migrating := statuses[n]));
    }
  }

  predicate DistinctTargets(entries: seq<Entry>) {
    forall i, j :: 0 <= i < j < |entries| && entries[i].target != "" ==> entries[i].target != entries[j].target
  }

  /** The target of a claim in use is not itself moved on. */
  predicate EndsThere(targets: map<string, string>, claim: string) {
    claim != "" && claim in targets && targets[claim] != claim ==> targets[claim] !in targets
  }

  predicate NoChains(vm: Vm) {
    forall i :: 0 <= i < |vm.volumes| && vm.volumes[i].ClaimVolume? ==>
                  EndsThere(Targets(vm.entries), vm.volumes[i].claim)
  }

  lemma {:induction false} MovesSettle(targets: map<string, string>, v: Volume, n: nat)
    requires v.ClaimVolume? && EndsThere(targets, v.claim) && n > 0
    ensures SameClaim(MovedTimes(targets, v, n), Moved(targets, v))
  {
    if n > 1 {
      MovesSettle(targets, v, n - 1);
    } else {
      assert MovedTimes(targets, v, 0) == v;
    }
  }

  lemma {:induction false} OtherVolumesStay(targets: map<string, string>, v: Volume, n: nat)
    requires v.OtherVolume?
    ensures MovedTimes(targets, v, n) == v
  {
    if n > 0 {
      OtherVolumesStay(targets, v, n - 1);
    }
  }

  predicate ComesBack(entries: seq<Entry>, v: Volume, n: nat) {
    SameClaim(PutBack(Sources(entries), MovedTimes(Targets(entries), v, n)), v)
  }

  /** One volume comes back from any number of moves exactly if it does from one and goes no further. */
  lemma OneVolumeComesBackAlways(entries: seq<Entry>, v: Volume)
    requires DistinctTargets(entries) && v.ClaimVolume?
    ensures (forall n: nat :: ComesBack(entries, v, n)) <==>
            LeadsBack(entries, v.claim) && EndsThere(Targets(entries), v.claim)
  {
    var targets := Targets(entries);
    OneVolumeComesBack(entries, v);
    SourceOfTarget(entries);
    assert MovedTimes(targets, v, 0) == v && MovedTimes(targets, v, 1) == Moved(targets, v);
    assert MovedTimes(targets, v, 2) == Moved(targets, Moved(targets, v));
    if LeadsBack(entries, v.claim) && EndsThere(targets, v.claim) {
      forall n: nat
        ensures ComesBack(entries, v, n)
      {
        if n > 0 {
          MovesSettle(targets, v, n);
        }
      }
    }
    if forall n: nat :: ComesBack(entries, v, n) {
      assert ComesBack(entries, v, 0) && ComesBack(entries, v, 1) && ComesBack(entries, v, 2);
    }
  }

  /** The claims are back after a cancel that follows any number of rounds, whatever the statuses. */
  ghost predicate AlwaysUndone(vm: Vm) {
    forall statuses :: SameClaims(Cancelled(Rounds(vm, statuses)).volumes, vm.volumes)
  }

  lemma UndoneVolumeByVolume(vm: Vm, statuses: seq<bool>)
    ensures SameClaims(Cancelled(Rounds(vm, statuses)).volumes, vm.volumes) <==>
            forall i :: 0 <= i < |vm.volumes| ==> ComesBack(vm.entries, vm.volumes[i], |statuses|)
  {
    RoundsMoveEach(vm, statuses);
    var back := Cancelled(Rounds(vm, statuses)).volumes;
    assert |back| == |vm.volumes|;
    assert forall i :: 0 <= i < |back| ==>
        back[i] == PutBack(Sources(vm.entries), MovedTimes(Targets(vm.entries), vm.volumes[i], |statuses|));
  }

  /**
   With distinct active targets, a cancel after any number of rounds puts every claim back if and only
   if the targets lead back and no claim in use has a target that is moved on.
   */
  lemma CancelUndoesAnyRounds(vm: Vm)
    requires DistinctTargets(vm.entries)
    ensures AlwaysUndone(vm) <==> Reversible(vm) && NoChains(vm)
  {
    if AlwaysUndone(vm) {
      forall i | 0 <= i < |vm.volumes| && vm.volumes[i].ClaimVolume?
        ensures LeadsBack(vm.entries, vm.volumes[i].claim) && EndsThere(Targets(vm.entries), vm.volumes[i].claim)
      {
        forall n: nat
          ensures ComesBack(vm.entries, vm.volumes[i], n)
        {
          var statuses := seq(n, _ => false);
          UndoneVolumeByVolume(vm, statuses);
        }
        OneVolumeComesBackAlways(vm.entries, vm.volumes[i]);
      }
    }
    if Reversible(vm) && NoChains(vm) {
      forall statuses
        ensures SameClaims(Cancelled(Rounds(vm, statuses)).volumes, vm.volumes)
      {
        forall i | 0 <= i < |vm.volumes|
          ensures ComesBack(vm.entries, vm.volumes[i], |statuses|)
        {
          if vm.volumes[i].ClaimVolume? {
            OneVolumeComesBackAlways(vm.entries, vm.volumes[i]);
          } else {
            OtherVolumesStay(Targets(vm.entries), vm.volumes[i], |statuses|);
          }
        }
        UndoneVolumeByVolume(vm, statuses);
      }
    }
  }

  /** In a chain of targets the second move goes on, and the way back ends at the first target. */
  lemma ChainsAreLost(vm: Vm, i: nat)
    requires DistinctTargets(vm.entries) && i < |vm.volumes| && vm.volumes[i].ClaimVolume?
    requires !EndsThere(Targets(vm.entries), vm.volumes[i].claim)
    ensures var back := Cancelled(Rounds(vm, [false, false])).volumes;
            && i < |back| && back[i].ClaimVolume?
            && back[i].claim == Targets(vm.entries)[vm.volumes[i].claim] != vm.volumes[i].claim
  {
    var targets, v := Targets(vm.entries), vm.volumes[i];
    RoundsMoveEach(vm, [false, false]);
    SourceOfTarget(vm.entries);
    assert MovedTimes(targets, v, 1) == Moved(targets, v);
    assert MovedTimes(targets, v, 2) == Moved(targets, Moved(targets, v));
  }

  /** SetTargetVolumeStrategy. */
  method SetTargetVolumeStrategy(vm: Vm) returns (r: Vm)
    ensures r == Round(vm)
    ensures (forall e | e in vm.entries :: e.target == "") ==> r == vm
    ensures (exists e | e in vm.entries :: e.target != "") ==>
              && r == vm.(volumes := r.volumes, strategy := Some("Migration"), waiting := r.waiting)
              && |r.volumes| == |vm.volumes|
              && (forall i :: 0 <= i < |vm.volumes| ==> MovesTo(vm.entries, vm.volumes[i], r.volumes[i]))
              && (r.waiting <==>
                    r.volumes != vm.volumes || vm.strategy != Some("Migration") || (vm.waiting && !vm.migrating))
  {
    forall i | 0 <= i < |vm.volumes| {
      MovesAndReturns(vm.entries, vm.volumes[i]);
    }
    var targets := map[];
    for i := 0 to |vm.entries|
      invariant targets == Targets(vm.entries[..i])
      invariant targets == map[] <==> forall j :: 0 <= j < i ==> vm.entries[j].target == ""
    {
      assert vm.entries[..i + 1][..i] == vm.entries[..i];
      if vm.entries[i].target != "" {
        targets := targets[vm.entries[i].name := vm.entries[i].target];
        assert vm.entries[i].name in targets;
      }
    }
    assert vm.entries[..|vm.entries|] == vm.entries;
    if targets == map[] {
      return vm;
    }
    var volumes := vm.volumes;
    for i := 0 to |volumes|
      invariant |volumes| == |vm.volumes|
      invariant forall j :: 0 <= j < |volumes| ==>
                              volumes[j] == if j < i then Moved(targets, vm.volumes[j]) else vm.volumes[j]
    {
      var v := volumes[i];
      if v.ClaimVolume? && v.claim != "" && v.claim in targets {
        volumes := volumes[i := ClaimVolume(v.name, targets[v.claim], v.hotpluggable, false)];
      }
    }
    var moved := vm.(volumes := volumes, strategy := Some("Migration"));
    assert moved.volumes == MovedAll(vm).volumes;
    if moved == vm {
      return if vm.migrating && vm.waiting then vm.(waiting := false) else vm;
    }
    r := moved.(waiting := true);
  }

  method ClearActive(entries: seq<Entry>) returns (targetToSource: map<string, string>, cleared: seq<Entry>)
    ensures targetToSource == Sources(entries) && cleared == ClearTargets(entries)
    ensures targetToSource == map[] <==> forall e | e in entries :: e.target == ""
  {
    targetToSource, cleared := map[], entries;
    for i := 0 to |entries|
      invariant |cleared| == |entries|
      invariant targetToSource == Sources(entries[..i])
      invariant targetToSource == map[] <==> forall j :: 0 <= j < i ==> entries[j].target == ""
      invariant forall j :: 0 <= j < |entries| ==> cleared[j] == if j < i then entries[j].(target := "") else entries[j]
    {
      assert entries[..i + 1][..i] == entries[..i];
      if cleared[i].target != "" {
        targetToSource := targetToSource[cleared[i].target := cleared[i].name];
        assert cleared[i].target in targetToSource;
        cleared := cleared[i := cleared[i].(target := "")];
      }
    }
    assert entries[..|entries|] == entries;
  }

  method PutBackAll(targetToSource: map<string, string>, volumes: seq<Volume>) returns (r: seq<Volume>)
    ensures |r| == |volumes| && forall j :: 0 <= j < |r| ==> r[j] == PutBack(targetToSource, volumes[j])
  {
    r := volumes;
    for i := 0 to |r|
      invariant |r| == |volumes|
      invariant forall j :: 0 <= j < |r| ==> r[j] == if j < i then PutBack(targetToSource, volumes[j]) else volumes[j]
    {
      var v := r[i];
      if v.ClaimVolume? && v.claim in targetToSource {
        r := r[i := ClaimVolume(v.name, targetToSource[v.claim], v.hotpluggable, false)];
      }
    }
  }

  /** cancelStorageMigration: an error exactly when no migration is active. */
  method CancelStorageMigration(vm: Vm) returns (r: Option<Vm>)
    ensures r == if Active(vm) then Some(Cancelled(vm)) else None
    ensures r.Some? <==> exists e | e in vm.entries :: e.target != ""
    ensures r.Some? ==> !Active(r.value) && !r.value.waiting && r.value.strategy.None?
    ensures r.Some? ==> |r.value.entries| == |vm.entries| && |r.value.volumes| == |vm.volumes|
    ensures r.Some? ==> forall i :: 0 <= i < |vm.entries| ==>
                                      r.value.entries[i] == Entry(vm.entries[i].name, "", vm.entries[i].claimSpec)
    ensures r.Some? ==> forall i :: 0 <= i < |vm.volumes| ==> ReturnsTo(vm.entries, vm.volumes[i], r.value.volumes[i])
  {
    var targetToSource, entries := ClearActive(vm.entries);
    if targetToSource == map[] {
      return None;
    }
    var volumes := PutBackAll(targetToSource, vm.volumes);
    forall i | 0 <= i < |volumes| {
      MovesAndReturns(vm.entries, vm.volumes[i]);
    }
    r := Some(Vm(volumes, entries, false, None, vm.migrating));
    assert r.value.volumes == Cancelled(vm).volumes;
  }
}
