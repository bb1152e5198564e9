/**
 The node maintenance-mode protocol: enable, disable and clear requests, controller
 transitions, restarts of virtual machines and status writes by the kubelet, all
 interleaved on versioned node and virtual machine objects.

 Each closure the source retries on conflict is one operation here; `Decide` is what it
 does with the copy it fetched.
 */
module MaintenanceMode {
  import opened Filtering
  import opened NodeConditions
  import opened OptimisticStore

  datatype AnnotationKey = DrainRequested | DrainForced | OtherAnnotation(name: string)

  datatype Taint = Taint(key: string, effect: string)

  /** Taint that a drain leaves on a node. */
  const DRAIN_TAINT := "kubevirt.io/drain"

  datatype Node = Node(
    conditions: seq<Condition>,
    annotations: map<AnnotationKey, string>,
    unschedulable: bool,
    taints: seq<Taint>)

  /** The strategy label of machines that are restarted when maintenance is disabled. */
  const RESTART_AFTER_DISABLE := "ShutdownAndRestartAfterDisable"

  const HALTED := "Halted"
  const RERUN_ON_FAILURE := "RerunOnFailure"

  /** A virtual machine's run strategy, or the error of a spec that sets it twice. */
  datatype RunStrategy = Readable(name: string) | Unreadable

  /**
   `tracking` is the node name in the maintenance tracking annotation and `saved` the
   saved run strategy; both are empty when the annotation is missing.
   */
  datatype Vm = Vm(tracking: string, saved: string, strategy: RunStrategy, rest: string)

  datatype ApiObject = Absent | NodeObject(node: Node) | VmObject(vm: Vm)

  /** Nodes have names that are not empty. */
  type Name = s: string | s != "" witness "n"

  datatype Key = NodeKey(name: string) | VmKey(namespace: string, name: string)

  datatype Op =
    | Enable(force: bool)
    | CheckDisable
    | Undrain
    | Remove(preCheckErrorOnly: bool)
    | Transition(source: Phase, target: Phase, message: string)
    | UpdateCondition(phase: Phase, message: string)
    | RestartVm(node: Name)

  function Annotation(n: Node, k: AnnotationKey): string {
    if k in n.annotations then n.annotations[k] else ""
  }

  predicate HasDrainRequest(n: Node) { Annotation(n, DrainRequested) != "" }

  predicate IsForcedDrainRequested(n: Node) { Annotation(n, DrainForced) != "" }

  function SetDrainRequest(n: Node, forced: bool): Node {
    var a := n.annotations[DrainRequested := "true"];
    n.(annotations := if forced then a[DrainForced := "true"] else a - {DrainForced})
  }

  function ClearDrainRequest(n: Node): Node {
    n.(annotations := n.annotations - {DrainRequested, DrainForced})
  }

  predicate NotDrain(t: Taint) { t.key != DRAIN_TAINT }

  predicate CanDisable(n: Node) {
    match PhaseOf(n.conditions)
    case None => false
    case Some(p) => p.status.ConditionTrue? && (p.reason.Evacuating? || p.reason.Completed? || p.reason.Error?)
  }

  /** What each retried closure does with the node or virtual machine it fetched. */
  function Decide(op: Op, o: ApiObject, now: int): Decision<ApiObject> {
    match o
    case NodeObject(n) => DecideNode(op, n, now)
    case VmObject(vm) => if op.RestartVm? then DecideVm(op.node, vm) else Return(false)
    case Absent => Return(op.RestartVm?)
  }

  function DecideNode(op: Op, n: Node, now: int): Decision<ApiObject> {
    match op
    case Enable(force) =>
      if Find(n.conditions).Some? || HasDrainRequest(n) then Return(false)
      else Write(NodeObject(SetDrainRequest(n, force)))
    case CheckDisable =>
      Return(CanDisable(n))
    case Undrain =>
      Write(NodeObject(ClearDrainRequest(n.(unschedulable := false, taints := Filter(NotDrain, n.taints)))))
    case Remove(preCheckErrorOnly) =>
      if Find(n.conditions).None? then Return(true)
      else if preCheckErrorOnly && (HasDrainRequest(n) || IsForcedDrainRequested(n)) then Return(false)
      else if preCheckErrorOnly && PhaseOf(n.conditions) != Some(Phase(ConditionFalse, Error)) then Return(false)
      else if !preCheckErrorOnly && (!CanDisable(n) || HasDrainRequest(n)) then Return(false)
      else Write(NodeObject(n.(conditions := Others(n.conditions))))
    case Transition(source, target, message) =>
      if PhaseOf(n.conditions) != Some(source) then Return(true)
      else Write(NodeObject(n.(conditions := SetPhase(n.conditions, target, message, now))))
    case UpdateCondition(phase, message) =>
      var cs := SetPhase(n.conditions, phase, message, now);
      if cs == n.conditions then Return(true) else Write(NodeObject(n.(conditions := cs)))
    case RestartVm(_) =>
      Return(false)
  }

  function DecideVm(node: Name, vm: Vm): Decision<ApiObject> {
    if vm.tracking != node then Return(true)
    else if vm.strategy.Unreadable? then Return(false)
    else if vm.strategy.name == HALTED then
      Write(VmObject(vm.(tracking := "", strategy := Readable(if vm.saved == "" then RERUN_ON_FAILURE else vm.saved))))
    else
      Write(VmObject(vm.(tracking := "")))
  }

  /**
   Other writers.  They may change anything about a node except its MaintenanceMode
   condition, and anything about a virtual machine; objects may come and go.
   */
  predicate OtherWriters(k: Key, before: ApiObject, after: ApiObject) {
    match k
    case NodeKey(_) =>
      match after {
        case Absent => true
        case NodeObject(n) =>
          Maintenance(n.conditions) == if before.NodeObject? then Maintenance(before.node.conditions) else []
        case VmObject(_) => false
      }
    case VmKey(_, _) => !after.NodeObject?
  }

  ghost function Protocol(): Rules<Key, ApiObject, Op> {
    Rules((op, o, now) => Decide(op, o, now), (k, before, after) => OtherWriters(k, before, after))
  }

  ghost predicate WellFormed(k: Key, o: ApiObject) {
    match k
    case NodeKey(_) => !o.VmObject? && (o.NodeObject? ==> |Maintenance(o.node.conditions)| <= 1)
    case VmKey(_, _) => !o.NodeObject?
  }

  type Cluster = State<Key, ApiObject, Op>
  type History = seq<Version<ApiObject, Op>>

  /** A cluster that some interleaving of requests leads to. */
  ghost predicate Reachable(s: Cluster) {
    exists objects, es :: StartsFrom(s, objects, es)
  }

  ghost predicate StartsFrom(s: Cluster, objects: map<Key, ApiObject>, es: seq<Event<Key, ApiObject, Op>>) {
    && (forall k | k in objects :: WellFormed(k, objects[k]))
    && s == Exec(Protocol(), Initial(objects), es)
  }

  /** The version before `i` leads to version `i` by one atomic step, and is well formed. */
  ghost predicate Steps(k: Key, h: History, i: nat)
    requires i < |h|
  {
    && WellFormed(k, h[i].value)
    && (i > 0 ==> WellFormed(k, h[i - 1].value) && AtomicStep(Protocol(), k, h[i - 1].value, h[i]))
    && (i == 0 ==> h[i].author.Environment?)
  }

  /** A step by any caller or writer keeps objects well formed. */
  lemma StepKeepsWellFormed(k: Key, before: ApiObject, after: Version<ApiObject, Op>)
    requires WellFormed(k, before) && AtomicStep(Protocol(), k, before, after)
    ensures WellFormed(k, after.value)
  {
    if after.author.Caller? && before.NodeObject? {
      var n := before.node;
      match after.author.op {
        case Transition(_, p, m) => SetPhaseMeaning(n.conditions, p, m, after.author.now);
        case UpdateCondition(p, m) => SetPhaseMeaning(n.conditions, p, m, after.author.now);
        case Remove(_) => OthersHasNoMaintenance(n.conditions);
        case _ =>
      }
    }
  }

  lemma {:induction false} HistoryIsWellFormed(k: Key, h: History, i: nat)
    requires AtomicHistory(Protocol(), k, h) && WellFormed(k, h[0].value) && i < |h|
    ensures WellFormed(k, h[i].value)
  {
    if i > 0 {
      HistoryIsWellFormed(k, h, i - 1);
      StepKeepsWellFormed(k, h[i - 1].value, h[i]);
    }
  }

  lemma ReachableSteps(s: Cluster, k: Key)
    requires Reachable(s) && k in s.objects
    ensures s.objects[k] != []
    ensures forall i :: 0 <= i < |s.objects[k]| ==> Steps(k, s.objects[k], i)
  {
    var objects, es :| StartsFrom(s, objects, es);
    ExecKeepsInv(Protocol(), objects, es);
    var start: Cluster := Initial(objects);
    assert k in start.objects;
    assert start.objects[k] <= s.objects[k];
    forall i | 0 <= i < |s.objects[k]| ensures Steps(k, s.objects[k], i) {
      HistoryIsWellFormed(k, s.objects[k], i);
      if i > 0 {
        HistoryIsWellFormed(k, s.objects[k], i - 1);
      }
    }
  }

  predicate InMaintenance(o: ApiObject) {
    o.NodeObject? && Find(o.node.conditions).Some?
  }

  function PhaseAt(o: ApiObject): Option<Phase> {
    if o.NodeObject? then PhaseOf(o.node.conditions) else None
  }

  /** The phases and intents in which a clear, respectively a disable, may end maintenance. */
  predicate MayBeCleared(n: Node) {
    PhaseOf(n.conditions) == Some(Phase(ConditionFalse, Error)) && !HasDrainRequest(n) && !IsForcedDrainRequested(n)
  }

  predicate MayBeDisabled(n: Node) {
    && PhaseOf(n.conditions) in {
         Some(Phase(ConditionTrue, Evacuating)),
         Some(Phase(ConditionTrue, Completed)),
         Some(Phase(ConditionTrue, Error))}
    && !HasDrainRequest(n)
  }

  /**
   Whatever the interleaving, a caller that ends maintenance does so on a node which, at
   the moment of the write, may be cleared or disabled: never while it is being
   validated or drained.  The write removes the condition and changes nothing else.
   */
  lemma RemovalsAreGuarded(s: Cluster, k: Key, i: nat)
    requires Reachable(s) && k in s.objects && 0 < i < |s.objects[k]|
    requires s.objects[k][i].author.Caller?
    requires InMaintenance(s.objects[k][i - 1].value) && !InMaintenance(s.objects[k][i].value)
    ensures var v := s.objects[k][i];
            var n := s.objects[k][i - 1].value.node;
            && v.author.op.Remove?
            && (if v.author.op.preCheckErrorOnly then MayBeCleared(n) else MayBeDisabled(n))
            && PhaseOf(n.conditions).value.reason !in {Validating, Draining}
            && v.value == NodeObject(n.(conditions := Others(n.conditions)))
  {
    var h := s.objects[k];
    ReachableSteps(s, k);
    assert Steps(k, h, i);
    var n := h[i - 1].value.node;
    match h[i].author.op {
      case Transition(_, p, m) => SetPhaseMeaning(n.conditions, p, m, h[i].author.now);
      case UpdateCondition(p, m) => SetPhaseMeaning(n.conditions, p, m, h[i].author.now);
      case _ =>
    }
  }

  function MessageAt(o: ApiObject): Option<string> {
    if InMaintenance(o) then Some(Find(o.node.conditions).value.message) else None
  }

  /** The objects on which an operation has to write. */
  predicate MustWrite(op: Op, o: ApiObject) {
    match op
    case Enable(_) => o.NodeObject? && !InMaintenance(o) && !HasDrainRequest(o.node)
    case CheckDisable => false
    case Undrain => o.NodeObject?
    case Remove(preCheckErrorOnly) =>
      o.NodeObject? && if preCheckErrorOnly then MayBeCleared(o.node) else MayBeDisabled(o.node)
    case Transition(source, _, _) => PhaseAt(o) == Some(source)
    case UpdateCondition(phase, message) =>
      o.NodeObject? && !(PhaseAt(o) == Some(phase) && MessageAt(o) == Some(message))
    case RestartVm(node) => o.VmObject? && o.vm.tracking == node && o.vm.strategy.Readable?
  }

  /** The objects on which it has nothing to do. */
  predicate NothingToDo(op: Op, o: ApiObject) {
    match op
    case Enable(_) => false
    case CheckDisable =>
      PhaseAt(o) in {
        Some(Phase(ConditionTrue, Evacuating)),
        Some(Phase(ConditionTrue, Completed)),
        Some(Phase(ConditionTrue, Error))}
    case Undrain => false
    case Remove(_) => o.NodeObject? && !InMaintenance(o)
    case Transition(source, _, _) => o.NodeObject? && PhaseAt(o) != Some(source)
    case UpdateCondition(phase, message) =>
      o.NodeObject? && PhaseAt(o) == Some(phase) && MessageAt(o) == Some(message)
    case RestartVm(node) => o.Absent? || (o.VmObject? && o.vm.tracking != node)
  }

  predicate Refuses(op: Op, o: ApiObject) {
    !MustWrite(op, o) && !NothingToDo(op, o)
  }

  /** Each closure writes exactly where it has to, returns exactly where it need not, and refuses the rest. */
  lemma DecisionsAreExact(op: Op, o: ApiObject, now: int)
    ensures Decide(op, o, now).Write? <==> MustWrite(op, o)
    ensures Decide(op, o, now) == Return(true) <==> NothingToDo(op, o)
    ensures Decide(op, o, now) == Return(false) <==> Refuses(op, o)
  {
    if o.NodeObject? {
      match op {
        case UpdateCondition(p, m) => SetPhaseMeaning(o.node.conditions, p, m, now);
        case _ =>
      }
    }
  }

  /** A committed transition starts from exactly its source phase and ends in its target. */
  lemma TransitionsAreExact(s: Cluster, k: Key, i: nat)
    requires Reachable(s) && k in s.objects && 0 < i < |s.objects[k]|
    requires s.objects[k][i].author.Caller? && s.objects[k][i].author.op.Transition?
    ensures var op := s.objects[k][i].author.op;
            && PhaseAt(s.objects[k][i - 1].value) == Some(op.source)
            && PhaseAt(s.objects[k][i].value) == Some(op.target)
            && MessageAt(s.objects[k][i].value) == Some(op.message)
  {
    var h := s.objects[k];
    ReachableSteps(s, k);
    assert Steps(k, h, i);
    var op := h[i].author.op;
    SetPhaseMeaning(h[i - 1].value.node.conditions, op.target, op.message, h[i].author.now);
  }

  /** A committed update of the condition leaves exactly the phase and message it was asked for. */
  lemma UpdatesAreExact(s: Cluster, k: Key, i: nat)
    requires Reachable(s) && k in s.objects && 0 < i < |s.objects[k]|
    requires s.objects[k][i].author.Caller? && s.objects[k][i].author.op.UpdateCondition?
    ensures var op := s.objects[k][i].author.op;
            && PhaseAt(s.objects[k][i].value) == Some(op.phase)
            && MessageAt(s.objects[k][i].value) == Some(op.message)
  {
    var h := s.objects[k];
    ReachableSteps(s, k);
    assert Steps(k, h, i);
    SetPhaseMeaning(h[i - 1].value.node.conditions, h[i].author.op.phase, h[i].author.op.message, h[i].author.now);
  }

  /**
   At most one transition commits per visit to its source phase: between two commits from
   the same phase the node has been outside that phase.
   */
  lemma OneTransitionPerVisit(s: Cluster, k: Key, i: nat, j: nat) returns (away: nat)
    requires Reachable(s) && k in s.objects && 0 < i < j < |s.objects[k]|
    requires s.objects[k][i].author.Caller? && s.objects[k][i].author.op.Transition?
    requires s.objects[k][j].author.Caller? && s.objects[k][j].author.op.Transition?
    requires s.objects[k][i].author.op.source == s.objects[k][j].author.op.source
    requires s.objects[k][i].author.op.source != s.objects[k][i].author.op.target
    ensures i <= away < j - 1
    ensures PhaseAt(s.objects[k][away].value) != Some(s.objects[k][i].author.op.source)
  {
    TransitionsAreExact(s, k, i);
    TransitionsAreExact(s, k, j);
    away := i;
  }

  /** An enable commits only on a node with no maintenance and no request pending, and records what was asked. */
  lemma EnableIsGuarded(s: Cluster, k: Key, i: nat)
    requires Reachable(s) && k in s.objects && 0 < i < |s.objects[k]|
    requires s.objects[k][i].author.Caller? && s.objects[k][i].author.op.Enable?
    ensures var before, after := s.objects[k][i - 1].value, s.objects[k][i].value;
            && before.NodeObject? && !InMaintenance(before) && !HasDrainRequest(before.node)
            && after.NodeObject? && HasDrainRequest(after.node)
            && (IsForcedDrainRequested(after.node) <==> s.objects[k][i].author.op.force)
            && Annotation(after.node, DrainRequested) == "true"
            && Annotation(after.node, DrainForced) == (if s.objects[k][i].author.op.force then "true" else "")
  {
    ReachableSteps(s, k);
    assert Steps(k, s.objects[k], i);
  }

  /** Between two committed enables the node has been without a request. */
  lemma EnablesAreExclusive(s: Cluster, k: Key, i: nat, j: nat) returns (between: nat)
    requires Reachable(s) && k in s.objects && 0 < i < j < |s.objects[k]|
    requires s.objects[k][i].author.Caller? && s.objects[k][i].author.op.Enable?
    requires s.objects[k][j].author.Caller? && s.objects[k][j].author.op.Enable?
    ensures i < between < j
    ensures s.objects[k][between].value.NodeObject? && !HasDrainRequest(s.objects[k][between].value.node)
  {
    EnableIsGuarded(s, k, j);
    between := j - 1;
    if i == between {
      EnableIsGuarded(s, k, i);
    }
  }

  /** There is never more than one MaintenanceMode condition on a node. */
  lemma AtMostOneMaintenanceCondition(s: Cluster, k: Key, i: nat)
    requires Reachable(s) && k in s.objects && i < |s.objects[k]| && s.objects[k][i].value.NodeObject?
    requires k.NodeKey?
    ensures |Maintenance(s.objects[k][i].value.node.conditions)| <= 1
  {
    ReachableSteps(s, k);
    assert Steps(k, s.objects[k], i);
  }

  /** The annotations that do not carry drain intent. */
  function OtherAnnotations(n: Node): map<AnnotationKey, string> {
    n.annotations - {DrainRequested, DrainForced}
  }

  ghost predicate Framed(op: Op, before: Node, after: Node) {
    match op
    case Enable(_) => after == before.(annotations := after.annotations)
    case Undrain =>
      && after == before.(annotations := after.annotations, unschedulable := false, taints := after.taints)
      && exists places :: KeepsExactly(NotDrain, before.taints, after.taints, places)
    case _ => after == before.(conditions := after.conditions)
  }

  /**
   What a committed write by a maintenance caller leaves alone: an enable touches only the drain
   intent, an undrain only intent, cordon and the drain taint, all others only the condition.
   */
  lemma NodeWritesAreFramed(s: Cluster, k: Key, i: nat)
    requires Reachable(s) && k in s.objects && 0 < i < |s.objects[k]|
    requires k.NodeKey? && s.objects[k][i].author.Caller?
    ensures s.objects[k][i - 1].value.NodeObject? && s.objects[k][i].value.NodeObject?
    ensures var before, after := s.objects[k][i - 1].value.node, s.objects[k][i].value.node;
            && OtherAnnotations(after) == OtherAnnotations(before)
            && Others(after.conditions) == Others(before.conditions)
            && Framed(s.objects[k][i].author.op, before, after)
  {
    ReachableSteps(s, k);
    assert Steps(k, s.objects[k], i);
    CallersKeepOthers(k, s.objects[k][i - 1].value, s.objects[k][i]);
    var author := s.objects[k][i].author;
    WriteIsFramed(author.op, s.objects[k][i - 1].value.node, s.objects[k][i].value, author.now);
  }

  lemma WriteIsFramed(op: Op, before: Node, after: ApiObject, now: int)
    requires DecideNode(op, before, now) == Write(after)
    ensures after.NodeObject? && Framed(op, before, after.node)
    ensures OtherAnnotations(after.node) == OtherAnnotations(before)
  {
    var places := FilterMeaning(NotDrain, before.taints);
    var forced := SetDrainRequest(before, true);
    var plain := SetDrainRequest(before, false);
    assert OtherAnnotations(forced) == OtherAnnotations(before) && OtherAnnotations(plain) == OtherAnnotations(before);
    assert OtherAnnotations(ClearDrainRequest(before)) == OtherAnnotations(before);
  }

  /** The last version up to `i` that was not written by a maintenance caller. */
  ghost function LastOutsideWrite(h: History, i: nat): (j: nat)
    requires i < |h|
    ensures j <= i
    ensures j > 0 ==> h[j].author.Environment?
    ensures forall m :: j < m <= i ==> h[m].author.Caller?
  {
    if i == 0 || h[i].author.Environment? then i else LastOutsideWrite(h, i - 1)
  }

  function OthersAt(o: ApiObject): seq<Condition> {
    if o.NodeObject? then Others(o.node.conditions) else []
  }

  /**
   No maintenance caller loses a status update: every condition other than
   MaintenanceMode has the place and the exact value of the last outside write.
   */
  lemma StatusUpdatesSurvive(s: Cluster, k: Key, i: nat)
    requires Reachable(s) && k in s.objects && i < |s.objects[k]|
    ensures OthersAt(s.objects[k][i].value) == OthersAt(s.objects[k][LastOutsideWrite(s.objects[k], i)].value)
  {
    forall j: nat | 0 < j < |s.objects[k]| && s.objects[k][j].author.Caller?
      ensures OthersAt(s.objects[k][j].value) == OthersAt(s.objects[k][j - 1].value)
    {
      CallerStepKeepsOthers(s, k, j);
    }
    OthersSinceOutsideWrite(s.objects[k], i);
  }

  lemma {:induction false} OthersSinceOutsideWrite(h: History, i: nat)
    requires i < |h|
    requires forall j: nat | 0 < j < |h| && h[j].author.Caller? :: OthersAt(h[j].value) == OthersAt(h[j - 1].value)
    ensures OthersAt(h[i].value) == OthersAt(h[LastOutsideWrite(h, i)].value)
  {
    if i > 0 && h[i].author.Caller? {
      OthersSinceOutsideWrite(h, i - 1);
      assert LastOutsideWrite(h, i) == LastOutsideWrite(h, i - 1);
    } else {
      assert LastOutsideWrite(h, i) == i;
    }
  }

  lemma CallerStepKeepsOthers(s: Cluster, k: Key, i: nat)
    requires Reachable(s) && k in s.objects && 0 < i < |s.objects[k]| && s.objects[k][i].author.Caller?
    ensures OthersAt(s.objects[k][i].value) == OthersAt(s.objects[k][i - 1].value)
  {
    ReachableSteps(s, k);
    assert Steps(k, s.objects[k], i);
    CallersKeepOthers(k, s.objects[k][i - 1].value, s.objects[k][i]);
  }

  lemma CallersKeepOthers(k: Key, before: ApiObject, after: Version<ApiObject, Op>)
    requires AtomicStep(Protocol(), k, before, after) && after.author.Caller?
    ensures OthersAt(after.value) == OthersAt(before)
  {
    if before.NodeObject? {
      var n := before.node;
      match after.author.op {
        case Transition(_, p, m) => SetPhaseMeaning(n.conditions, p, m, after.author.now);
        case UpdateCondition(p, m) => SetPhaseMeaning(n.conditions, p, m, after.author.now);
        case Remove(_) => OthersHasNoMaintenance(n.conditions);
        case _ =>
      }
    }
  }

  /** The last version up to `i` whose phase differs from the version before it, or 0. */
  ghost function LastPhaseChange(h: History, i: nat): (j: nat)
    requires i < |h|
    ensures j <= i
    ensures j > 0 ==> PhaseAt(h[j].value) != PhaseAt(h[j - 1].value)
    ensures forall m :: j < m <= i ==> PhaseAt(h[m].value) == PhaseAt(h[m - 1].value)
  {
    if i == 0 || PhaseAt(h[i].value) != PhaseAt(h[i - 1].value) then i else LastPhaseChange(h, i - 1)
  }

  function TransitionTime(o: ApiObject): int
    requires InMaintenance(o)
  {
    Find(o.node.conditions).value.lastTransition
  }

  /**
   The recorded transition time is the clock of the caller that made the last change of
   status or reason, however many other writes came later.
   */
  lemma {:induction false} TransitionTimeIsLastChange(s: Cluster, k: Key, i: nat)
    requires Reachable(s) && k in s.objects && i < |s.objects[k]|
    requires InMaintenance(s.objects[k][i].value)
    ensures var h := s.objects[k];
            var j := LastPhaseChange(h, i);
            && (j > 0 ==> h[j].author.Caller? && TransitionTime(h[i].value) == h[j].author.now)
            && (j == 0 ==> InMaintenance(h[0].value) && TransitionTime(h[i].value) == TransitionTime(h[0].value))
  {
    var h := s.objects[k];
    if i > 0 {
      ReachableSteps(s, k);
      assert Steps(k, h, i);
      PhaseStep(k, h[i - 1].value, h[i]);
      if PhaseAt(h[i].value) == PhaseAt(h[i - 1].value) {
        TransitionTimeIsLastChange(s, k, i - 1);
      }
    }
  }

  lemma PhaseStep(k: Key, before: ApiObject, after: Version<ApiObject, Op>)
    requires AtomicStep(Protocol(), k, before, after) && InMaintenance(after.value) && WellFormed(k, after.value)
    ensures if PhaseAt(before) == PhaseAt(after.value)
            then InMaintenance(before) && TransitionTime(after.value) == TransitionTime(before)
            else after.author.Caller? && TransitionTime(after.value) == after.author.now
  {
    NoneHere(after.value.node.conditions);
    if before.NodeObject? {
      var n := before.node;
      NoneHere(n.conditions);
      if after.author.Caller? {
        match after.author.op {
          case Transition(_, p, m) => SetPhaseMeaning(n.conditions, p, m, after.author.now);
          case UpdateCondition(p, m) => SetPhaseMeaning(n.conditions, p, m, after.author.now);
          case Remove(_) => OthersHasNoMaintenance(n.conditions);
          case _ =>
        }
      }
    }
  }

  /**
   A restart consumes the tracking annotation in the very write that restarts, only a
   halted machine changes its run strategy, and nothing else about the machine changes.
   */
  lemma RestartsConsumeTracking(s: Cluster, k: Key, i: nat)
    requires Reachable(s) && k in s.objects && 0 < i < |s.objects[k]|
    requires k.VmKey? && s.objects[k][i].author.Caller?
    ensures s.objects[k][i].author.op.RestartVm?
    ensures s.objects[k][i - 1].value.VmObject? && s.objects[k][i].value.VmObject?
    ensures var before, after := s.objects[k][i - 1].value.vm, s.objects[k][i].value.vm;
            && before.tracking == s.objects[k][i].author.op.node
            && after.tracking == ""
            && after == before.(tracking := "", strategy := after.strategy)
            && before.strategy.Readable?
            && after.strategy == (if before.strategy != Readable(HALTED) then before.strategy
                                  else if before.saved != "" then Readable(before.saved)
                                  else Readable(RERUN_ON_FAILURE))
  {
    ReachableSteps(s, k);
    assert Steps(k, s.objects[k], i);
  }

  /**
   Each tracking annotation yields at most one restart: between two restarts for the same
   node some other writer has put the annotation back.
   */
  lemma OneRestartPerAnnotation(s: Cluster, k: Key, i: nat, j: nat) returns (m: nat)
    requires Reachable(s) && k in s.objects && k.VmKey? && 0 < i < j < |s.objects[k]|
    requires s.objects[k][i].author.Caller? && s.objects[k][j].author.Caller?
    requires s.objects[k][i].author.op == s.objects[k][j].author.op
    requires s.objects[k][i].author.op.RestartVm?
    ensures i < m < j && s.objects[k][m].author.Environment?
    ensures s.objects[k][m].value.VmObject? && s.objects[k][m].value.vm.tracking == s.objects[k][i].author.op.node
  {
    m := j - 1;
    RestartsConsumeTracking(s, k, j);
    if s.objects[k][m].author.Caller? {
      RestartsConsumeTracking(s, k, m);
    }
  }

  function RestartTasks(node: Name, vms: seq<Key>): (ts: seq<Task<Key, Op>>)
    ensures |ts| == |vms|
    ensures forall i :: 0 <= i < |vms| ==> ts[i] == Task(vms[i], RestartVm(node))
  {
    if vms == [] then [] else [Task(vms[0], RestartVm(node))] + RestartTasks(node, vms[1..])
  }

  /** Disabling: check the phase, uncordon, restart machines, remove the condition. */
  function DisableTasks(node: Name, vms: seq<Key>): seq<Task<Key, Op>> {
    [Task(NodeKey(node), CheckDisable), Task(NodeKey(node), Undrain)]
    + RestartTasks(node, vms)
    + [Task(NodeKey(node), Remove(false))]
  }

  ghost predicate Succeeded(s: Cluster, c: nat, tasks: seq<Task<Key, Op>>) {
    c < |s.calls| && s.calls[c].tasks == tasks && s.calls[c].phase.Succeeded?
  }

  /** A version of `k` no older than call `c`. */
  ghost predicate During(s: Cluster, c: nat, k: Key, v: nat) {
    c < |s.calls| && k in s.objects && k in s.calls[c].since && s.calls[c].since[k] <= v < |s.objects[k]|
  }

  predicate Undrained(n: Node) {
    && !n.unschedulable && !HasDrainRequest(n) && !IsForcedDrainRequested(n)
    && (forall t | t in n.taints :: t.key != DRAIN_TAINT)
  }

  predicate NotTracked(o: ApiObject, node: string) {
    o.Absent? || (o.VmObject? && o.vm.tracking != node)
  }

  /** The evidence of one finished task, read through the protocol's decisions. */
  lemma TaskEvidence(s: Cluster, c: nat, j: nat) returns (v: nat)
    requires Reachable(s) && c < |s.calls| && s.calls[c].phase.Succeeded? && j < |s.calls[c].tasks|
    ensures |s.calls[c].done| == |s.calls[c].tasks| && v == s.calls[c].done[j].at
    ensures During(s, c, s.calls[c].tasks[j].key, v)
    ensures var t := s.calls[c].tasks[j];
            var h := s.objects[t.key];
            || (exists now :: Decide(t.op, h[v].value, now) == Return(true))
            || (v > 0 && h[v].author.Caller? && h[v].author.call == c && h[v].author.op == t.op)
    ensures forall i :: 0 <= i < j && s.calls[c].tasks[i].key == s.calls[c].tasks[j].key ==> s.calls[c].done[i].at <= v
  {
    var objects, es :| StartsFrom(s, objects, es);
    SuccessHasEvidence(Protocol(), objects, es, c);
    v := s.calls[c].done[j].at;
    var t := s.calls[c].tasks[j];
    assert Supports(Protocol(), c, t, s.calls[c].done[j], s.objects[t.key]);
    if s.calls[c].done[j].Observed? {
      var now :| Protocol().decide(t.op, s.objects[t.key][v].value, now) == Return(true);
      assert Decide(t.op, s.objects[t.key][v].value, now) == Return(true);
    }
  }

  /** An update that reports success saw or made the phase and message it was asked for. */
  lemma UpdateSuccess(s: Cluster, c: nat, node: Name, phase: Phase, message: string) returns (v: nat)
    requires Reachable(s) && Succeeded(s, c, [Task(NodeKey(node), UpdateCondition(phase, message))])
    ensures During(s, c, NodeKey(node), v)
    ensures var o := s.objects[NodeKey(node)][v].value; PhaseAt(o) == Some(phase) && MessageAt(o) == Some(message)
  {
    v := TaskEvidence(s, c, 0);
    WrittenOrObserved(s, c, 0, v);
    var h := s.objects[NodeKey(node)];
    if !NothingToDo(UpdateCondition(phase, message), h[v].value) {
      UpdatesAreExact(s, NodeKey(node), v);
    }
  }

  /** A transition that reports success saw the node outside the source phase, or moved it to the target. */
  lemma TransitionSuccess(s: Cluster, c: nat, node: Name, source: Phase, target: Phase, message: string)
    returns (v: nat)
    requires Reachable(s) && Succeeded(s, c, [Task(NodeKey(node), Transition(source, target, message))])
    ensures During(s, c, NodeKey(node), v) && s.objects[NodeKey(node)][v].value.NodeObject?
    ensures var o := s.objects[NodeKey(node)][v].value;
            PhaseAt(o) != Some(source) || (PhaseAt(o) == Some(target) && MessageAt(o) == Some(message))
  {
    v := TaskEvidence(s, c, 0);
    WrittenOrObserved(s, c, 0, v);
    var h := s.objects[NodeKey(node)];
    if !NothingToDo(Transition(source, target, message), h[v].value) {
      TransitionsAreExact(s, NodeKey(node), v);
    }
  }

  /** An enable that reports success has itself put the request on the node. */
  lemma EnableSuccess(s: Cluster, c: nat, node: Name, force: bool) returns (v: nat)
    requires Reachable(s) && Succeeded(s, c, [Task(NodeKey(node), Enable(force))])
    ensures During(s, c, NodeKey(node), v) && v > 0
    ensures var version := s.objects[NodeKey(node)][v];
            && version.author.Caller? && version.author.call == c && version.value.NodeObject?
            && HasDrainRequest(version.value.node) && (IsForcedDrainRequested(version.value.node) <==> force)
  {
    v := TaskEvidence(s, c, 0);
    WrittenOrObserved(s, c, 0, v);
    EnableIsGuarded(s, NodeKey(node), v);
  }

  /** A clear that reports success saw or made the condition absent. */
  lemma ClearSuccess(s: Cluster, c: nat, node: Name) returns (v: nat)
    requires Reachable(s) && Succeeded(s, c, [Task(NodeKey(node), Remove(true))])
    ensures During(s, c, NodeKey(node), v) && !InMaintenance(s.objects[NodeKey(node)][v].value)
  {
    v := EndedMaintenance(s, c, 0);
  }

  lemma WrittenOrObserved(s: Cluster, c: nat, j: nat, v: nat)
    requires Reachable(s) && c < |s.calls| && s.calls[c].phase.Succeeded? && j < |s.calls[c].tasks|
    requires During(s, c, s.calls[c].tasks[j].key, v)
    requires var t := s.calls[c].tasks[j];
             var h := s.objects[t.key];
             || (exists now :: Decide(t.op, h[v].value, now) == Return(true))
             || (v > 0 && h[v].author.Caller? && h[v].author.call == c && h[v].author.op == t.op)
    ensures var t := s.calls[c].tasks[j];
            var h := s.objects[t.key];
            || NothingToDo(t.op, h[v].value)
            || (v > 0 && h[v].author.Caller? && h[v].author.call == c && h[v].author.op == t.op)
  {
    var t := s.calls[c].tasks[j];
    var o := s.objects[t.key][v].value;
    if exists now :: Decide(t.op, o, now) == Return(true) {
      var now :| Decide(t.op, o, now) == Return(true);
      DecisionsAreExact(t.op, o, now);
    }
  }

  /**
   A call that fails with an answer to every request either met five conflicts, or came upon a version,
   no older than the call, on which its operation may neither write nor leave things as they are.
   */
  lemma FailuresAreJustified(s: Cluster, c: nat, objects: map<Key, ApiObject>, es: seq<Event<Key, ApiObject, Op>>)
    requires StartsFrom(s, objects, es) && c < |s.calls| && s.calls[c].phase.Failed? && !Disturbed(es, c)
    ensures |s.calls[c].done| < |s.calls[c].tasks|
    ensures var t := s.calls[c].Current();
            || |s.calls[c].conflicts| == RETRY_STEPS
            || exists v: nat :: During(s, c, t.key, v) && Refuses(t.op, s.objects[t.key][v].value)
  {
    FailureHasCause(Protocol(), objects, es, c);
    var t := s.calls[c].Current();
    match s.calls[c].phase.cause {
      case Refused(at, now) =>
        DecisionsAreExact(t.op, s.objects[t.key][at].value, now);
        assert During(s, c, t.key, at) && Refuses(t.op, s.objects[t.key][at].value);
      case _ =>
    }
  }

  /** At some moment of call `c` the machine was gone or not tracked for the node. */
  ghost predicate FreedDuring(s: Cluster, c: nat, k: Key, node: string) {
    exists v: nat :: During(s, c, k, v) && NotTracked(s.objects[k][v].value, node)
  }

  lemma RestartedMachine(s: Cluster, c: nat, j: nat, node: Name)
    requires Reachable(s) && c < |s.calls| && s.calls[c].phase.Succeeded? && j < |s.calls[c].tasks|
    requires s.calls[c].tasks[j].key.VmKey? && s.calls[c].tasks[j].op == RestartVm(node)
    ensures FreedDuring(s, c, s.calls[c].tasks[j].key, node)
  {
    var v := TaskEvidence(s, c, j);
    var t := s.calls[c].tasks[j];
    ReachableSteps(s, t.key);
    assert Steps(t.key, s.objects[t.key], v);
    assert NotTracked(s.objects[t.key][v].value, node);
  }

  /** What the cache says of a machine: its maintenance strategy label and its tracking annotation. */
  datatype CachedVm = CachedVm(namespace: string, name: string, strategy: Option<string>, tracking: string)

  predicate IsSelected(vm: CachedVm, node: Name, strategy: string) {
    vm.strategy == Some(strategy) && vm.tracking == node
  }

  /** The machines a restart deals with, in the order of the cache. */
  function Selected(cache: seq<CachedVm>, node: Name, strategy: string): (r: seq<Key>)
    ensures forall k | k in r :: k.VmKey?
    ensures forall vm | vm in cache && IsSelected(vm, node, strategy) :: VmKey(vm.namespace, vm.name) in r
    ensures forall k | k in r ::
              exists vm :: vm in cache && IsSelected(vm, node, strategy) && k == VmKey(vm.namespace, vm.name)
  {
    if cache == [] then []
    else
      assert cache == [cache[0]] + cache[1..];
      (if IsSelected(cache[0], node, strategy) then [VmKey(cache[0].namespace, cache[0].name)] else [])
      + Selected(cache[1..], node, strategy)
  }

  /**
   A restart that reports success has dealt with every machine that its cache showed with the label and
   the annotation.
   */
  lemma RestartSuccess(s: Cluster, c: nat, node: Name, strategy: string, cache: seq<CachedVm>)
    requires Reachable(s) && Succeeded(s, c, RestartTasks(node, Selected(cache, node, strategy)))
    ensures forall vm | vm in cache && vm.strategy == Some(strategy) && vm.tracking == node ::
              FreedDuring(s, c, VmKey(vm.namespace, vm.name), node)
  {
    var vms := Selected(cache, node, strategy);
    forall i | 0 <= i < |vms|
      ensures FreedDuring(s, c, vms[i], node)
    {
      assert vms[i] in vms;
      RestartedMachine(s, c, i, node);
    }
  }

  /** The three node tasks of a disable, each with the version it rests on. */
  lemma CheckedPhase(s: Cluster, c: nat, j: nat) returns (v: nat)
    requires Reachable(s) && c < |s.calls| && s.calls[c].phase.Succeeded? && j < |s.calls[c].tasks|
    requires s.calls[c].tasks[j].key.NodeKey? && s.calls[c].tasks[j].op == CheckDisable
    ensures |s.calls[c].done| == |s.calls[c].tasks| && v == s.calls[c].done[j].at
    ensures During(s, c, s.calls[c].tasks[j].key, v)
    ensures var o := s.objects[s.calls[c].tasks[j].key][v].value;
            o.NodeObject? && CanDisable(o.node)
  {
    v := TaskEvidence(s, c, j);
    var k := s.calls[c].tasks[j].key;
    ReachableSteps(s, k);
    assert Steps(k, s.objects[k], v);
  }

  lemma UndrainedNode(s: Cluster, c: nat, j: nat) returns (v: nat)
    requires Reachable(s) && c < |s.calls| && s.calls[c].phase.Succeeded? && j < |s.calls[c].tasks|
    requires s.calls[c].tasks[j].key.NodeKey? && s.calls[c].tasks[j].op == Undrain
    ensures |s.calls[c].done| == |s.calls[c].tasks| && v == s.calls[c].done[j].at
    ensures During(s, c, s.calls[c].tasks[j].key, v)
    ensures forall i :: 0 <= i < j && s.calls[c].tasks[i].key == s.calls[c].tasks[j].key ==> s.calls[c].done[i].at <= v
    ensures var h := s.objects[s.calls[c].tasks[j].key];
            && h[v].author.Caller? && h[v].author.call == c && h[v].author.op == Undrain
            && h[v].value.NodeObject? && Undrained(h[v].value.node)
  {
    v := TaskEvidence(s, c, j);
    var k := s.calls[c].tasks[j].key;
    ReachableSteps(s, k);
    var h := s.objects[k];
    assert Steps(k, h, v);
    FilterMembers(NotDrain, h[v - 1].value.node.taints);
  }

  lemma EndedMaintenance(s: Cluster, c: nat, j: nat) returns (v: nat)
    requires Reachable(s) && c < |s.calls| && s.calls[c].phase.Succeeded? && j < |s.calls[c].tasks|
    requires s.calls[c].tasks[j].key.NodeKey? && s.calls[c].tasks[j].op.Remove?
    ensures |s.calls[c].done| == |s.calls[c].tasks| && v == s.calls[c].done[j].at
    ensures During(s, c, s.calls[c].tasks[j].key, v)
    ensures forall i :: 0 <= i < j && s.calls[c].tasks[i].key == s.calls[c].tasks[j].key ==> s.calls[c].done[i].at <= v
    ensures !InMaintenance(s.objects[s.calls[c].tasks[j].key][v].value)
  {
    v := TaskEvidence(s, c, j);
    var k := s.calls[c].tasks[j].key;
    ReachableSteps(s, k);
    var h := s.objects[k];
    assert Steps(k, h, v);
    if InMaintenance(h[v].value) {
      OthersHasNoMaintenance(h[v - 1].value.node.conditions);
    }
  }

  /**
   A disable that reports success saw a phase that may be disabled, then uncordoned the
   node and dropped its drain taint and intent, then saw or made the condition absent;
   every machine to be restarted was gone or untracked at some moment of the call.
   */
  lemma DisableSuccess(s: Cluster, c: nat, node: Name, cache: seq<CachedVm>)
    returns (checked: nat, undrained: nat, ended: nat)
    requires Reachable(s) && Succeeded(s, c, DisableTasks(node, Selected(cache, node, RESTART_AFTER_DISABLE)))
    ensures During(s, c, NodeKey(node), checked) && checked <= undrained <= ended < |s.objects[NodeKey(node)]|
    ensures var h := s.objects[NodeKey(node)];
            && h[checked].value.NodeObject? && CanDisable(h[checked].value.node)
            && h[undrained].author.Caller? && h[undrained].author.call == c && h[undrained].author.op == Undrain
            && h[undrained].value.NodeObject? && Undrained(h[undrained].value.node)
            && !InMaintenance(h[ended].value)
    ensures forall vm | vm in cache && vm.strategy == Some(RESTART_AFTER_DISABLE) && vm.tracking == node ::
              FreedDuring(s, c, VmKey(vm.namespace, vm.name), node)
  {
    var vms := Selected(cache, node, RESTART_AFTER_DISABLE);
    assert s.calls[c].tasks[|vms| + 2] == Task(NodeKey(node), Remove(false));
    checked := CheckedPhase(s, c, 0);
    undrained := UndrainedNode(s, c, 1);
    ended := EndedMaintenance(s, c, |vms| + 2);
    forall i | 0 <= i < |vms|
      ensures FreedDuring(s, c, vms[i], node)
    {
      assert s.calls[c].tasks[i + 2] == Task(vms[i], RestartVm(node)) && vms[i] in vms;
      RestartedMachine(s, c, i + 2, node);
    }
  }
}
