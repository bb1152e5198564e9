/**
 Node status conditions, and the in-place edits of the MaintenanceMode condition.
 The methods work on a node's condition list as the source does; the functions beside
 them say what the list becomes, and the lemmas what that means for the list's reader.
 */
module NodeConditions {

  datatype Option<T> = None | Some(value: T)

  datatype Status = ConditionTrue | ConditionFalse | ConditionUnknown

  datatype Reason = Validating | Draining | Evacuating | Completed | Error | OtherReason(name: string)

  datatype ConditionType = MaintenanceMode | OtherType(name: string)

  datatype Condition = Condition(
    kind: ConditionType,
    status: Status,
    reason: Reason,
    message: string,
    lastTransition: int,
    lastHeartbeat: int)

  /** Status and reason together name the phase of the maintenance state machine. */
  datatype Phase = Phase(status: Status, reason: Reason)

  /** The MaintenanceMode conditions of a list, in order. */
  function Maintenance(cs: seq<Condition>): seq<Condition> {
    if cs == [] then []
    else (if cs[0].kind.MaintenanceMode? then [cs[0]] else []) + Maintenance(cs[1..])
  }

  /** Every other condition of a list, in order. */
  function Others(cs: seq<Condition>): seq<Condition> {
    if cs == [] then []
    else (if cs[0].kind.MaintenanceMode? then [] else [cs[0]]) + Others(cs[1..])
  }

  /** What readers of the MaintenanceMode condition see: its first occurrence. */
  function Find(cs: seq<Condition>): Option<Condition> {
    if cs == [] then None
    else if cs[0].kind.MaintenanceMode? then Some(cs[0])
    else Find(cs[1..])
  }

  function PhaseOf(cs: seq<Condition>): Option<Phase> {
    match Find(cs)
    case None => None
    case Some(c) => Some(Phase(c.status, c.reason))
  }

  function FirstIndex(cs: seq<Condition>): (i: nat)
    ensures i <= |cs|
    ensures i < |cs| ==> cs[i].kind.MaintenanceMode? && Find(cs) == Some(cs[i])
    ensures forall j :: 0 <= j < i ==> !cs[j].kind.MaintenanceMode?
    ensures i == |cs| <==> Find(cs).None?
  {
    if cs == [] || cs[0].kind.MaintenanceMode? then 0 else 1 + FirstIndex(cs[1..])
  }

  /** One MaintenanceMode condition brought to a phase and message at time `now`. */
  function Advance(c: Condition, p: Phase, message: string, now: int): Condition {
    if c.status == p.status && c.reason == p.reason && c.message == message then c
    else
      Condition(MaintenanceMode, p.status, p.reason, message,
                if c.status == p.status && c.reason == p.reason then c.lastTransition else now,
                now)
  }

  /** The condition list after the MaintenanceMode condition is set. */
  function SetPhase(cs: seq<Condition>, p: Phase, message: string, now: int): seq<Condition> {
    var i := FirstIndex(cs);
    if i < |cs| then cs[i := Advance(cs[i], p, message, now)]
    else cs + [Condition(MaintenanceMode, p.status, p.reason, message, now, now)]
  }

  lemma ConcatAssociates(a: seq<Condition>, b: seq<Condition>, c: seq<Condition>)
    ensures a + (b + c) == (a + b) + c
  {
  }

  lemma {:induction false} OthersAppend(a: seq<Condition>, b: seq<Condition>)
    ensures Others(a + b) == Others(a) + Others(b)
  {
    if a == [] {
      assert a + b == b;
    } else {
      OthersAppend(a[1..], b);
      assert (a + b)[0] == a[0] && (a + b)[1..] == a[1..] + b;
      var first := if a[0].kind.MaintenanceMode? then [] else [a[0]];
      ConcatAssociates(first, Others(a[1..]), Others(b));
    }
  }

  lemma {:induction false} MaintenanceAppend(a: seq<Condition>, b: seq<Condition>)
    ensures Maintenance(a + b) == Maintenance(a) + Maintenance(b)
  {
    if a == [] {
      assert a + b == b;
    } else {
      MaintenanceAppend(a[1..], b);
      assert (a + b)[0] == a[0] && (a + b)[1..] == a[1..] + b;
      var first := if a[0].kind.MaintenanceMode? then [a[0]] else [];
      ConcatAssociates(first, Maintenance(a[1..]), Maintenance(b));
    }
  }

  lemma {:induction false} ReplaceMaintenance(cs: seq<Condition>, i: nat, c: Condition)
    requires i < |cs| && cs[i].kind.MaintenanceMode? && c.kind.MaintenanceMode?
    ensures Others(cs[i := c]) == Others(cs)
    ensures |Maintenance(cs[i := c])| == |Maintenance(cs)|
  {
    assert cs == cs[..i] + [cs[i]] + cs[i + 1..];
    assert cs[i := c] == cs[..i] + [c] + cs[i + 1..];
    forall m | m in {c, cs[i]}
      ensures Others(cs[..i] + [m] + cs[i + 1..]) == Others(cs[..i]) + Others(cs[i + 1..])
      ensures |Maintenance(cs[..i] + [m] + cs[i + 1..])| == |Maintenance(cs[..i])| + 1 + |Maintenance(cs[i + 1..])|
    {
      OthersAppend(cs[..i] + [m], cs[i + 1..]);
      OthersAppend(cs[..i], [m]);
      MaintenanceAppend(cs[..i] + [m], cs[i + 1..]);
      MaintenanceAppend(cs[..i], [m]);
    }
  }

  lemma {:induction false} FindAt(cs: seq<Condition>, i: nat)
    requires i < |cs| && cs[i].kind.MaintenanceMode?
    requires forall j :: 0 <= j < i ==> !cs[j].kind.MaintenanceMode?
    ensures Find(cs) == Some(cs[i])
  {
    if i > 0 {
      FindAt(cs[1..], i - 1);
    }
  }

  /**
   Setting the condition moves the node to the phase, keeps the transition time exactly
   when the phase did not change, and leaves every other condition and its place alone.
   */
  lemma SetPhaseMeaning(cs: seq<Condition>, p: Phase, message: string, now: int)
    ensures Others(SetPhase(cs, p, message, now)) == Others(cs)
    ensures PhaseOf(SetPhase(cs, p, message, now)) == Some(p)
    ensures Find(SetPhase(cs, p, message, now)).value.message == message
    ensures Find(SetPhase(cs, p, message, now)).value.lastTransition ==
            if PhaseOf(cs) == Some(p) then Find(cs).value.lastTransition else now
    ensures |Maintenance(SetPhase(cs, p, message, now))| == if Maintenance(cs) == [] then 1 else |Maintenance(cs)|
  {
    var i := FirstIndex(cs);
    var cs' := SetPhase(cs, p, message, now);
    NoneHere(cs);
    if i < |cs| {
      ReplaceMaintenance(cs, i, cs'[i]);
    } else {
      OthersAppend(cs, [cs'[i]]);
      MaintenanceAppend(cs, [cs'[i]]);
    }
    FindAt(cs', i);
  }

  lemma NoneHere(cs: seq<Condition>)
    ensures Maintenance(cs) == [] <==> Find(cs).None?
    ensures Maintenance(cs) != [] ==> Find(cs) == Some(Maintenance(cs)[0])
  {
  }

  /** Dropping the condition leaves a list that has none and keeps all the rest. */
  lemma {:induction false} OthersHasNoMaintenance(cs: seq<Condition>)
    ensures Maintenance(Others(cs)) == [] && Find(Others(cs)).None?
    ensures Others(Others(cs)) == Others(cs)
  {
    if cs != [] {
      OthersHasNoMaintenance(cs[1..]);
      var head := if cs[0].kind.MaintenanceMode? then [] else [cs[0]];
      OthersAppend(head, Others(cs[1..]));
      MaintenanceAppend(head, Others(cs[1..]));
      NoneHere(Others(cs));
    }
  }

  /** A node's status as the source edits it: a list of conditions changed in place. */
  class NodeStatus {
    var conditions: seq<Condition>

    constructor (initial: seq<Condition>)
      ensures conditions == initial
    {
      conditions := initial;
    }

    method FindNodeStatusCondition(kind: ConditionType) returns (found: Option<Condition>)
      ensures found.None? <==> forall c | c in conditions :: c.kind != kind
      ensures found.Some? ==> exists i ::
                && 0 <= i < |conditions| && conditions[i] == found.value && conditions[i].kind == kind
                && forall j :: 0 <= j < i ==> conditions[j].kind != kind
      ensures kind == MaintenanceMode ==> found == Find(conditions)
    {
      var i := 0;
      while i < |conditions|
        invariant 0 <= i <= |conditions|
        invariant forall j :: 0 <= j < i ==> conditions[j].kind != kind
      {
        if conditions[i].kind == kind {
          if kind == MaintenanceMode {
            FindAt(conditions, i);
          }
          return Some(conditions[i]);
        }
        i := i + 1;
      }
      if kind == MaintenanceMode {
        assert FirstIndex(conditions) == |conditions|;
      }
      found := None;
    }

    method SetMaintenanceModeCondition(p: Phase, message: string, now: int) returns (changed: bool)
      modifies this
      ensures conditions == SetPhase(old(conditions), p, message, now)
      ensures changed <==> conditions != old(conditions)
    {
      var i := 0;
      while i < |conditions|
        invariant 0 <= i <= FirstIndex(conditions)
        invariant conditions == old(conditions)
      {
        var c := conditions[i];
        if !c.kind.MaintenanceMode? {
          i := i + 1;
          continue;
        }
        if c.status == p.status && c.reason == p.reason && c.message == message {
          return false;
        }
        if c.status != p.status || c.reason != p.reason {
          c := c.(lastTransition := now);
        }
        c := c.(lastHeartbeat := now, status := p.status, reason := p.reason, message := message);
        conditions := conditions[i := c];
        assert conditions[i] != old(conditions)[i];
        return true;
      }
      conditions := conditions + [Condition(MaintenanceMode, p.status, p.reason, message, now, now)];
      assert |conditions| != |old(conditions)|;
      changed := true;
    }

    method RemoveMaintenanceModeCondition() returns (removed: bool)
      modifies this
      ensures conditions == Others(old(conditions))
      ensures removed <==> Find(old(conditions)).Some?
    {
      var kept := [];
      var i := 0;
      while i < |conditions|
        invariant 0 <= i <= |conditions|
        invariant conditions == old(conditions)
        invariant kept == Others(conditions[..i])
      {
        assert conditions[..i + 1] == conditions[..i] + [conditions[i]];
        OthersAppend(conditions[..i], [conditions[i]]);
        if !conditions[i].kind.MaintenanceMode? {
          kept := kept + [conditions[i]];
        }
        i := i + 1;
      }
      assert conditions[..i] == conditions;
      OthersLength(conditions);
      if |kept| == |conditions| {
        return false;
      }
      conditions := kept;
      removed := true;
    }
  }

  /** Dropping shortens a list exactly when it had the condition. */
  lemma {:induction false} OthersLength(cs: seq<Condition>)
    ensures |Others(cs)| <= |cs|
    ensures |Others(cs)| == |cs| <==> Find(cs).None?
    ensures Find(cs).None? ==> Others(cs) == cs
  {
    if cs != [] {
      OthersLength(cs[1..]);
      assert cs == [cs[0]] + cs[1..];
    }
  }
}
