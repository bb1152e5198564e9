/**
 Status conditions of a virtual machine backup: one entry per type, updated in place, with the
 time of the last change and the time of the last flip of the status.
 */
module BackupConditions {

  datatype Option<T> = None | Some(value: T)

  datatype Kind = Ready | Progressing | MetadataReady

  datatype Status = True | False | Unknown

  datatype Condition = Condition(
    kind: Kind,
    status: Status,
    reason: string,
    message: string,
    updated: int,
    transitioned: int)

  /** A condition built now: both times are the present. */
  function Now(kind: Kind, status: Status, reason: string, message: string, time: int): Condition {
    Condition(kind, status, reason, message, time, time)
  }

  predicate SameContent(a: Condition, b: Condition) {
    a.status == b.status && a.reason == b.reason && a.message == b.message
  }

  function Find(cs: seq<Condition>, kind: Kind): Option<Condition> {
    if cs == [] then None else if cs[0].kind == kind then Some(cs[0]) else Find(cs[1..], kind)
  }

  predicate OnePerKind(cs: seq<Condition>) {
    forall i, j :: 0 <= i < j < |cs| ==> cs[i].kind != cs[j].kind
  }

  /** The entry that replaces `was` when `c` is applied. */
  function Merge(was: Condition, c: Condition): Condition {
    if SameContent(was, c) then was
    else if was.status == c.status then c.(transitioned := was.transitioned)
    else c
  }

  function Applied(cs: seq<Condition>, c: Condition): seq<Condition> {
    if cs == [] then [c]
    else if cs[0].kind == c.kind then [Merge(cs[0], c)] + cs[1..]
    else [cs[0]] + Applied(cs[1..], c)
  }

  /** Only the entry of the kind of `c` changes; a missing one is added. */
  lemma {:induction false} AppliedMeaning(cs: seq<Condition>, c: Condition, kind: Kind)
    ensures kind != c.kind ==> Find(Applied(cs, c), kind) == Find(cs, kind)
    ensures var was := Find(cs, c.kind);
            Find(Applied(cs, c), c.kind) == Some(if was.Some? then Merge(was.value, c) else c)
  {
    if cs != [] {
      var r := Applied(cs, c);
      assert r[1..] == if cs[0].kind == c.kind then cs[1..] else Applied(cs[1..], c);
      AppliedMeaning(cs[1..], c, kind);
    }
  }

  /** The kinds listed stay the same and in order, but for one added at the end. */
  lemma {:induction false} AppliedKinds(cs: seq<Condition>, c: Condition)
    ensures |cs| <= |Applied(cs, c)| <= |cs| + 1
    ensures forall i :: 0 <= i < |cs| ==> Applied(cs, c)[i].kind == cs[i].kind
    ensures |Applied(cs, c)| == |cs| + 1 ==>
              Applied(cs, c)[|cs|] == c && forall i :: 0 <= i < |cs| ==> cs[i].kind != c.kind
  {
    if cs != [] && cs[0].kind != c.kind {
      AppliedKinds(cs[1..], c);
      var r := Applied(cs, c);
      assert r[1..] == Applied(cs[1..], c);
      assert forall i :: 1 <= i < |cs| ==> cs[i] == cs[1..][i - 1];
      assert forall i :: 1 <= i < |r| ==> r[i] == r[1..][i - 1];
    }
  }

  lemma AppliedKeepsOnePerKind(cs: seq<Condition>, c: Condition)
    requires OnePerKind(cs)
    ensures OnePerKind(Applied(cs, c))
  {
    AppliedKinds(cs, c);
  }

  predicate NoneBefore(cs: seq<Condition>, kind: Kind, i: nat)
    requires i <= |cs|
  {
    forall j :: 0 <= j < i ==> cs[j].kind != kind
  }

  lemma SplitAt<T>(s: seq<T>, i: nat)
    requires i <= |s|
    ensures s == s[..i] + s[i..]
  {
  }

  lemma UpdateAt<T>(s: seq<T>, i: nat, x: T)
    requires i < |s|
    ensures s[i..][0] == s[i] && s[i := x] == s[..i] + ([x] + s[i..][1..])
  {
  }

  /** Entries of other kinds in front are passed over. */
  lemma {:induction false} AppliedSkips(front: seq<Condition>, rest: seq<Condition>, c: Condition)
    requires NoneBefore(front, c.kind, |front|)
    ensures Applied(front + rest, c) == front + Applied(rest, c)
  {
    if front == [] {
      assert front + rest == rest;
    } else {
      AppliedSkips(front[1..], rest, c);
      assert (front + rest)[0] == front[0] && (front + rest)[1..] == front[1..] + rest;
    }
  }

  /** The first entry of the kind is replaced in place; without one, `c` goes to the end. */
  lemma AppliedPlace(cs: seq<Condition>, c: Condition, i: nat)
    requires i <= |cs| && NoneBefore(cs, c.kind, i) && (i < |cs| ==> cs[i].kind == c.kind)
    ensures Applied(cs, c) == if i < |cs| then cs[i := Merge(cs[i], c)] else cs + [c]
  {
    SplitAt(cs, i);
    AppliedSkips(cs[..i], cs[i..], c);
    if i < |cs| {
      UpdateAt(cs, i, Merge(cs[i], c));
    }
  }

  /** All conditions of a run, applied one after the other to an empty status. */
  function After(run: seq<Condition>): seq<Condition> {
    if run == [] then [] else Applied(After(run[..|run| - 1]), run[|run| - 1])
  }

  /** The conditions of one kind that were applied. */
  function OfKind(run: seq<Condition>, kind: Kind): seq<Condition> {
    if run == [] then []
    else OfKind(run[..|run| - 1], kind) + if run[|run| - 1].kind == kind then [run[|run| - 1]] else []
  }

  /** `i` is where the last stretch of equal statuses starts. */
  predicate LastFlip(cs: seq<Condition>, i: nat) {
    && i < |cs|
    && (forall j :: i <= j < |cs| ==> cs[j].status == cs[i].status)
    && (i > 0 ==> cs[i - 1].status != cs[i].status)
  }

  /** `i` is where the last stretch of equal contents starts. */
  predicate LastChange(cs: seq<Condition>, i: nat) {
    && i < |cs|
    && (forall j :: i <= j < |cs| ==> SameContent(cs[j], cs[i]))
    && (i > 0 ==> !SameContent(cs[i - 1], cs[i]))
  }

  function FlipStart(cs: seq<Condition>): nat
    requires cs != []
  {
    var n := |cs| - 1;
    if n == 0 || cs[n].status != cs[n - 1].status then n else FlipStart(cs[..n])
  }

  function ChangeStart(cs: seq<Condition>): nat
    requires cs != []
  {
    var n := |cs| - 1;
    if n == 0 || !SameContent(cs[n], cs[n - 1]) then n else ChangeStart(cs[..n])
  }

  lemma {:induction false} FlipStartMeaning(cs: seq<Condition>)
    requires cs != []
    ensures LastFlip(cs, FlipStart(cs))
  {
    if |cs| > 1 {
      FlipStartMeaning(cs[..|cs| - 1]);
    }
  }

  lemma {:induction false} ChangeStartMeaning(cs: seq<Condition>)
    requires cs != []
    ensures LastChange(cs, ChangeStart(cs))
  {
    if |cs| > 1 {
      ChangeStartMeaning(cs[..|cs| - 1]);
    }
  }

  lemma {:induction false} StartsInside(cs: seq<Condition>)
    requires cs != []
    ensures FlipStart(cs) < |cs| && ChangeStart(cs) < |cs|
  {
    if |cs| > 1 {
      StartsInside(cs[..|cs| - 1]);
    }
  }

  lemma FlipStartOfLonger(cs: seq<Condition>, c: Condition)
    requires cs != []
    ensures FlipStart(cs + [c]) == if c.status == cs[|cs| - 1].status then FlipStart(cs) else |cs|
  {
    var all := cs + [c];
    assert all[..|cs|] == cs && all[|cs|] == c && all[|cs| - 1] == cs[|cs| - 1];
  }

  lemma ChangeStartOfLonger(cs: seq<Condition>, c: Condition)
    requires cs != []
    ensures ChangeStart(cs + [c]) == if SameContent(c, cs[|cs| - 1]) then ChangeStart(cs) else |cs|
  {
    var all := cs + [c];
    assert all[..|cs|] == cs && all[|cs|] == c && all[|cs| - 1] == cs[|cs| - 1];
  }

  predicate Stamped(run: seq<Condition>) {
    forall i :: 0 <= i < |run| ==> run[i].transitioned == run[i].updated
  }

  /** The last condition applied, dated by the last change of the content and the last flip of the status. */
  function Dated(all: seq<Condition>): Option<Condition> {
    if all == [] then None
    else
      StartsInside(all);
      Some(all[|all| - 1].(updated := all[ChangeStart(all)].updated, transitioned := all[FlipStart(all)].updated))
  }

  lemma DatedByMerge(all: seq<Condition>, c: Condition)
    requires c.transitioned == c.updated && forall i :: 0 <= i < |all| ==> all[i].kind == c.kind
    ensures Dated(all + [c]) == Some(if all == [] then c else Merge(Dated(all).value, c))
  {
    if all != [] {
      StartsInside(all);
      FlipStartOfLonger(all, c);
      ChangeStartOfLonger(all, c);
    }
  }

  /**
   In every run, the entry of a kind is the last one applied, dated by the last change of its
   content and by the last flip of its status.
   */
  lemma {:induction false} TransitionTimeIsLastFlip(run: seq<Condition>, kind: Kind)
    requires Stamped(run)
    ensures Find(After(run), kind) == Dated(OfKind(run, kind))
  {
    if run != [] {
      var n := |run| - 1;
      TransitionTimeIsLastFlip(run[..n], kind);
      AppliedMeaning(After(run[..n]), run[n], kind);
      if run[n].kind == kind {
        AllOfKind(run[..n], kind);
        DatedByMerge(OfKind(run[..n], kind), run[n]);
      } else {
        assert OfKind(run, kind) == OfKind(run[..n], kind);
      }
    }
  }

  lemma {:induction false} AllOfKind(run: seq<Condition>, kind: Kind)
    ensures forall i :: 0 <= i < |OfKind(run, kind)| ==> OfKind(run, kind)[i].kind == kind
  {
    if run != [] {
      AllOfKind(run[..|run| - 1], kind);
    }
  }

  datatype Error = Error(time: int, message: string)

  /** A call, with the times at which it looks at the clock. */
  datatype Call =
    | SetProcessing(first: int, second: int)
    | SetChangeToNonReady(reason: string, first: int)
    | SetComplete(created: int, first: int, second: int)
    | SetError(message: string, time: int, first: int, second: int)
    | UpdateMetadataReady(first: int)

  datatype BackupStatus = BackupStatus(conditions: seq<Condition>, error: Option<Error>, created: Option<int>)

  const CHANGE_TO_NON_READY := "Change back to non-ready"

  /** The conditions a call applies, in order. */
  function Issued(e: Call): seq<Condition> {
    match e
    case SetProcessing(t, u) =>
      [Now(Progressing, True, "", "Operation in progress", t), Now(Ready, False, "", "Not ready", u)]
    case SetChangeToNonReady(reason, t) => [Now(Ready, False, reason, CHANGE_TO_NON_READY, t)]
    case SetComplete(_, t, u) =>
      [Now(Progressing, False, "", "Operation complete", t), Now(Ready, True, "", "Operation complete", u)]
    case SetError(m, _, t, u) => [Now(Progressing, False, "Error", m, t), Now(Ready, False, "", "Not Ready", u)]
    case UpdateMetadataReady(t) => [Now(MetadataReady, True, "", "", t)]
  }

  function ApplyAll(cs: seq<Condition>, new_: seq<Condition>): seq<Condition> {
    if new_ == [] then cs else Applied(ApplyAll(cs, new_[..|new_| - 1]), new_[|new_| - 1])
  }

  /** What a call makes of the status. */
  function Perform(s: BackupStatus, e: Call): BackupStatus {
    BackupStatus(
      ApplyAll(s.conditions, Issued(e)),
      match e case SetComplete(_, _, _) => None case SetError(m, t, _, _) => Some(Error(t, m)) case _ => s.error,
      match e case SetComplete(t, _, _) => Some(t) case _ => s.created)
  }

  const EMPTY := BackupStatus([], None, None)

  function Final(calls: seq<Call>): BackupStatus {
    if calls == [] then EMPTY else Perform(Final(calls[..|calls| - 1]), calls[|calls| - 1])
  }

  function IssuedBy(calls: seq<Call>): seq<Condition> {
    if calls == [] then [] else IssuedBy(calls[..|calls| - 1]) + Issued(calls[|calls| - 1])
  }

  predicate StatusIs(cs: seq<Condition>, kind: Kind, status: Status) {
    Find(cs, kind).Some? && Find(cs, kind).value.status == status
  }

  /** One entry per kind; a ready backup is not in progress and has no error. */
  predicate Sound(s: BackupStatus) {
    && OnePerKind(s.conditions)
    && (StatusIs(s.conditions, Ready, True) ==> !StatusIs(s.conditions, Progressing, True) && s.error.None?)
  }

  lemma ApplyTwo(cs: seq<Condition>, c: Condition, d: Condition)
    ensures ApplyAll(cs, [c]) == Applied(cs, c)
    ensures ApplyAll(cs, [c, d]) == Applied(Applied(cs, c), d)
  {
    assert [c][..0] == [] && [c, d][..1] == [c];
  }

  lemma AppliedStatus(cs: seq<Condition>, c: Condition, kind: Kind, status: Status)
    ensures StatusIs(Applied(cs, c), kind, status) <==>
            if kind == c.kind then status == c.status else StatusIs(cs, kind, status)
  {
    AppliedMeaning(cs, c, kind);
  }

  /**
   The entry of a kind has this content.  It is dated `time` if that is new content, and dated so for the
   flip if it is a new status.
   */
  ghost predicate Shows(before: seq<Condition>, after: seq<Condition>, kind: Kind, status: Status, reason: string,
                        message: string, time: int) {
    && Find(after, kind).Some?
    && var was, now := Find(before, kind), Find(after, kind).value;
       && now.kind == kind && now.status == status && now.reason == reason && now.message == message
       && now.updated == (if was.Some? && SameContent(was.value, now) then was.value.updated else time)
       && now.transitioned == (if was.Some? && was.value.status == status then was.value.transitioned else time)
  }

  predicate Untouched(before: seq<Condition>, after: seq<Condition>, kind: Kind) {
    Find(after, kind) == Find(before, kind)
  }

  /** What each call leaves for the readers of the status: contents, times, error and creation time. */
  lemma CallOutcome(s: BackupStatus, e: Call)
    ensures var r := Perform(s, e);
            var old_, new_ := s.conditions, r.conditions;
            match e
            case SetProcessing(t, u) =>
              && Shows(old_, new_, Progressing, True, "", "Operation in progress", t)
              && Shows(old_, new_, Ready, False, "", "Not ready", u)
              && Untouched(old_, new_, MetadataReady) && r.error == s.error && r.created == s.created
            case SetChangeToNonReady(reason, t) =>
              && Shows(old_, new_, Ready, False, reason, "Change back to non-ready", t)
              && Untouched(old_, new_, Progressing) && Untouched(old_, new_, MetadataReady)
              && r.error == s.error && r.created == s.created
            case SetComplete(created, t, u) =>
              && Shows(old_, new_, Progressing, False, "", "Operation complete", t)
              && Shows(old_, new_, Ready, True, "", "Operation complete", u)
              && Untouched(old_, new_, MetadataReady) && r.error.None? && r.created == Some(created)
            case SetError(m, time, t, u) =>
              && Shows(old_, new_, Progressing, False, "Error", m, t)
              && Shows(old_, new_, Ready, False, "", "Not Ready", u)
              && Untouched(old_, new_, MetadataReady) && r.error == Some(Error(time, m)) && r.created == s.created
            case UpdateMetadataReady(t) =>
              && Shows(old_, new_, MetadataReady, True, "", "", t)
              && Untouched(old_, new_, Progressing) && Untouched(old_, new_, Ready)
              && r.error == s.error && r.created == s.created
  {
    var new_ := Issued(e);
    var c, d := new_[0], new_[|new_| - 1];
    ApplyTwo(s.conditions, c, d);
    if |new_| == 1 {
      EntryAfterOne(s.conditions, c, Ready);
      EntryAfterOne(s.conditions, c, Progressing);
      EntryAfterOne(s.conditions, c, MetadataReady);
    } else {
      EntryAfterTwo(s.conditions, c, d, Ready);
      EntryAfterTwo(s.conditions, c, d, Progressing);
      EntryAfterTwo(s.conditions, c, d, MetadataReady);
    }
  }

  lemma {:induction false} FindHasKind(cs: seq<Condition>, kind: Kind)
    ensures Find(cs, kind).Some? ==> Find(cs, kind).value.kind == kind
  {
    if cs != [] {
      FindHasKind(cs[1..], kind);
    }
  }

  lemma EntryAfterOne(cs: seq<Condition>, c: Condition, kind: Kind)
    requires c.transitioned == c.updated
    ensures if kind == c.kind then Shows(cs, Applied(cs, c), kind, c.status, c.reason, c.message, c.updated)
            else Untouched(cs, Applied(cs, c), kind)
  {
    AppliedMeaning(cs, c, kind);
    FindHasKind(cs, kind);
  }

  lemma EntryAfterTwo(cs: seq<Condition>, c: Condition, d: Condition, kind: Kind)
    requires c.transitioned == c.updated && d.transitioned == d.updated && c.kind != d.kind
    ensures var after := Applied(Applied(cs, c), d);
            if kind == c.kind then Shows(cs, after, kind, c.status, c.reason, c.message, c.updated)
            else if kind == d.kind then Shows(cs, after, kind, d.status, d.reason, d.message, d.updated)
            else Untouched(cs, after, kind)
  {
    EntryAfterOne(cs, c, kind);
    EntryAfterOne(Applied(cs, c), d, kind);
  }

  lemma PerformKeepsSound(s: BackupStatus, e: Call)
    requires Sound(s)
    ensures Sound(Perform(s, e))
  {
    var new_ := Issued(e);
    var c, d := new_[0], new_[|new_| - 1];
    ApplyTwo(s.conditions, c, d);
    AppliedKeepsOnePerKind(s.conditions, c);
    AppliedKeepsOnePerKind(Applied(s.conditions, c), d);
    AppliedStatus(s.conditions, c, Ready, True);
    AppliedStatus(s.conditions, c, Progressing, True);
    AppliedStatus(Applied(s.conditions, c), d, Ready, True);
    AppliedStatus(Applied(s.conditions, c), d, Progressing, True);
  }

  /** In every run of calls from an empty status. */
  lemma {:induction false} ReadyBackupsAreDone(calls: seq<Call>)
    ensures Sound(Final(calls))
  {
    if calls != [] {
      ReadyBackupsAreDone(calls[..|calls| - 1]);
      PerformKeepsSound(Final(calls[..|calls| - 1]), calls[|calls| - 1]);
    }
  }

  lemma {:induction false} AfterAppend(run: seq<Condition>, more: seq<Condition>)
    ensures After(run + more) == ApplyAll(After(run), more)
  {
    if more == [] {
      assert run + more == run;
    } else {
      var n := |more| - 1;
      AfterAppend(run, more[..n]);
      assert (run + more)[..|run + more| - 1] == run + more[..n];
    }
  }

  /** The entries after a run of calls are those of the conditions issued, and carry their flip times. */
  lemma {:induction false} FlipTimesOverCalls(calls: seq<Call>, kind: Kind)
    ensures Find(Final(calls).conditions, kind) == Dated(OfKind(IssuedBy(calls), kind))
  {
    ConditionsOfCalls(calls);
    TransitionTimeIsLastFlip(IssuedBy(calls), kind);
  }

  lemma IssuedStamped(e: Call)
    ensures Stamped(Issued(e))
  {
  }

  lemma {:induction false} ConditionsOfCalls(calls: seq<Call>)
    ensures Final(calls).conditions == After(IssuedBy(calls)) && Stamped(IssuedBy(calls))
  {
    if calls != [] {
      var n := |calls| - 1;
      ConditionsOfCalls(calls[..n]);
      AfterAppend(IssuedBy(calls[..n]), Issued(calls[n]));
      IssuedStamped(calls[n]);
    }
  }

  class Backup {
    var conditions: seq<Condition>
    var error: Option<Error>
    var created: Option<int>

    function Value(): BackupStatus
      reads this
    {
      BackupStatus(conditions, error, created)
    }

    constructor ()
      ensures Value() == EMPTY
    {
      conditions, error, created := [], None, None;
    }

    method ApplyCondition(c: Condition)
      modifies this`conditions
      ensures conditions == Applied(old(conditions), c)
    {
      var i := 0;
      while i < |conditions|
        invariant 0 <= i <= |conditions| && conditions == old(conditions)
        invariant NoneBefore(conditions, c.kind, i)
      {
        var was := conditions[i];
        if was.kind == c.kind {
          AppliedPlace(conditions, c, i);
          var new_ := c;
          if was.status == c.status {
            new_ := new_.(transitioned := was.transitioned);
          }
          if !SameContent(was, c) {
            conditions := conditions[i := new_];
          }
          return;
        }
        i := i + 1;
      }
      AppliedPlace(conditions, c, i);
      conditions := conditions + [c];
    }

    method ApplyBoth(c: Condition, d: Condition)
      modifies this`conditions
      ensures conditions == ApplyAll(old(conditions), [c, d])
    {
      ApplyTwo(conditions, c, d);
      ApplyCondition(c);
      ApplyCondition(d);
    }

    method SetProcessingCondition(first: int, second: int)
      modifies this
      ensures Value() == Perform(old(Value()), SetProcessing(first, second))
    {
      ApplyBoth(Now(Progressing, True, "", "Operation in progress", first), Now(Ready, False, "", "Not ready", second));
    }

    method SetChangeToNonReadyCondition(reason: string, first: int)
      modifies this
      ensures Value() == Perform(old(Value()), SetChangeToNonReady(reason, first))
    {
      var c := Now(Ready, False, reason, CHANGE_TO_NON_READY, first);
      ApplyTwo(conditions, c, c);
      ApplyCondition(c);
    }

    method SetCompleteCondition(time: int, first: int, second: int)
      modifies this
      ensures Value() == Perform(old(Value()), SetComplete(time, first, second))
    {
      created := Some(time);
      error := None;
      ApplyBoth(Now(Progressing, False, "", "Operation complete", first),
                Now(Ready, True, "", "Operation complete", second));
    }

    method SetErrorCondition(message: string, time: int, first: int, second: int)
      modifies this
      ensures Value() == Perform(old(Value()), SetError(message, time, first, second))
    {
      error := Some(Error(time, message));
      ApplyBoth(Now(Progressing, False, "Error", message, first), Now(Ready, False, "", "Not Ready", second));
    }

    method UpdateMetadataReadyCondition(first: int)
      modifies this
      ensures Value() == Perform(old(Value()), UpdateMetadataReady(first))
    {
      var c := Now(MetadataReady, True, "", "", first);
      ApplyTwo(conditions, c, c);
      ApplyCondition(c);
    }
  }
}
