/**
 The API server as a store of versioned objects, and the callers that use it through
 retried get/decide/update closures.

 Every object keeps the list of all versions it has had.  A caller fetches the newest
 version, decides on its own copy, and later asks the server to store the result; the
 server refuses with a conflict unless the copy is still the newest version.  Callers,
 other writers and lost answers interleave at the granularity of single requests.

 The main result is that this fine-grained machine refines an atomic one: whatever the
 interleaving, each version written by a caller is what its decision yields on the
 version immediately before it.
 */
module OptimisticStore {

  /** Number of attempts of a retried closure (client-go retry.DefaultRetry). */
  const RETRY_STEPS: nat := 5

  /** Who wrote a version; `call` is the number of the call and `now` the clock reading its decision used. */
  datatype Author<Op> = Environment | Caller(call: nat, op: Op, now: int)

  datatype Version<T, Op> = Version(value: T, author: Author<Op>)

  /** What a closure does with the copy it fetched: write a new value, or return. */
  datatype Decision<T> = Write(value: T) | Return(ok: bool)

  /** One retried closure: the object it is about and what it wants. */
  datatype Task<K, Op> = Task(key: K, op: Op)

  /**
   Why a call failed: the decision refused version `at`, too many writes met a conflict, or a request
   got no proper answer.
   */
  datatype Cause = Refused(at: nat, now: int) | Conflicts | NoAnswer

  /** `Pending` holds the version that was fetched and the value decided on. */
  datatype Progress<T> = Fetch | Pending(base: nat, now: int, value: T) | Succeeded | Failed(cause: Cause)
  {
    predicate Finished() { Succeeded? || Failed? }
  }

  /** How a task ended: it found nothing to do at a version, or wrote a version. */
  datatype Evidence = Observed(at: nat) | Wrote(at: nat)

  /**
   A call runs its tasks in order and stops at the first failure.
   `since` is the newest version of every object when the call began; `conflicts` lists the
   versions it fetched for the current task whose writes met a conflict.
   */
  datatype Call<K, T, Op> = Call(
    tasks: seq<Task<K, Op>>,
    done: seq<Evidence>,
    conflicts: seq<nat>,
    phase: Progress<T>,
    since: map<K, nat>)
  {
    function Current(): (t: Task<K, Op>)
      requires |done| < |tasks|
    {
      tasks[|done|]
    }

    function Complete(e: Evidence): Call<K, T, Op> {
      this.(done := done + [e],
            conflicts := [],
            phase := if |done| + 1 >= |tasks| then Succeeded else Fetch)
    }
  }

  /** All versions of every object, oldest first. */
  type Objects<K, T, Op> = map<K, seq<Version<T, Op>>>

  datatype State<K, T, Op> = State(
    objects: Objects<K, T, Op>,
    calls: seq<Call<K, T, Op>>)

  /** The closures' decisions, and the writes other parties may make. */
  datatype Rules<!K, !T, !Op> = Rules(
    decide: (Op, T, int) -> Decision<T>,
    environment: (K, T, T) -> bool)

  datatype Event<K, T, Op> =
    | Start(tasks: seq<Task<K, Op>>)
    | Get(call: nat, now: int)
    | Put(call: nat)
    | PutWithLostAnswer(call: nat)
    | Fault(call: nat)
    | External(key: K, value: T)

  /** One request; an event that does not apply leaves the state as it is. */
  ghost function Step<K, T, Op>(r: Rules<K, T, Op>, s: State<K, T, Op>, e: Event<K, T, Op>): State<K, T, Op> {
    match e
    case Start(tasks) =>
      if && tasks != [] && (forall t | t in tasks :: t.key in s.objects)
         && (forall k | k in s.objects :: s.objects[k] != [])
      then
        s.(calls := s.calls + [Call(tasks, [], [], Fetch, map k | k in s.objects :: |s.objects[k]| - 1)])
      else
        s
    case Get(c, now) =>
      if Active(s, c) && s.calls[c].phase.Fetch? then
        s.(calls := s.calls[c := AfterGet(r, s, s.calls[c], now)])
      else
        s
    case Put(c) =>
      if Active(s, c) && s.calls[c].phase.Pending? then
        if Fresh(s, s.calls[c]) then
          s.(objects := Stored(s, c),
             calls := s.calls[c := s.calls[c].Complete(Wrote(s.calls[c].phase.base + 1))])
        else
          s.(calls := s.calls[c := AfterConflict(s.calls[c])])
      else
        s
    case PutWithLostAnswer(c) =>
      if Active(s, c) && s.calls[c].phase.Pending? && Fresh(s, s.calls[c]) then
        s.(objects := Stored(s, c),
           calls := s.calls[c := s.calls[c].(phase := Failed(NoAnswer))])
      else
        s
    case Fault(c) =>
      if Active(s, c) then
        s.(calls := s.calls[c := s.calls[c].(phase := Failed(NoAnswer))])
      else
        s
    case External(k, v) =>
      if k in s.objects && s.objects[k] != [] && r.environment(k, Newest(s.objects[k]), v) then
        s.(objects := s.objects[k := s.objects[k] + [Version(v, Environment)]])
      else
        s
  }

  ghost predicate Active<K, T, Op>(s: State<K, T, Op>, c: nat) {
    && c < |s.calls|
    && !s.calls[c].phase.Finished()
    && |s.calls[c].done| < |s.calls[c].tasks|
    && s.calls[c].Current().key in s.objects
    && s.objects[s.calls[c].Current().key] != []
  }

  ghost function Newest<T, Op>(h: seq<Version<T, Op>>): T
    requires h != []
  {
    h[|h| - 1].value
  }

  ghost function AfterGet<K, T, Op>(r: Rules<K, T, Op>, s: State<K, T, Op>, call: Call<K, T, Op>, now: int)
    : Call<K, T, Op>
    requires |call.done| < |call.tasks| && call.Current().key in s.objects && s.objects[call.Current().key] != []
  {
    var h := s.objects[call.Current().key];
    match r.decide(call.Current().op, Newest(h), now)
    case Write(v) => call.(phase := Pending(|h| - 1, now, v))
    case Return(ok) => if ok then call.Complete(Observed(|h| - 1)) else call.(phase := Failed(Refused(|h| - 1, now)))
  }

  /** The server accepts a write only on top of the version the writer fetched. */
  ghost predicate Fresh<K, T, Op>(s: State<K, T, Op>, call: Call<K, T, Op>)
    requires |call.done| < |call.tasks| && call.Current().key in s.objects && call.phase.Pending?
  {
    call.phase.base + 1 == |s.objects[call.Current().key]|
  }

  ghost function Stored<K, T, Op>(s: State<K, T, Op>, c: nat): Objects<K, T, Op>
    requires Active(s, c) && s.calls[c].phase.Pending?
  {
    var call := s.calls[c];
    var t := call.Current();
    s.objects[t.key := s.objects[t.key] + [Version(call.phase.value, Caller(c, t.op, call.phase.now))]]
  }

  ghost function AfterConflict<K, T, Op>(call: Call<K, T, Op>): Call<K, T, Op>
    requires call.phase.Pending?
  {
    call.(conflicts := call.conflicts + [call.phase.base],
          phase := if |call.conflicts| + 1 < RETRY_STEPS then Fetch else Failed(Conflicts))
  }

  ghost function Exec<K, T, Op>(r: Rules<K, T, Op>, s: State<K, T, Op>, es: seq<Event<K, T, Op>>): State<K, T, Op> {
    if es == [] then s else Step(r, Exec(r, s, es[..|es| - 1]), es[|es| - 1])
  }

  /** Every object starts with one version; no call has begun. */
  ghost function Initial<K, T, Op>(objects: map<K, T>): State<K, T, Op> {
    State(map k | k in objects :: [Version(objects[k], Environment)], [])
  }

  /** The atomic machine: each version follows from the one before it in one step. */
  ghost predicate AtomicStep<K, T, Op>(r: Rules<K, T, Op>, k: K, before: T, after: Version<T, Op>) {
    match after.author
    case Environment => r.environment(k, before, after.value)
    case Caller(_, op, now) => r.decide(op, before, now) == Write(after.value)
  }

  ghost predicate AtomicHistory<K, T, Op>(r: Rules<K, T, Op>, k: K, h: seq<Version<T, Op>>) {
    && h != []
    && forall i :: 0 < i < |h| ==> AtomicStep(r, k, h[i - 1].value, h[i])
  }

  /** A task's evidence points at versions of its object that bear it out. */
  ghost predicate Supports<K, T, Op>(r: Rules<K, T, Op>, c: nat, t: Task<K, Op>, e: Evidence, h: seq<Version<T, Op>>) {
    match e
    case Observed(v) => v < |h| && exists now :: r.decide(t.op, h[v].value, now) == Return(true)
    case Wrote(v) => 0 < v < |h| && h[v].author.Caller? && h[v].author.call == c && h[v].author.op == t.op
  }

  ghost predicate GoodCall<K, T, Op>(r: Rules<K, T, Op>, objects: Objects<K, T, Op>, c: nat, call: Call<K, T, Op>) {
    && (forall t | t in call.tasks :: t.key in objects && t.key in call.since && call.since[t.key] < |objects[t.key]|)
    && |call.done| <= |call.tasks|
    && (forall j :: 0 <= j < |call.done| ==>
          && Supports(r, c, call.tasks[j], call.done[j], objects[call.tasks[j].key])
          && call.since[call.tasks[j].key] <= call.done[j].at)
    && (forall i, j :: 0 <= i < j < |call.done| && call.tasks[i].key == call.tasks[j].key ==>
          call.done[i].at <= call.done[j].at)
    && (call.phase.Succeeded? ==> |call.done| == |call.tasks|)
    && (!call.phase.Succeeded? ==>
          |call.done| < |call.tasks| && GoodTask(r, objects[call.Current().key], call.since[call.Current().key], call))
  }

  /** The current task: each conflict was about a version that somebody has overwritten. */
  ghost predicate GoodTask<K, T, Op>(r: Rules<K, T, Op>, h: seq<Version<T, Op>>, since: nat, call: Call<K, T, Op>)
    requires |call.done| < |call.tasks|
  {
    var op, n := call.Current().op, |call.conflicts|;
    && Increasing(call.conflicts)
    && (forall j :: 0 <= j < n ==> since <= call.conflicts[j] && call.conflicts[j] + 1 < |h|)
    && match call.phase
       case Fetch => n < RETRY_STEPS
       case Pending(base, now, v) =>
         && n < RETRY_STEPS && since <= base < |h| && r.decide(op, h[base].value, now) == Write(v)
         && (n > 0 ==> call.conflicts[n - 1] < base)
       case Failed(Refused(at, now)) => since <= at < |h| && r.decide(op, h[at].value, now) == Return(false)
       case Failed(Conflicts) => n == RETRY_STEPS
       case _ => true
  }

  predicate Increasing(s: seq<nat>) {
    forall i, j :: 0 <= i < j < |s| ==> s[i] < s[j]
  }

  ghost predicate Inv<K, T, Op>(r: Rules<K, T, Op>, s: State<K, T, Op>) {
    && (forall k | k in s.objects :: AtomicHistory(r, k, s.objects[k]))
    && (forall c :: 0 <= c < |s.calls| ==> GoodCall(r, s.objects, c, s.calls[c]))
  }

  /** Objects only ever gain versions. */
  ghost predicate Extends<K, T, Op>(older: Objects<K, T, Op>, newer: Objects<K, T, Op>) {
    && older.Keys == newer.Keys
    && forall k | k in older :: older[k] <= newer[k]
  }

  lemma GoodCallStable<K, T, Op>(r: Rules<K, T, Op>, older: Objects<K, T, Op>, newer: Objects<K, T, Op>,
                                 c: nat, call: Call<K, T, Op>)
    requires GoodCall(r, older, c, call) && Extends(older, newer)
    ensures GoodCall(r, newer, c, call)
  {
    forall j | 0 <= j < |call.done|
      ensures Supports(r, c, call.tasks[j], call.done[j], newer[call.tasks[j].key])
    {
      assert call.tasks[j] in call.tasks;
      assert older[call.tasks[j].key] <= newer[call.tasks[j].key];
    }
    if |call.done| < |call.tasks| {
      assert call.Current() in call.tasks;
      assert older[call.Current().key] <= newer[call.Current().key];
    }
  }

  lemma StepGrows<K, T, Op>(r: Rules<K, T, Op>, s: State<K, T, Op>, e: Event<K, T, Op>)
    ensures Extends(s.objects, Step(r, s, e).objects)
  {
  }

  lemma CompleteIsGood<K, T, Op>(r: Rules<K, T, Op>, objects: Objects<K, T, Op>, c: nat, call: Call<K, T, Op>,
                                 e: Evidence)
    requires GoodCall(r, objects, c, call) && |call.done| < |call.tasks|
    requires call.Current().key in objects
    requires Supports(r, c, call.Current(), e, objects[call.Current().key])
    requires e.at + 1 == |objects[call.Current().key]|
    ensures GoodCall(r, objects, c, call.Complete(e))
  {
    var call' := call.Complete(e);
    assert call.Current() in call.tasks;
    forall i, j | 0 <= i < j < |call'.done| && call'.tasks[i].key == call'.tasks[j].key
      ensures call'.done[i].at <= call'.done[j].at
    {
      assert call.tasks[i] in call.tasks;
      if j == |call.done| {
        assert Supports(r, c, call.tasks[i], call.done[i], objects[call.tasks[i].key]);
      }
    }
  }

  lemma StoppedIsGood<K, T, Op>(r: Rules<K, T, Op>, objects: Objects<K, T, Op>, c: nat, call: Call<K, T, Op>)
    requires GoodCall(r, objects, c, call) && !call.phase.Finished()
    ensures GoodCall(r, objects, c, call.(phase := Failed(NoAnswer)))
  {
  }

  /** A conflict on an old version leads to another attempt, on a newer one, unless it was the last. */
  lemma ConflictIsGood<K, T, Op>(r: Rules<K, T, Op>, objects: Objects<K, T, Op>, c: nat, call: Call<K, T, Op>)
    requires GoodCall(r, objects, c, call) && call.phase.Pending?
    requires call.phase.base + 1 != |objects[call.Current().key]|
    ensures GoodCall(r, objects, c, AfterConflict(call))
  {
  }

  lemma AfterGetIsGood<K, T, Op>(r: Rules<K, T, Op>, s: State<K, T, Op>, c: nat, call: Call<K, T, Op>, now: int)
    requires GoodCall(r, s.objects, c, call) && call.phase.Fetch?
    requires call.Current().key in s.objects && s.objects[call.Current().key] != []
    ensures GoodCall(r, s.objects, c, AfterGet(r, s, call, now))
  {
    var t := call.Current();
    assert t in call.tasks;
    var h := s.objects[t.key];
    match r.decide(t.op, Newest(h), now) {
      case Write(v) =>
      case Return(ok) =>
        if ok {
          CompleteIsGood(r, s.objects, c, call, Observed(|h| - 1));
        }
    }
  }

  lemma StepOfPut<K, T, Op>(r: Rules<K, T, Op>, s: State<K, T, Op>, c: nat)
    requires Active(s, c) && s.calls[c].phase.Pending?
    ensures var s', call := Step(r, s, Put(c)), s.calls[c];
            && c < |s'.calls|
            && s'.objects == (if Fresh(s, call) then Stored(s, c) else s.objects)
            && s'.calls[c] == if Fresh(s, call) then call.Complete(Wrote(call.phase.base + 1)) else AfterConflict(call)
  {
  }

  lemma StoredIsGood<K, T, Op>(r: Rules<K, T, Op>, s: State<K, T, Op>, c: nat)
    requires Active(s, c) && s.calls[c].phase.Pending? && GoodCall(r, s.objects, c, s.calls[c])
    requires Fresh(s, s.calls[c])
    ensures GoodCall(r, Stored(s, c), c, s.calls[c].Complete(Wrote(s.calls[c].phase.base + 1)))
  {
    var call := s.calls[c];
    StepOfPut(r, s, c);
    StepGrows(r, s, Put(c));
    GoodCallStable(r, s.objects, Stored(s, c), c, call);
    CompleteIsGood(r, Stored(s, c), c, call, Wrote(call.phase.base + 1));
  }

  lemma PutIsGood<K, T, Op>(r: Rules<K, T, Op>, s: State<K, T, Op>, c: nat)
    requires Active(s, c) && s.calls[c].phase.Pending? && GoodCall(r, s.objects, c, s.calls[c])
    ensures var s' := Step(r, s, Put(c)); GoodCall(r, s'.objects, c, s'.calls[c])
  {
    var call := s.calls[c];
    StepOfPut(r, s, c);
    if Fresh(s, call) {
      StoredIsGood(r, s, c);
    } else {
      ConflictIsGood(r, s.objects, c, call);
    }
  }

  lemma StopIsGood<K, T, Op>(r: Rules<K, T, Op>, s: State<K, T, Op>, e: Event<K, T, Op>, c: nat)
    requires Active(s, c) && GoodCall(r, s.objects, c, s.calls[c])
    requires (e.PutWithLostAnswer? || e.Fault?) && e.call == c
    ensures var s' := Step(r, s, e); GoodCall(r, s'.objects, c, s'.calls[c])
  {
    var s' := Step(r, s, e);
    StepGrows(r, s, e);
    GoodCallStable(r, s.objects, s'.objects, c, s.calls[c]);
    StoppedIsGood(r, s'.objects, c, s.calls[c]);
    assert s'.calls[c] == s.calls[c] || s'.calls[c] == s.calls[c].(phase := Failed(NoAnswer));
  }

  /** The call an event is about is good afterwards. */
  lemma ServedCallIsGood<K, T, Op>(r: Rules<K, T, Op>, s: State<K, T, Op>, e: Event<K, T, Op>, c: nat)
    requires Active(s, c) && GoodCall(r, s.objects, c, s.calls[c])
    requires e.Get? || e.Put? || e.PutWithLostAnswer? || e.Fault?
    requires e.call == c
    ensures GoodCall(r, Step(r, s, e).objects, c, Step(r, s, e).calls[c])
  {
    if e.Get? {
      if s.calls[c].phase.Fetch? {
        AfterGetIsGood(r, s, c, s.calls[c], e.now);
      }
    } else if e.Put? {
      if s.calls[c].phase.Pending? {
        PutIsGood(r, s, c);
      }
    } else {
      StopIsGood(r, s, e, c);
    }
  }

  lemma StepKeepsCalls<K, T, Op>(r: Rules<K, T, Op>, s: State<K, T, Op>, e: Event<K, T, Op>)
    requires Inv(r, s)
    ensures var s' := Step(r, s, e); forall c :: 0 <= c < |s'.calls| ==> GoodCall(r, s'.objects, c, s'.calls[c])
  {
    var s' := Step(r, s, e);
    StepGrows(r, s, e);
    forall i | 0 <= i < |s'.calls|
      ensures GoodCall(r, s'.objects, i, s'.calls[i])
    {
      if i < |s.calls| {
        GoodCallStable(r, s.objects, s'.objects, i, s.calls[i]);
        if s'.calls[i] != s.calls[i] {
          ServedCallIsGood(r, s, e, i);
        }
      }
    }
  }

  lemma StepKeepsHistories<K, T, Op>(r: Rules<K, T, Op>, s: State<K, T, Op>, e: Event<K, T, Op>)
    requires Inv(r, s)
    ensures forall k | k in Step(r, s, e).objects :: AtomicHistory(r, k, Step(r, s, e).objects[k])
  {
    if (e.Put? || e.PutWithLostAnswer?) && Active(s, e.call) {
      assert GoodCall(r, s.objects, e.call, s.calls[e.call]);
    }
  }

  /** Every run keeps every object's history atomic and every call's evidence sound. */
  lemma {:induction false} ExecKeepsInv<K, T, Op>(r: Rules<K, T, Op>, objects: map<K, T>, es: seq<Event<K, T, Op>>)
    ensures Inv(r, Exec(r, Initial(objects), es))
    ensures Extends(Initial<K, T, Op>(objects).objects, Exec(r, Initial(objects), es).objects)
    decreases |es|
  {
    if es != [] {
      var p := es[..|es| - 1];
      ExecKeepsInv(r, objects, p);
      var s := Exec(r, Initial(objects), p);
      StepKeepsCalls(r, s, es[|es| - 1]);
      StepKeepsHistories(r, s, es[|es| - 1]);
      StepGrows(r, s, es[|es| - 1]);
    }
  }

  /**
   Refinement.  In every interleaving of gets, updates, conflicts, retries, faults and
   lost answers, each object's versions form a run of the atomic machine.
   */
  lemma RetriedUpdatesAreAtomic<K, T, Op>(r: Rules<K, T, Op>, objects: map<K, T>, es: seq<Event<K, T, Op>>, k: K)
    requires k in objects
    ensures k in Exec(r, Initial(objects), es).objects
    ensures AtomicHistory(r, k, Exec(r, Initial(objects), es).objects[k])
  {
    ExecKeepsInv(r, objects, es);
  }

  /**
   A call that reports success has, for each of its closures, a version no older than the
   call at which that closure found nothing to do or which it wrote; versions of the
   same object appear in task order.
   */
  lemma SuccessHasEvidence<K, T, Op>(r: Rules<K, T, Op>, objects: map<K, T>, es: seq<Event<K, T, Op>>, c: nat)
    requires c < |Exec(r, Initial(objects), es).calls|
    requires Exec(r, Initial(objects), es).calls[c].phase == Succeeded
    ensures var s := Exec(r, Initial(objects), es);
            var call := s.calls[c];
            && |call.done| == |call.tasks|
            && (forall j :: 0 <= j < |call.tasks| ==>
                  && call.tasks[j].key in s.objects && call.tasks[j].key in call.since
                  && Supports(r, c, call.tasks[j], call.done[j], s.objects[call.tasks[j].key])
                  && call.since[call.tasks[j].key] <= call.done[j].at)
            && (forall i, j :: 0 <= i < j < |call.tasks| && call.tasks[i].key == call.tasks[j].key ==>
                  call.done[i].at <= call.done[j].at)
  {
    ExecKeepsInv(r, objects, es);
    var s := Exec(r, Initial(objects), es);
    assert forall t | t in s.calls[c].tasks :: t.key in s.objects;
  }

  /** Some request of the call got no proper answer. */
  ghost predicate Disturbed<K, T, Op>(es: seq<Event<K, T, Op>>, c: nat) {
    exists i :: 0 <= i < |es| && (es[i] == Fault(c) || es[i] == PutWithLostAnswer(c))
  }

  lemma {:induction false} NoAnswerIsAnEvent<K, T, Op>(r: Rules<K, T, Op>, s: State<K, T, Op>,
                                                      es: seq<Event<K, T, Op>>, c: nat)
    requires s.calls == [] && c < |Exec(r, s, es).calls| && Exec(r, s, es).calls[c].phase == Failed(NoAnswer)
    ensures Disturbed(es, c)
  {
    var n := |es| - 1;
    var before := Exec(r, s, es[..n]);
    if c < |before.calls| && before.calls[c].phase == Failed(NoAnswer) {
      NoAnswerIsAnEvent(r, s, es[..n], c);
      var i :| 0 <= i < n && (es[..n][i] == Fault(c) || es[..n][i] == PutWithLostAnswer(c));
      assert es[i] == es[..n][i];
    } else {
      assert es[n] == Fault(c) || es[n] == PutWithLostAnswer(c);
    }
  }

  /**
   A call fails only for a reason: its decision refused a version no older than the call; or five
   different versions that it had fetched were each overwritten by somebody before it could write; or
   a request of its own got no proper answer.
   */
  lemma FailureHasCause<K, T, Op>(r: Rules<K, T, Op>, objects: map<K, T>, es: seq<Event<K, T, Op>>, c: nat)
    requires c < |Exec(r, Initial(objects), es).calls| && Exec(r, Initial(objects), es).calls[c].phase.Failed?
    ensures var s := Exec(r, Initial(objects), es);
            var call := s.calls[c];
            && |call.done| < |call.tasks| && call.Current().key in s.objects && call.Current().key in call.since
            && var h, since := s.objects[call.Current().key], call.since[call.Current().key];
               match call.phase.cause
               case Refused(at, now) =>
                 since <= at < |h| && r.decide(call.Current().op, h[at].value, now) == Return(false)
               case Conflicts =>
                 && |call.conflicts| == RETRY_STEPS && Increasing(call.conflicts)
                 && forall j :: 0 <= j < RETRY_STEPS ==> since <= call.conflicts[j] && call.conflicts[j] + 1 < |h|
               case NoAnswer => Disturbed(es, c)
  {
    ExecKeepsInv(r, objects, es);
    var s := Exec(r, Initial(objects), es);
    assert GoodCall(r, s.objects, c, s.calls[c]);
    assert s.calls[c].Current() in s.calls[c].tasks;
    if s.calls[c].phase.cause.NoAnswer? {
      NoAnswerIsAnEvent(r, Initial(objects), es, c);
    }
  }

  /** The state once a new call has fetched, and once it has written. */
  ghost function Undisturbed<K, T, Op>(r: Rules<K, T, Op>, s: State<K, T, Op>, t: Task<K, Op>, now: int)
    : (s': State<K, T, Op>)
  {
    Step(r, Step(r, Step(r, s, Start([t])), Get(|s.calls|, now)), Put(|s.calls|))
  }

  /** A call that nobody disturbs has the effect of its decision on the newest version, and reports it. */
  lemma UndisturbedCallActs<K, T, Op>(r: Rules<K, T, Op>, s: State<K, T, Op>, t: Task<K, Op>, now: int)
    requires t.key in s.objects && forall k | k in s.objects :: s.objects[k] != []
    ensures var s', c, h := Undisturbed(r, s, t, now), |s.calls|, s.objects[t.key];
            && |s'.calls| == c + 1
            && match r.decide(t.op, h[|h| - 1].value, now)
               case Write(v) =>
                 && s'.calls[c].phase == Succeeded
                 && s'.objects == s.objects[t.key := h + [Version(v, Caller(c, t.op, now))]]
               case Return(ok) =>
                 && s'.objects == s.objects
                 && s'.calls[c].phase == if ok then Succeeded else Failed(Refused(|h| - 1, now))
  {
    var one := Step(r, s, Start([t]));
    assert one.calls[|s.calls|].Current() == t;
    var two := Step(r, one, Get(|s.calls|, now));
    assert two.objects == s.objects;
  }
}
