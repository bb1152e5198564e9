/**
 The list of nodes a virtual machine may be migrated to, compared with the meaning that
 Kubernetes gives to a pod's node selector and required node affinity.
 */
module MigratableNodes {
  import opened Filtering
  import opened NodeConditions
  import M = MaintenanceMode

  const HOSTNAME := "kubernetes.io/hostname"
  const UNREACHABLE_TAINT := "node.kubernetes.io/unreachable"
  const UNSCHEDULABLE_TAINT := "node.kubernetes.io/unschedulable"

  datatype Operator = In | NotIn | Exists | DoesNotExist | Gt | Lt | OtherOperator(name: string)

  datatype Expr = Expr(key: string, op: Operator, values: seq<string>)

  /** `fields` are the term's matchFields, which look at the node's name. */
  datatype Term = Term(exprs: seq<Expr>, fields: seq<Expr>)

  datatype Pod = Pod(nodeSelector: map<string, string>, required: Option<seq<Term>>)

  datatype Candidate = Candidate(name: string, labels: map<string, string>, node: M.Node)

  /** The label syntax rules, and how label values are read as numbers. */
  datatype Syntax = Syntax(valid: (string, seq<string>) -> bool, number: string -> Option<int>)

  // What Kubernetes means.

  predicate Holds(syntax: Syntax, e: Expr, labels: map<string, string>) {
    match e.op
    case In => e.key in labels && labels[e.key] in e.values
    case NotIn => e.key in labels ==> labels[e.key] !in e.values
    case Exists => e.key in labels
    case DoesNotExist => e.key !in labels
    case Gt => Compares(syntax, e, labels) && syntax.number(labels[e.key]).value > syntax.number(e.values[0]).value
    case Lt => Compares(syntax, e, labels) && syntax.number(labels[e.key]).value < syntax.number(e.values[0]).value
    case OtherOperator(_) => false
  }

  predicate Compares(syntax: Syntax, e: Expr, labels: map<string, string>) {
    |e.values| == 1 && e.key in labels && syntax.number(labels[e.key]).Some? && syntax.number(e.values[0]).Some?
  }

  /** An empty term matches nothing; otherwise all of its parts must hold. */
  predicate TermHolds(syntax: Syntax, t: Term, c: Candidate) {
    && (t.exprs != [] || t.fields != [])
    && (forall e | e in t.exprs :: Holds(syntax, e, c.labels))
    && (forall f | f in t.fields :: Holds(syntax, f, map["metadata.name" := c.name]))
  }

  predicate SelectorHolds(pod: Pod, c: Candidate) {
    forall k | k in pod.nodeSelector && k != HOSTNAME :: k in c.labels && c.labels[k] == pod.nodeSelector[k]
  }

  /** The pod may run on the node, its hostname pin apart: some required term holds. */
  predicate Fits(syntax: Syntax, pod: Pod, c: Candidate) {
    && SelectorHolds(pod, c)
    && (pod.required.Some? ==> exists t | t in pod.required.value :: TermHolds(syntax, t, c))
  }

  // What the handler computes.

  datatype Requirement = Requirement(key: string, op: Operator, values: seq<string>)

  predicate Supported(e: Expr) {
    e.op.In? || e.op.NotIn? || e.op.Exists? || e.op.DoesNotExist?
  }

  /** labels.NewRequirement accepts the operands. */
  predicate Acceptable(syntax: Syntax, e: Expr) {
    && syntax.valid(e.key, e.values)
    && (e.op.In? || e.op.NotIn? ==> e.values != [])
    && (e.op.Exists? || e.op.DoesNotExist? ==> e.values == [])
  }

  /** The expressions that make it into the filter. */
  predicate Considered(e: Expr) {
    e.key != HOSTNAME && Supported(e)
  }

  predicate Met(r: Requirement, labels: map<string, string>) {
    match r.op
    case In => r.key in labels && labels[r.key] in r.values
    case NotIn => r.key in labels ==> labels[r.key] !in r.values
    case Exists => r.key in labels
    case DoesNotExist => r.key !in labels
    case _ => false
  }

  predicate AllMet(rs: seq<Requirement>, labels: map<string, string>) {
    forall r | r in rs :: Met(r, labels)
  }

  /** The considered expressions of all terms, or an error if one is not acceptable. */
  method AddNodeAffinityFilters(syntax: Syntax, filter: seq<Requirement>, ts: seq<Term>)
    returns (r: Option<seq<Requirement>>)
    ensures r.Some? <==> forall t, e | t in ts && e in t.exprs && Considered(e) :: Acceptable(syntax, e)
    ensures r.Some? ==> forall labels :: AllMet(r.value, labels) <==>
              && AllMet(filter, labels)
              && forall t, e | t in ts && e in t.exprs && Considered(e) :: Holds(syntax, e, labels)
  {
    var out := filter;
    for i := 0 to |ts|
      invariant forall t, e | t in ts[..i] && e in t.exprs && Considered(e) :: Acceptable(syntax, e)
      invariant forall labels :: AllMet(out, labels) <==>
                  && AllMet(filter, labels)
                  && forall t, e | t in ts[..i] && e in t.exprs && Considered(e) :: Holds(syntax, e, labels)
    {
      var one := AddTerm(syntax, out, ts[i].exprs);
      assert ts[..i + 1] == ts[..i] + [ts[i]];
      if one.None? {
        assert ts[i] in ts;
        return None;
      }
      out := one.value;
    }
    assert ts[..|ts|] == ts;
    r := Some(out);
  }

  method AddTerm(syntax: Syntax, filter: seq<Requirement>, es: seq<Expr>) returns (r: Option<seq<Requirement>>)
    ensures r.Some? <==> forall e | e in es && Considered(e) :: Acceptable(syntax, e)
    ensures r.Some? ==> forall labels :: AllMet(r.value, labels) <==>
              AllMet(filter, labels) && forall e | e in es && Considered(e) :: Holds(syntax, e, labels)
  {
    var out := filter;
    for i := 0 to |es|
      invariant forall e | e in es[..i] && Considered(e) :: Acceptable(syntax, e)
      invariant forall labels :: AllMet(out, labels) <==>
                  AllMet(filter, labels) && forall e | e in es[..i] && Considered(e) :: Holds(syntax, e, labels)
    {
      var e := es[i];
      assert es[..i + 1] == es[..i] + [e];
      if e.key != HOSTNAME && Supported(e) {
        if !Acceptable(syntax, e) {
          assert e in es;
          return None;
        }
        ghost var before := out;
        out := out + [Requirement(e.key, e.op, e.values)];
        forall labels: map<string, string>
          ensures AllMet(out, labels) <==> AllMet(before, labels) && Holds(syntax, e, labels)
        {
          assert Met(Requirement(e.key, e.op, e.values), labels) == Holds(syntax, e, labels);
        }
      }
    }
    assert es[..|es|] == es;
    r := Some(out);
  }

  /** The pod's node selector, the hostname apart, as requirements. */
  method SelectorFilter(syntax: Syntax, pod: Pod) returns (r: Option<seq<Requirement>>)
    ensures r.Some? <==> forall k | k in pod.nodeSelector && k != HOSTNAME :: syntax.valid(k, [pod.nodeSelector[k]])
    ensures r.Some? ==> forall c: Candidate :: AllMet(r.value, c.labels) <==> SelectorHolds(pod, c)
  {
    var out := [];
    var todo := pod.nodeSelector.Keys;
    while todo != {}
      invariant todo <= pod.nodeSelector.Keys
      invariant forall k | k in pod.nodeSelector && k !in todo && k != HOSTNAME ::
                  syntax.valid(k, [pod.nodeSelector[k]])
      invariant forall c: Candidate :: AllMet(out, c.labels) <==>
                  forall k | k in pod.nodeSelector && k !in todo && k != HOSTNAME ::
                    k in c.labels && c.labels[k] == pod.nodeSelector[k]
      decreases |todo|
    {
      var k :| k in todo;
      if k != HOSTNAME {
        if !syntax.valid(k, [pod.nodeSelector[k]]) {
          return None;
        }
        ghost var before := out;
        out := out + [Requirement(k, In, [pod.nodeSelector[k]])];
        forall c: Candidate
          ensures AllMet(out, c.labels) <==>
                  AllMet(before, c.labels) && k in c.labels && c.labels[k] == pod.nodeSelector[k]
        {
          assert Met(Requirement(k, In, [pod.nodeSelector[k]]), c.labels) ==
                 (k in c.labels && c.labels[k] == pod.nodeSelector[k]);
        }
      }
      todo := todo - {k};
    }
    r := Some(out);
  }

  /** Every considered expression of every term holds: the terms are taken together. */
  predicate Passes(syntax: Syntax, pod: Pod, c: Candidate) {
    && SelectorHolds(pod, c)
    && (pod.required.Some? ==>
          forall t, e | t in pod.required.value && e in t.exprs && Considered(e) :: Holds(syntax, e, c.labels))
  }

  /** Everything that would go into the filter is acceptable to it. */
  predicate Expressible(syntax: Syntax, pod: Pod) {
    && (forall k | k in pod.nodeSelector && k != HOSTNAME :: syntax.valid(k, [pod.nodeSelector[k]]))
    && (pod.required.Some? ==>
          forall t, e | t in pod.required.value && e in t.exprs && Considered(e) :: Acceptable(syntax, e))
  }

  /** getNodeSelectorRequirementFromVMI, given the machine's pod. */
  method NodeFilter(syntax: Syntax, pod: Pod) returns (r: Option<seq<Requirement>>)
    ensures r.Some? ==> forall c: Candidate :: AllMet(r.value, c.labels) <==> Passes(syntax, pod, c)
    ensures r.Some? <==> Expressible(syntax, pod)
  {
    r := SelectorFilter(syntax, pod);
    if r.Some? && pod.required.Some? {
      r := AddNodeAffinityFilters(syntax, r.value, pod.required.value);
    }
  }

  predicate Drained(n: M.Node) {
    || (Find(n.conditions).Some? && Find(n.conditions).value.status.ConditionTrue?)
    || M.HasDrainRequest(n)
    || n.unschedulable
    || exists t | t in n.taints :: t.key == UNREACHABLE_TAINT || t.key == UNSCHEDULABLE_TAINT
  }

  predicate IsTarget(syntax: Syntax, pod: Pod, current: string, c: Candidate) {
    Passes(syntax, pod, c) && Free(current, c)
  }

  /** Not the node the machine runs on, and not drained. */
  predicate Free(current: string, c: Candidate) {
    c.name != current && !Drained(c.node)
  }

  function TargetTest(syntax: Syntax, pod: Pod, current: string): Candidate -> bool {
    c => IsTarget(syntax, pod, current, c)
  }

  function Names(cs: seq<Candidate>): seq<string> {
    seq(|cs|, i requires 0 <= i < |cs| => cs[i].name)
  }

  /** A label test that no filter can express: a wrong number of values, or a key or value of wrong syntax. */
  predicate Malformed(syntax: Syntax, e: Expr) {
    && e.key != HOSTNAME
    && match e.op
       case In => e.values == [] || !syntax.valid(e.key, e.values)
       case NotIn => e.values == [] || !syntax.valid(e.key, e.values)
       case Exists => e.values != [] || !syntax.valid(e.key, e.values)
       case DoesNotExist => e.values != [] || !syntax.valid(e.key, e.values)
       case _ => false
  }

  lemma MalformedMeaning(syntax: Syntax, e: Expr)
    ensures Malformed(syntax, e) <==> Considered(e) && !Acceptable(syntax, e)
  {
  }

  /** findMigratableNodesByVMI: the targets among the nodes, in the order they are listed. */
  method FindMigratableNodes(syntax: Syntax, pod: Pod, current: string, cs: seq<Candidate>)
    returns (r: Option<seq<string>>)
    ensures r.Some? ==> r.value == Names(Filter(TargetTest(syntax, pod, current), cs))
    ensures r.None? <==>
              || (exists k :: k in pod.nodeSelector && k != HOSTNAME && !syntax.valid(k, [pod.nodeSelector[k]]))
              || (pod.required.Some? && exists t, e :: t in pod.required.value && e in t.exprs && Malformed(syntax, e))
    ensures r.Some? ==> forall n :: n in r.value <==>
                          exists c :: c in cs && c.name == n && Passes(syntax, pod, c) && n != current && Usable(c.node)
  {
    forall e: Expr
      ensures Malformed(syntax, e) <==> Considered(e) && !Acceptable(syntax, e)
    {
      MalformedMeaning(syntax, e);
    }
    var filter := NodeFilter(syntax, pod);
    if filter.None? {
      return None;
    }
    var names := ListTargets(filter.value, current, cs);
    FiltersEqual(FreeTest(filter.value, current), TargetTest(syntax, pod, current), cs);
    ListedExactly(syntax, pod, current, cs);
    r := Some(names);
  }

  /** Open for new machines: not engaged in maintenance, not asked to drain, not cordoned, not tainted. */
  predicate Usable(n: M.Node) {
    && (Find(n.conditions).Some? ==> !Find(n.conditions).value.status.ConditionTrue?)
    && (M.DrainRequested in n.annotations ==> n.annotations[M.DrainRequested] == "")
    && !n.unschedulable
    && forall t | t in n.taints :: t.key != UNREACHABLE_TAINT && t.key != UNSCHEDULABLE_TAINT
  }

  lemma ListedExactly(syntax: Syntax, pod: Pod, current: string, cs: seq<Candidate>)
    ensures forall n :: n in Names(Filter(TargetTest(syntax, pod, current), cs)) <==>
              exists c :: c in cs && c.name == n && Passes(syntax, pod, c) && n != current && Usable(c.node)
  {
    var listed := Filter(TargetTest(syntax, pod, current), cs);
    FilterMembers(TargetTest(syntax, pod, current), cs);
    forall n
      ensures n in Names(listed) <==> exists c :: c in listed && c.name == n
    {
      if n in Names(listed) {
        var i :| 0 <= i < |listed| && Names(listed)[i] == n;
        assert listed[i] in listed;
      }
      if c :| c in listed && c.name == n {
        var i :| 0 <= i < |listed| && listed[i] == c;
        assert Names(listed)[i] == n;
      }
    }
  }

  function FreeTest(filter: seq<Requirement>, current: string): Candidate -> bool {
    (c: Candidate) => AllMet(filter, c.labels) && Free(current, c)
  }

  method ListTargets(filter: seq<Requirement>, current: string, cs: seq<Candidate>) returns (names: seq<string>)
    ensures names == Names(Filter(FreeTest(filter, current), cs))
  {
    names := [];
    for i := 0 to |cs|
      invariant names == Names(Filter(FreeTest(filter, current), cs[..i]))
    {
      var c := cs[i];
      FilterMore(FreeTest(filter, current), cs, i);
      if !AllMet(filter, c.labels) || current == c.name || Drained(c.node) {
        continue;
      }
      names := names + [c.name];
    }
    assert cs[..|cs|] == cs;
  }

  // How the list compares with the meaning.

  /** The node fits by one term, but another term has an expression that it fails. */
  predicate Lost(syntax: Syntax, pod: Pod, c: Candidate) {
    && SelectorHolds(pod, c) && pod.required.Some?
    && (exists t | t in pod.required.value :: TermHolds(syntax, t, c))
    && (exists t, e | t in pod.required.value && e in t.exprs :: Considered(e) && !Holds(syntax, e, c.labels))
  }

  /** A term whose parts that the filter skips all hold. */
  predicate RestHolds(syntax: Syntax, t: Term, c: Candidate) {
    && (t.exprs != [] || t.fields != [])
    && (forall e | e in t.exprs && !Considered(e) :: Holds(syntax, e, c.labels))
    && (forall f | f in t.fields :: Holds(syntax, f, map["metadata.name" := c.name]))
  }

  /** The node passes all that is looked at, but every term has something else that it fails. */
  predicate Unchecked(syntax: Syntax, pod: Pod, c: Candidate) {
    && Passes(syntax, pod, c) && pod.required.Some?
    && forall t | t in pod.required.value :: !RestHolds(syntax, t, c)
  }

  /** A node that passes fits if and only if there is no affinity or some term's skipped parts all hold. */
  lemma PassingNodeFits(syntax: Syntax, pod: Pod, c: Candidate)
    requires Passes(syntax, pod, c)
    ensures Fits(syntax, pod, c) <==>
            pod.required.None? || exists t | t in pod.required.value :: RestHolds(syntax, t, c)
  {
    if pod.required.Some? {
      forall t | t in pod.required.value
        ensures TermHolds(syntax, t, c) <==> RestHolds(syntax, t, c)
      {
        if RestHolds(syntax, t, c) {
          assert forall e | e in t.exprs :: Holds(syntax, e, c.labels);
        }
      }
    }
  }

  /** Filter and meaning agree on a node if and only if it is neither lost nor unchecked. */
  lemma NodeAgreesExactly(syntax: Syntax, pod: Pod, c: Candidate)
    ensures (Passes(syntax, pod, c) <==> Fits(syntax, pod, c)) <==>
            !Lost(syntax, pod, c) && !Unchecked(syntax, pod, c)
  {
    if Passes(syntax, pod, c) {
      PassingNodeFits(syntax, pod, c);
    }
  }

  function MeantTest(syntax: Syntax, pod: Pod, current: string): Candidate -> bool {
    c => Fits(syntax, pod, c) && Free(current, c)
  }

  /**
   The list holds the nodes that are meant, in order, if and only if no node that is free is lost or
   unchecked.
   */
  lemma ListAgreesExactly(syntax: Syntax, pod: Pod, current: string, cs: seq<Candidate>)
    ensures Filter(TargetTest(syntax, pod, current), cs) == Filter(MeantTest(syntax, pod, current), cs) <==>
            forall c | c in cs && Free(current, c) :: !Lost(syntax, pod, c) && !Unchecked(syntax, pod, c)
  {
    FiltersAgree(TargetTest(syntax, pod, current), MeantTest(syntax, pod, current), cs);
    forall c | c in cs {
      NodeAgreesExactly(syntax, pod, c);
    }
  }

  /** Every node listed fits if and only if no free node is unchecked. */
  lemma ListIsSoundExactly(syntax: Syntax, pod: Pod, current: string, cs: seq<Candidate>)
    ensures (forall c | c in Filter(TargetTest(syntax, pod, current), cs) :: Fits(syntax, pod, c)) <==>
            forall c | c in cs && Free(current, c) :: !Unchecked(syntax, pod, c)
  {
    FilterMembers(TargetTest(syntax, pod, current), cs);
    forall c | c in cs && Passes(syntax, pod, c) {
      PassingNodeFits(syntax, pod, c);
    }
    if forall c | c in Filter(TargetTest(syntax, pod, current), cs) :: Fits(syntax, pod, c) {
      forall c | c in cs && Free(current, c)
        ensures !Unchecked(syntax, pod, c)
      {
        if Passes(syntax, pod, c) {
          assert c in Filter(TargetTest(syntax, pod, current), cs);
        }
      }
    }
  }

  // Terms that the filter understands in full.

  predicate Understood(t: Term) {
    t.exprs != [] && t.fields == [] && forall e | e in t.exprs :: Considered(e)
  }

  predicate AllUnderstood(pod: Pod) {
    pod.required.Some? ==> pod.required.value != [] && forall t | t in pod.required.value :: Understood(t)
  }

  /** One such term is enough for every node listed to fit. */
  lemma ListIsSound(syntax: Syntax, pod: Pod, current: string, cs: seq<Candidate>)
    requires pod.required.Some? ==> exists t | t in pod.required.value :: Understood(t)
    ensures forall c | c in Filter(TargetTest(syntax, pod, current), cs) :: Fits(syntax, pod, c) && Free(current, c)
  {
    forall c | c in cs
      ensures !Unchecked(syntax, pod, c)
    {
      if pod.required.Some? {
        var t :| t in pod.required.value && Understood(t);
        assert RestHolds(syntax, t, c);
      }
    }
    ListIsSoundExactly(syntax, pod, current, cs);
    FilterMembers(TargetTest(syntax, pod, current), cs);
  }

  /** Some term holds on the node and some other fails. */
  predicate Divided(syntax: Syntax, pod: Pod, c: Candidate) {
    && SelectorHolds(pod, c) && pod.required.Some?
    && (exists t | t in pod.required.value :: TermHolds(syntax, t, c))
    && (exists t | t in pod.required.value :: !TermHolds(syntax, t, c))
  }

  /** If all terms are understood, the list is exact if and only if they are not divided over a free node. */
  lemma AlternativesAreExact(syntax: Syntax, pod: Pod, current: string, cs: seq<Candidate>)
    requires AllUnderstood(pod)
    ensures Filter(TargetTest(syntax, pod, current), cs) == Filter(MeantTest(syntax, pod, current), cs) <==>
            forall c | c in cs && Free(current, c) :: !Divided(syntax, pod, c)
  {
    ListAgreesExactly(syntax, pod, current, cs);
    forall c | c in cs
      ensures Lost(syntax, pod, c) <==> Divided(syntax, pod, c)
      ensures !Unchecked(syntax, pod, c)
    {
      UnderstoodNode(syntax, pod, c);
    }
  }

  lemma UnderstoodNode(syntax: Syntax, pod: Pod, c: Candidate)
    requires AllUnderstood(pod)
    ensures Lost(syntax, pod, c) <==> Divided(syntax, pod, c)
    ensures !Unchecked(syntax, pod, c)
  {
    if pod.required.Some? {
      var first := pod.required.value[0];
      assert first in pod.required.value && RestHolds(syntax, first, c);
      forall t | t in pod.required.value
        ensures TermHolds(syntax, t, c) <==> forall e | e in t.exprs && Considered(e) :: Holds(syntax, e, c.labels)
      {
      }
    }
  }

  /** With no affinity or one term understood in full the list is exact. */
  lemma ListIsExact(syntax: Syntax, pod: Pod, current: string, cs: seq<Candidate>)
    requires AllUnderstood(pod) && (pod.required.Some? ==> |pod.required.value| == 1)
    ensures Filter(TargetTest(syntax, pod, current), cs) == Filter(MeantTest(syntax, pod, current), cs)
  {
    AlternativesAreExact(syntax, pod, current, cs);
  }

  // Both ways to disagree do occur.

  /** Two terms that ask for different values of a label lose every node that has the first value. */
  lemma AlternativesAreLost(syntax: Syntax, key: string, v: string, w: string, c: Candidate)
    requires key != HOSTNAME && v != w && key in c.labels && c.labels[key] == v
    ensures var pod := Pod(map[], Some([Term([Expr(key, In, [v])], []), Term([Expr(key, In, [w])], [])]));
            AllUnderstood(pod) && Lost(syntax, pod, c) && Fits(syntax, pod, c) && !Passes(syntax, pod, c)
  {
    var a, b := Term([Expr(key, In, [v])], []), Term([Expr(key, In, [w])], []);
    assert TermHolds(syntax, a, c);
    assert b in [a, b] && Expr(key, In, [w]) in b.exprs && Considered(Expr(key, In, [w]));
  }

  /** A term of one expression that is skipped lets every node through on which it does not hold. */
  lemma SkippedExpressionsAreNotChecked(syntax: Syntax, e: Expr, c: Candidate)
    requires !Considered(e) && !Holds(syntax, e, c.labels)
    ensures var pod := Pod(map[], Some([Term([e], [])]));
            Unchecked(syntax, pod, c) && Passes(syntax, pod, c) && !Fits(syntax, pod, c)
  {
    assert e in [e];
  }
}
