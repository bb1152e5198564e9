/**
 Labels derived from an addon's metadata, the check that manifests do not drift from
 them, and the assembly of addon fragments into one bootstrap template.
 */
module AddonRender {
  import opened TextLines
  import opened LineScanner
  import opened AddonLabels
  import opened ListItems

  datatype Stage = Experimental | Preview | GA | OtherStage(name: string)

  /** `contents` is what reading the addon's template file gave. */
  datatype Addon = Addon(stage: Stage, deprecated: bool, builtIn: bool, contents: Option<string>)

  const LABEL_PREFIX := "addon.harvesterhci.io/"
  const EXPERIMENTAL := LABEL_PREFIX + "experimental"
  const PREVIEW := LABEL_PREFIX + "preview"
  const STABLE := LABEL_PREFIX + "ga"
  const DEPRECATED := LABEL_PREFIX + "deprecated"

  /** Every key that derivation may produce. */
  const DERIVABLE := [EXPERIMENTAL, PREVIEW, STABLE, DEPRECATED]

  function StageLabel(stage: Stage): Option<string> {
    match stage
    case Experimental => Some(EXPERIMENTAL)
    case Preview => Some(PREVIEW)
    case GA => Some(STABLE)
    case OtherStage(_) => None
  }

  function DeriveLabels(a: Addon): map<string, string> {
    var labels := match StageLabel(a.stage) case Some(key) => map[key := "true"] case None => map[];
    if a.deprecated then labels[DEPRECATED := "true"] else labels
  }

  lemma KeysDiffer()
    ensures EXPERIMENTAL != PREVIEW && EXPERIMENTAL != STABLE && EXPERIMENTAL != DEPRECATED
    ensures PREVIEW != STABLE && PREVIEW != DEPRECATED && STABLE != DEPRECATED
  {
    var n := |LABEL_PREFIX|;
    assert EXPERIMENTAL[n] == 'e' && PREVIEW[n] == 'p' && STABLE[n] == 'g' && DEPRECATED[n] == 'd';
  }

  /** Each key is derived if and only if the metadata calls for it, with the value "true", and there are no others. */
  lemma DerivedLabelsMeaning(a: Addon)
    ensures EXPERIMENTAL in DeriveLabels(a) <==> a.stage == Experimental
    ensures PREVIEW in DeriveLabels(a) <==> a.stage == Preview
    ensures STABLE in DeriveLabels(a) <==> a.stage == GA
    ensures DEPRECATED in DeriveLabels(a) <==> a.deprecated
    ensures forall k | k in DeriveLabels(a) ::
              DeriveLabels(a)[k] == "true" && k in {EXPERIMENTAL, PREVIEW, STABLE, DEPRECATED}
  {
    KeysDiffer();
  }

  lemma DerivedLabelsAreWellFormed(a: Addon)
    ensures WellFormedLabels(DeriveLabels(a))
  {
    KeyIsWellFormed("experimental");
    KeyIsWellFormed("preview");
    KeyIsWellFormed("ga");
    KeyIsWellFormed("deprecated");
  }

  lemma KeyIsWellFormed(name: string)
    requires ':' !in name && NoNewline(name)
    ensures WellFormedKey(LABEL_PREFIX + name)
  {
    assert ':' !in LABEL_PREFIX && NoNewline(LABEL_PREFIX);
  }

  type Labels = map<string, string>

  datatype Drift =
    | Stale(key: string, actual: string)
    | Mismatch(key: string, actual: string, expected: string)
    | Missing(key: string, expected: string)

  /** What is wrong with one label, if anything. */
  function DriftOf(key: string, actual: Labels, expected: Labels, requirePresence: bool): Option<Drift> {
    if key in actual && key !in expected then Some(Stale(key, actual[key]))
    else if key in actual && actual[key] != expected[key] then Some(Mismatch(key, actual[key], expected[key]))
    else if key !in actual && key in expected && requirePresence then Some(Missing(key, expected[key]))
    else None
  }

  /** The manifest says about derivable labels what the metadata calls for. */
  predicate Agrees(actual: map<string, string>, expected: map<string, string>, requirePresence: bool) {
    forall key | key in DERIVABLE ::
      && (key in actual ==> key in expected && actual[key] == expected[key])
      && (requirePresence && key in expected ==> key in actual)
  }

  /** checkLabelDrift over a list of keys. */
  method FindDrifts(keys: seq<string>, actual: Labels, expected: Labels, requirePresence: bool)
    returns (errs: seq<Drift>)
    ensures errs == Drifts(keys, actual, expected, requirePresence)
  {
    errs := [];
    for i := 0 to |keys|
      invariant errs == Drifts(keys[..i], actual, expected, requirePresence)
    {
      var key := keys[i];
      assert keys[..i + 1][..i] == keys[..i];
      if key in actual && key !in expected {
        errs := errs + [Stale(key, actual[key])];
      } else if key in actual && key in expected && actual[key] != expected[key] {
        errs := errs + [Mismatch(key, actual[key], expected[key])];
      } else if key !in actual && key in expected && requirePresence {
        errs := errs + [Missing(key, expected[key])];
      }
    }
    assert keys[..|keys|] == keys;
  }

  /** checkLabelDrift: no complaint exactly when manifest and metadata agree on the derivable keys. */
  method CheckLabelDrift(actual: map<string, string>, expected: map<string, string>, requirePresence: bool)
    returns (errs: seq<Drift>)
    ensures errs == [] <==> Agrees(actual, expected, requirePresence)
    ensures errs == Drifts(DERIVABLE, actual, expected, requirePresence)
  {
    errs := FindDrifts(DERIVABLE, actual, expected, requirePresence);
    NoDriftMeansAgreement(DERIVABLE, actual, expected, requirePresence);
  }

  function Drifts(keys: seq<string>, actual: Labels, expected: Labels, requirePresence: bool): seq<Drift> {
    if keys == [] then []
    else
      Drifts(keys[..|keys| - 1], actual, expected, requirePresence)
      + match DriftOf(keys[|keys| - 1], actual, expected, requirePresence) case Some(d) => [d] case None => []
  }

  lemma {:induction false} NoDriftMeansAgreement(keys: seq<string>, actual: Labels, expected: Labels,
                                                 requirePresence: bool)
    ensures Drifts(keys, actual, expected, requirePresence) == [] <==>
            forall key | key in keys :: DriftOf(key, actual, expected, requirePresence).None?
  {
    if keys != [] {
      NoDriftMeansAgreement(keys[..|keys| - 1], actual, expected, requirePresence);
      assert keys == keys[..|keys| - 1] + [keys[|keys| - 1]];
    }
  }

  /**
   A fragment passes the strict check after its derived labels are injected exactly when
   it passed the lenient check before.
   */
  lemma LenientBeforeIsStrictAfter(codec: Codec, a: Addon, lines: seq<string>, out: seq<string>)
    requires Lawful(codec) && Injection(codec, lines, DeriveLabels(a), out)
    ensures Agrees(Extract(codec, out), DeriveLabels(a), true) <==>
            Agrees(Extract(codec, lines), DeriveLabels(a), false)
  {
    DerivedLabelsAreWellFormed(a);
    ExtractAfterInject(codec, lines, DeriveLabels(a), out);
  }

  // Assembly.

  const HEADER := "resources:"
  const ITEM := "  - "

  predicate IsItem(l: string) { HasPrefix(l, ITEM) }

  function Dashed(l: string): string { ITEM + l }

  function Indented(l: string): string { if l == "" then "" else INDENT + l }

  function Dedented(l: string): string { if |l| < 4 then "" else l[4..] }

  /** How the template marks lines: a dash on the first, four spaces on the others. */
  function TemplateMarks(): Marks<string> {
    Marks(Dashed, Indented, IsItem, Dedented, Dedented)
  }

  /** No continuation line can be mistaken for a new item, and indenting is undone. */
  lemma TemplateMarksAreRecoverable()
    ensures Recoverable(TemplateMarks())
  {
    forall l: string
      ensures IsItem(Dashed(l)) && Dedented(Dashed(l)) == l && !IsItem(Indented(l)) && Dedented(Indented(l)) == l
    {
      assert Dashed(l)[4..] == l;
      if l != "" {
        assert Indented(l)[2] == ' ' && ITEM[2] == '-';
        assert Indented(l)[4..] == l;
      }
    }
  }

  /** Lines as text, each ended by a newline. */
  function Text(lines: seq<string>): string {
    if lines == [] then "" else lines[0] + "\n" + Text(lines[1..])
  }

  lemma {:induction false} TextAppend(a: seq<string>, b: seq<string>)
    ensures Text(a + b) == Text(a) + Text(b)
  {
    if a == [] {
      assert a + b == b;
    } else {
      TextAppend(a[1..], b);
      assert (a + b)[1..] == a[1..] + b;
    }
  }

  lemma {:induction false} SplitText(lines: seq<string>)
    requires forall i :: 0 <= i < |lines| ==> NoNewline(lines[i])
    ensures Split(Text(lines)) == lines + [""]
  {
    if lines != [] {
      SplitText(lines[1..]);
      SplitLine(lines[0], Text(lines[1..]));
    }
  }

  /** The whole template for the given fragments. */
  function Template(fragments: seq<seq<string>>): string
    requires NonEmpty(fragments)
  {
    Text([HEADER] + Items(TemplateMarks(), fragments))
  }

  /** Undoing the assembly of a text: drop the header and read the list items. */
  function Disassemble(text: string): seq<seq<string>> {
    var lines := Split(text);
    if |lines| < 2 then [] else ReadLines(TemplateMarks(), lines[1..|lines| - 1])
  }

  ghost predicate MadeOfLines(fragments: seq<seq<string>>) {
    forall i, j :: 0 <= i < |fragments| && 0 <= j < |fragments[i]| ==> NoNewline(fragments[i][j])
  }

  lemma {:induction false} ContinuationHasNoNewlines(rest: seq<string>)
    requires forall i :: 0 <= i < |rest| ==> NoNewline(rest[i])
    ensures forall i :: 0 <= i < |rest| ==> NoNewline(Continuation(TemplateMarks(), rest)[i])
  {
    if rest != [] {
      ContinuationHasNoNewlines(rest[..|rest| - 1]);
    }
  }

  lemma {:induction false} ItemsHaveNoNewlines(fragments: seq<seq<string>>)
    requires NonEmpty(fragments) && MadeOfLines(fragments)
    ensures forall i :: 0 <= i < |Items(TemplateMarks(), fragments)| ==> NoNewline(Items(TemplateMarks(), fragments)[i])
  {
    if fragments != [] {
      var n := |fragments| - 1;
      ItemsHaveNoNewlines(fragments[..n]);
      ContinuationHasNoNewlines(fragments[n][1..]);
      assert NoNewline(Dashed(fragments[n][0]));
    }
  }

  /** Assembly loses nothing: the template gives back the same fragments in order. */
  lemma AssemblyIsLossless(fragments: seq<seq<string>>)
    requires NonEmpty(fragments) && MadeOfLines(fragments)
    ensures Disassemble(Template(fragments)) == fragments
  {
    var items := Items(TemplateMarks(), fragments);
    ItemsHaveNoNewlines(fragments);
    var lines := [HEADER] + items;
    SplitText(lines);
    assert (lines + [""])[1..|lines|] == items;
    TemplateMarksAreRecoverable();
    ReadItems(TemplateMarks(), fragments);
  }

  /** writeListItem: refuses a fragment that starts with an empty line. */
  method WriteListItem(sb: string, fragment: string) returns (r: Result<string>)
    ensures r.Ok? <==> Split(fragment)[0] != ""
    ensures r.Ok? ==> r.value == sb + Text(Item(TemplateMarks(), Split(fragment)))
  {
    var lines := Split(fragment);
    if |lines| == 0 || lines[0] == "" {
      return Err("empty fragment");
    }
    var out := sb + ITEM + lines[0] + "\n";
    ItemTextStart(sb, lines[0]);
    for i := 1 to |lines|
      invariant out == sb + ItemText(lines[0], lines[1..i])
    {
      var l := lines[i];
      ItemTextMore(sb, lines, i, out);
      if l == "" {
        out := out + "\n";
      } else {
        out := out + INDENT + l + "\n";
      }
    }
    assert lines[1..|lines|] == lines[1..];
    r := Ok(out);
  }

  function ItemText(first: string, rest: seq<string>): string {
    Text([Dashed(first)] + Continuation(TemplateMarks(), rest))
  }

  lemma ItemTextStart(sb: string, first: string)
    ensures sb + ItemText(first, []) == sb + ITEM + first + "\n"
  {
    var none: seq<string> := [];
    assert [Dashed(first)] + Continuation(TemplateMarks(), none) == [Dashed(first)];
    assert Text([Dashed(first)]) == Dashed(first) + "\n" + Text([]);
  }

  lemma ItemTextSnoc(first: string, rest: seq<string>, l: string)
    ensures ItemText(first, rest + [l]) == ItemText(first, rest) + (Indented(l) + "\n")
  {
    var head := [Dashed(first)] + Continuation(TemplateMarks(), rest);
    assert (rest + [l])[..|rest|] == rest;
    assert [Dashed(first)] + Continuation(TemplateMarks(), rest + [l]) == head + [Indented(l)];
    TextAppend(head, [Indented(l)]);
    assert Text([Indented(l)]) == Indented(l) + "\n" + Text([]);
  }

  lemma Associative(a: string, b: string, c: string)
    ensures (a + b) + c == a + (b + c)
  {
  }

  lemma ItemTextMore(sb: string, lines: seq<string>, i: nat, out: string)
    requires 1 <= i < |lines| && out == sb + ItemText(lines[0], lines[1..i])
    ensures lines[i] == "" ==> out + "\n" == sb + ItemText(lines[0], lines[1..i + 1])
    ensures lines[i] != "" ==> out + INDENT + lines[i] + "\n" == sb + ItemText(lines[0], lines[1..i + 1])
  {
    var l := lines[i];
    assert lines[1..i + 1] == lines[1..i] + [l];
    ItemTextSnoc(lines[0], lines[1..i], l);
    Associative(sb, ItemText(lines[0], lines[1..i]), Indented(l) + "\n");
    Associative(out, INDENT, l);
    Associative(out, INDENT + l, "\n");
    assert "" + "\n" == "\n";
  }

  function TrimNewline(s: string): string {
    if s != "" && s[|s| - 1] == '\n' then s[..|s| - 1] else s
  }

  lemma {:induction false} TextIsJoin(lines: seq<string>)
    requires lines != []
    ensures Text(lines) == Join(lines) + "\n"
    ensures lines[|lines| - 1] != "" ==>
              Join(lines) != "" && Join(lines)[|Join(lines)| - 1] == lines[|lines| - 1][|lines[|lines| - 1]| - 1]
  {
    if |lines| > 1 {
      TextIsJoin(lines[1..]);
    }
  }

  lemma TrimTerminated(s: string)
    ensures TrimNewline(s + "\n") == s
    ensures s != "" && s[|s| - 1] != '\n' ==> TrimNewline(s) == s
  {
  }

  /** A file is read as its lines, whether its last line is terminated or not. */
  lemma FileIsItsLines(lines: seq<string>)
    requires lines != [] && forall l | l in lines :: NoNewline(l)
    ensures Split(TrimNewline(Text(lines))) == lines
    ensures lines[|lines| - 1] != "" ==> Split(TrimNewline(Join(lines))) == lines
  {
    var text, last := Join(lines), lines[|lines| - 1];
    assert last in lines;
    SplitJoin(lines);
    TextIsJoin(lines);
    TrimTerminated(text);
    assert last != "" ==> last[|last| - 1] in last;
  }

  /** The addon's template exists, starts with a line, and can take its labels. */
  ghost predicate Assemblable(a: Addon) {
    && a.contents.Some?
    && var lines := Split(TrimNewline(a.contents.value));
       lines[0] != "" && (DeriveLabels(a) == map[] || LayoutOf(FragmentKinds(), lines).Metadata?)
  }

  /** A fragment of the template is an addon's file with its derived labels injected. */
  ghost predicate FragmentOf(codec: Codec, a: Addon, fragment: seq<string>) {
    && a.contents.Some?
    && Injection(codec, Split(TrimNewline(a.contents.value)), DeriveLabels(a), fragment)
  }

  /** Key `k` is on the fragment if the metadata calls for it or the file had it, whose value then wins. */
  ghost predicate ShowsLabel(k: string, wanted: bool, was: map<string, string>, now: map<string, string>) {
    && (k in now <==> wanted || k in was)
    && (k in now ==> now[k] == if k in was then was[k] else "true")
  }

  /** The labels are those there were before and those the addon's metadata calls for. */
  ghost predicate ShowsStage(a: Addon, was: map<string, string>, now: map<string, string>) {
    && ShowsLabel(EXPERIMENTAL, a.stage == Experimental, was, now)
    && ShowsLabel(PREVIEW, a.stage == Preview, was, now)
    && ShowsLabel(STABLE, a.stage == GA, was, now)
    && ShowsLabel(DEPRECATED, a.deprecated, was, now)
    && forall k | k !in {EXPERIMENTAL, PREVIEW, STABLE, DEPRECATED} :: ShowsLabel(k, false, was, now)
  }

  ghost predicate FragmentShowsStage(codec: Codec, a: Addon, fragment: seq<string>) {
    a.contents.Some? && ShowsStage(a, Extract(codec, Split(TrimNewline(a.contents.value))), Extract(codec, fragment))
  }

  lemma MergeShows(k: string, wanted: bool, was: map<string, string>, derived: map<string, string>)
    requires (k in derived <==> wanted) && (k in derived ==> derived[k] == "true")
    ensures ShowsLabel(k, wanted, was, derived + was)
  {
  }

  lemma MergeShowsStage(a: Addon, was: map<string, string>)
    ensures ShowsStage(a, was, DeriveLabels(a) + was)
  {
    var derived := DeriveLabels(a);
    DerivedLabelsMeaning(a);
    MergeShows(EXPERIMENTAL, a.stage == Experimental, was, derived);
    MergeShows(PREVIEW, a.stage == Preview, was, derived);
    MergeShows(STABLE, a.stage == GA, was, derived);
    MergeShows(DEPRECATED, a.deprecated, was, derived);
    forall k | k !in {EXPERIMENTAL, PREVIEW, STABLE, DEPRECATED}
      ensures ShowsLabel(k, false, was, derived + was)
    {
      MergeShows(k, false, was, derived);
    }
  }

  lemma InjectionShowsStage(codec: Codec, a: Addon, fragment: seq<string>)
    requires Lawful(codec) && FragmentOf(codec, a, fragment)
    ensures FragmentShowsStage(codec, a, fragment)
  {
    var lines := Split(TrimNewline(a.contents.value));
    DerivedLabelsAreWellFormed(a);
    ExtractAfterInject(codec, lines, DeriveLabels(a), fragment);
    MergeShowsStage(a, Extract(codec, lines));
  }

  /** The built-in addons, in order. */
  function BuiltIn(addons: seq<Addon>): seq<Addon> {
    if addons == [] then []
    else BuiltIn(addons[..|addons| - 1]) + if addons[|addons| - 1].builtIn then [addons[|addons| - 1]] else []
  }

  /** The label-injected fragments of the given addons, one each. */
  ghost predicate FragmentsOf(codec: Codec, addons: seq<Addon>, fragments: seq<seq<string>>) {
    && |fragments| == |addons| && NonEmpty(fragments) && MadeOfLines(fragments)
    && forall i :: 0 <= i < |addons| ==> FragmentOf(codec, addons[i], fragments[i])
  }

  ghost predicate AssembledSoFar(codec: Codec, addons: seq<Addon>, fragments: seq<seq<string>>) {
    (forall a | a in addons && a.builtIn :: Assemblable(a)) && FragmentsOf(codec, BuiltIn(addons), fragments)
  }

  lemma SkipOne(codec: Codec, addons: seq<Addon>, a: Addon, fragments: seq<seq<string>>)
    requires AssembledSoFar(codec, addons, fragments) && !a.builtIn
    ensures AssembledSoFar(codec, addons + [a], fragments)
  {
    BuiltInSnoc(addons, a);
    assert BuiltIn(addons) + [] == BuiltIn(addons);
  }

  lemma AddOne(codec: Codec, addons: seq<Addon>, a: Addon, fragments: seq<seq<string>>, f: seq<string>)
    requires AssembledSoFar(codec, addons, fragments) && a.builtIn && Assemblable(a)
    requires FragmentOf(codec, a, f) && |f| > 0 && forall j :: 0 <= j < |f| ==> NoNewline(f[j])
    ensures AssembledSoFar(codec, addons + [a], fragments + [f])
  {
    BuiltInSnoc(addons, a);
    OneMoreFragment(codec, BuiltIn(addons), a, fragments, f);
  }

  lemma OneMoreFragment(codec: Codec, addons: seq<Addon>, a: Addon, fragments: seq<seq<string>>, f: seq<string>)
    requires FragmentsOf(codec, addons, fragments)
    requires FragmentOf(codec, a, f) && |f| > 0 && forall j :: 0 <= j < |f| ==> NoNewline(f[j])
    ensures FragmentsOf(codec, addons + [a], fragments + [f])
  {
    var as_, fs := addons + [a], fragments + [f];
    forall i | 0 <= i < |as_|
      ensures FragmentOf(codec, as_[i], fs[i]) && |fs[i]| > 0
    {
      assert i < |addons| ==> as_[i] == addons[i] && fs[i] == fragments[i];
    }
    assert forall i :: 0 <= i < |fragments| ==> fs[i] == fragments[i];
  }

  /** One addon: its injected fragment appended to the template, or an error. */
  method AssembleOne(codec: Codec, a: Addon, sb: string) returns (r: Result<string>, ghost fragment: seq<string>)
    requires Lawful(codec)
    ensures r.Ok? <==> Assemblable(a)
    ensures r.Ok? ==>
              && FragmentOf(codec, a, fragment) && |fragment| > 0
              && (forall j :: 0 <= j < |fragment| ==> NoNewline(fragment[j]))
              && r.value == sb + Text(Item(TemplateMarks(), fragment))
  {
    fragment := [];
    if a.contents.None? {
      return Err("error reading the template"), [];
    }
    var text := TrimNewline(a.contents.value);
    DerivedLabelsAreWellFormed(a);
    var injected;
    injected, fragment := InjectLabels(codec, text, DeriveLabels(a));
    if injected.Err? {
      return Err("error injecting labels"), [];
    }
    InjectedTextSplits(codec, text, DeriveLabels(a), fragment);
    InjectionKeepsFirstLine(codec, Split(text), DeriveLabels(a), fragment);
    assert forall j :: 0 <= j < |fragment| ==> fragment[j] in fragment;
    r := WriteListItem(sb, injected.value);
  }

  lemma InjectionKeepsFirstLine(codec: Codec, lines: seq<string>, labels: map<string, string>, out: seq<string>)
    requires Injection(codec, lines, labels, out) && lines != []
    ensures out != [] && out[0] == lines[0]
  {
  }

  /**
   AssembleTemplate: succeeds exactly when every built-in addon can be assembled, and then
   taking the text apart gives their label-injected fragments, in order.
   */
  method AssembleTemplate(codec: Codec, addons: seq<Addon>)
    returns (r: Result<string>, ghost fragments: seq<seq<string>>)
    requires Lawful(codec)
    ensures r.Ok? <==> forall a | a in addons && a.builtIn :: Assemblable(a)
    ensures r.Ok? ==> FragmentsOf(codec, BuiltIn(addons), fragments) && Disassemble(r.value) == fragments
    ensures r.Ok? ==> forall i :: 0 <= i < |fragments| ==> FragmentShowsStage(codec, BuiltIn(addons)[i], fragments[i])
  {
    var sb := HEADER + "\n";
    fragments := [];
    TemplateStart();
    for i := 0 to |addons|
      invariant AssembledSoFar(codec, addons[..i], fragments) && sb == Template(fragments)
    {
      var a := addons[i];
      assert addons[..i + 1] == addons[..i] + [a];
      if !a.builtIn {
        SkipOne(codec, addons[..i], a, fragments);
        continue;
      }
      var one, fragment := AssembleOne(codec, a, sb);
      if one.Err? {
        assert a in addons && a.builtIn && !Assemblable(a);
        return one, [];
      }
      AddOne(codec, addons[..i], a, fragments, fragment);
      TemplateSnoc(fragments, fragment);
      sb := one.value;
      fragments := fragments + [fragment];
    }
    assert addons[..|addons|] == addons;
    AssemblyIsLossless(fragments);
    AllShowStage(codec, BuiltIn(addons), fragments);
    r := Ok(sb);
  }

  lemma AllShowStage(codec: Codec, addons: seq<Addon>, fragments: seq<seq<string>>)
    requires Lawful(codec) && FragmentsOf(codec, addons, fragments)
    ensures forall i :: 0 <= i < |fragments| ==> FragmentShowsStage(codec, addons[i], fragments[i])
  {
    forall i | 0 <= i < |fragments|
      ensures FragmentShowsStage(codec, addons[i], fragments[i])
    {
      assert FragmentOf(codec, addons[i], fragments[i]);
      InjectionShowsStage(codec, addons[i], fragments[i]);
    }
  }

  lemma TemplateStart()
    ensures Template([]) == HEADER + "\n"
  {
    assert [HEADER] + Items(TemplateMarks(), []) == [HEADER];
    assert Text([HEADER]) == HEADER + "\n" + Text([]);
  }

  lemma TemplateSnoc(fragments: seq<seq<string>>, f: seq<string>)
    requires NonEmpty(fragments) && f != []
    ensures Template(fragments + [f]) == Template(fragments) + Text(Item(TemplateMarks(), f))
  {
    assert (fragments + [f])[..|fragments|] == fragments;
    assert [HEADER] + Items(TemplateMarks(), fragments + [f]) ==
           ([HEADER] + Items(TemplateMarks(), fragments)) + Item(TemplateMarks(), f);
    TextAppend([HEADER] + Items(TemplateMarks(), fragments), Item(TemplateMarks(), f));
  }

  lemma BuiltInSnoc(addons: seq<Addon>, a: Addon)
    ensures BuiltIn(addons + [a]) == BuiltIn(addons) + if a.builtIn then [a] else []
  {
    assert (addons + [a])[..|addons|] == addons;
  }
}
