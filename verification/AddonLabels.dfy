/**
 Label injection into addon fragments and the two line scanners around it.

 A fragment is text that is not yet valid YAML, so both the injector and the validator
 find the metadata.labels block by looking at lines.  The results here say that the two
 scanners agree, that injection adds exactly the missing labels and nothing else, and
 that the lenient check before injection is the strict check after it.
 */
module AddonLabels {
  import opened TextLines
  import opened LineScanner

  /** strconv.Quote and strconv.Unquote. */
  datatype Codec = Codec(quote: string -> string, unquote: string -> Option<string>)

  /** Quoting yields one line in double quotes and unquoting undoes it. */
  ghost predicate Lawful(codec: Codec) {
    forall v :: QuotesWell(codec, v)
  }

  ghost predicate QuotesWell(codec: Codec, v: string) {
    var q := codec.quote(v);
    && |q| >= 2 && q[0] == '"' && q[|q| - 1] == '"' && NoNewline(q)
    && codec.unquote(q) == Some(v)
  }

  const METADATA := "metadata:"
  const LABELS := "  labels:"
  const INDENT := "    "

  predicate IsMetadata(l: string) { l == METADATA }
  predicate IsTopLevel(l: string) { l != "" && !HasPrefix(l, " ") }
  predicate IsLabels(l: string) { l == LABELS }
  predicate IsOutside(l: string) { !HasPrefix(l, INDENT) }

  function FragmentKinds(): Kinds<string> {
    Kinds(IsMetadata, IsTopLevel, IsLabels, IsOutside)
  }

  /** A line of the labels block as a key and its unquoted value. */
  function Entry(codec: Codec, l: string): Option<(string, string)> {
    match Cut(TrimSpace(l), ':')
    case None => None
    case Some((key, value)) =>
      match codec.unquote(TrimSpace(value))
      case Some(v) => Some((key, v))
      case None => Some((key, TrimSpace(value)))
  }

  function Reader(codec: Codec): string -> Option<(string, string)> {
    l => Entry(codec, l)
  }

  /** The labels that a fragment carries. */
  ghost function Extract(codec: Codec, lines: seq<string>): map<string, string> {
    Collect(Reader(codec), Block(FragmentKinds(), lines))
  }

  /** The entries of the labels block are the lines indented by four that follow its first line. */
  lemma BlockIsFound(before: seq<string>, meta: seq<string>, entries: seq<string>, rest: seq<string>)
    requires METADATA !in before
    requires forall l | l in meta :: (l == "" || l[0] == ' ') && l != LABELS
    requires forall l | l in entries :: |l| >= 4 && l[..4] == INDENT
    requires rest != [] ==> |rest[0]| < 4 || rest[0][..4] != INDENT
    ensures Block(FragmentKinds(), before + [METADATA] + meta + [LABELS] + entries + rest) == entries
  {
    var lines := before + [METADATA] + meta + [LABELS] + entries + rest;
    var start := |before|;
    var labels := start + 1 + |meta|;
    var insertAt := labels + 1 + |entries|;
    assert forall j :: 0 <= j < start ==> lines[j] in before;
    assert forall j :: start < j < labels ==> lines[j] in meta;
    assert forall j :: labels < j < insertAt ==> lines[j] in entries;
    BlockAt(FragmentKinds(), lines, start, labels, insertAt);
    assert lines[labels + 1..insertAt] == entries;
  }

  /** A metadata block that ends, at the next line that is not indented, without a labels line has none. */
  lemma NoBlockIsFound(before: seq<string>, meta: seq<string>, rest: seq<string>)
    requires METADATA !in before
    requires forall l | l in meta :: (l == "" || l[0] == ' ') && l != LABELS
    requires rest != [] ==> rest[0] != "" && rest[0][0] != ' '
    ensures Block(FragmentKinds(), before + [METADATA] + meta + rest) == []
  {
    var lines := before + [METADATA] + meta + rest;
    var start := |before|;
    var end := start + 1 + |meta|;
    assert forall j :: start < j < end ==> lines[j] in meta;
    assert forall j :: 0 <= j < start ==> lines[j] in before;
    LayoutIs(FragmentKinds(), lines, Metadata(start, end, end, end));
  }

  /** One generated label line. */
  function RenderLabel(codec: Codec, k: string, v: string): string {
    INDENT + k + ": " + codec.quote(v)
  }

  /** A key that a line scanner can read back. */
  predicate WellFormedKey(k: string) {
    ':' !in k && NoNewline(k) && (k != "" ==> !IsSpace(k[0]))
  }

  predicate WellFormedLabels(labels: map<string, string>) {
    forall k | k in labels :: WellFormedKey(k)
  }

  ghost function Render(codec: Codec, keys: seq<string>, labels: map<string, string>): seq<string>
    requires forall k | k in keys :: k in labels
  {
    seq(|keys|, i requires 0 <= i < |keys| => assert keys[i] in keys; RenderLabel(codec, keys[i], labels[keys[i]]))
  }

  ghost function Inserted(codec: Codec, lines: seq<string>, keys: seq<string>, labels: map<string, string>): seq<string>
    requires LayoutOf(FragmentKinds(), lines).Metadata? && forall k | k in keys :: k in labels
  {
    Splice(lines, LayoutOf(FragmentKinds(), lines).insertAt,
           Insertion(FragmentKinds(), lines, LABELS, Render(codec, keys, labels)))
  }

  /** `keys` lists in order the labels that the fragment lacks. */
  ghost predicate ListsMissing(codec: Codec, lines: seq<string>, labels: map<string, string>, keys: seq<string>) {
    && Sorted(keys) && Distinct(keys)
    && forall k :: k in keys <==> k in labels && k !in Extract(codec, lines)
  }

  /** `out` is what injecting the labels makes of the lines. */
  ghost predicate Injection(codec: Codec, lines: seq<string>, labels: map<string, string>, out: seq<string>) {
    if labels.Keys <= Extract(codec, lines).Keys then out == lines
    else
      && LayoutOf(FragmentKinds(), lines).Metadata?
      && exists keys :: ListsMissing(codec, lines, labels, keys) && out == Inserted(codec, lines, keys, labels)
  }

  lemma TrimLeftOnce(s: string)
    ensures TrimLeft(" " + s) == TrimLeft(s)
  {
    assert (" " + s)[1..] == s;
  }

  lemma TrimLeftIndent(s: string)
    ensures TrimLeft(INDENT + s) == TrimLeft(s)
  {
    var one := " " + s;
    var two := " " + one;
    var three := " " + two;
    TrimLeftOnce(s);
    TrimLeftOnce(one);
    TrimLeftOnce(two);
    TrimLeftOnce(three);
    assert " " + three == INDENT + s;
  }

  /** Both scanners read a generated line as the label it was generated for. */
  lemma EntryOfRendered(codec: Codec, k: string, v: string)
    requires Lawful(codec) && WellFormedKey(k)
    ensures Entry(codec, RenderLabel(codec, k, v)) == Some((k, v))
  {
    var q := codec.quote(v);
    assert QuotesWell(codec, v);
    var body := k + ": " + q;
    TrimLeftIndent(body);
    assert RenderLabel(codec, k, v) == INDENT + body;
    assert body[|body| - 1] == '"';
    assert TrimSpace(RenderLabel(codec, k, v)) == body;
    assert body == k + [':'] + (" " + q);
    CutAt(k, ':', " " + q);
    TrimLeftOnce(q);
    assert TrimSpace(" " + q) == q;
  }

  /** A value that is not quoted is read as it stands, without the space around it. */
  lemma EntryOfPlain(codec: Codec, k: string, v: string)
    requires WellFormedKey(k) && v != "" && !IsSpace(v[0]) && !IsSpace(v[|v| - 1]) && codec.unquote(v) == None
    ensures Entry(codec, INDENT + k + ": " + v) == Some((k, v))
  {
    var body := k + ": " + v;
    TrimLeftIndent(body);
    assert INDENT + k + ": " + v == INDENT + body;
    assert TrimSpace(INDENT + body) == body;
    assert body == k + [':'] + (" " + v);
    CutAt(k, ':', " " + v);
    TrimLeftOnce(v);
    assert TrimSpace(" " + v) == v;
  }

  /** A line without a colon is no entry. */
  lemma NoEntryWithoutColon(codec: Codec, l: string)
    requires ':' !in l
    ensures Entry(codec, l) == None
  {
    TrimmedIsInside(l);
    NoCut(TrimSpace(l), ':');
  }

  lemma CollectRendered(codec: Codec, block: seq<string>, keys: seq<string>, labels: map<string, string>)
    requires Lawful(codec) && WellFormedLabels(labels) && forall k | k in keys :: k in labels
    ensures Collect(Reader(codec), block + Render(codec, keys, labels)) ==
            Collect(Reader(codec), block) + (map k | k in keys :: labels[k])
  {
    assert forall i :: 0 <= i < |keys| ==> keys[i] in keys;
    forall i | 0 <= i < |keys|
      ensures Reader(codec)(Render(codec, keys, labels)[i]) == Some((keys[i], labels[keys[i]]))
    {
      EntryOfRendered(codec, keys[i], labels[keys[i]]);
    }
    CollectMore(Reader(codec), block, Render(codec, keys, labels), keys, labels);
  }

  /** A generated line belongs to the labels block and opens no other. */
  lemma RenderedLine(codec: Codec, k: string, v: string)
    requires Lawful(codec) && WellFormedKey(k)
    ensures var l := RenderLabel(codec, k, v);
            !IsOutside(l) && !IsMetadata(l) && !IsTopLevel(l) && !IsLabels(l) && NoNewline(l)
  {
    assert QuotesWell(codec, v);
    var l := RenderLabel(codec, k, v);
    assert l[..4] == INDENT;
    assert l[0] == ' ' && METADATA[0] == 'm';
    assert l[2] == ' ' && LABELS[2] == 'l';
  }

  lemma RenderedLines(codec: Codec, keys: seq<string>, labels: map<string, string>)
    requires Lawful(codec) && WellFormedLabels(labels) && forall k | k in keys :: k in labels
    ensures OnlyEntries(FragmentKinds(), Render(codec, keys, labels))
    ensures forall l | l in Render(codec, keys, labels) :: NoNewline(l)
  {
    forall i | 0 <= i < |keys|
      ensures var l := Render(codec, keys, labels)[i];
              !IsOutside(l) && !IsMetadata(l) && !IsTopLevel(l) && !IsLabels(l) && NoNewline(l)
    {
      assert keys[i] in keys;
      RenderedLine(codec, keys[i], labels[keys[i]]);
    }
  }

  lemma HeaderLine()
    ensures IsLabels(LABELS) && !IsMetadata(LABELS) && !IsTopLevel(LABELS) && NoNewline(LABELS)
  {
    assert LABELS[0] == ' ' && METADATA[0] == 'm';
    assert LABELS[..1] == " ";
  }

  lemma ExtractInserted(codec: Codec, lines: seq<string>, keys: seq<string>, labels: map<string, string>)
    requires Lawful(codec) && WellFormedLabels(labels) && forall k | k in keys :: k in labels
    requires LayoutOf(FragmentKinds(), lines).Metadata?
    ensures LayoutOf(FragmentKinds(), Inserted(codec, lines, keys, labels)).Metadata?
    ensures Extract(codec, Inserted(codec, lines, keys, labels)) ==
            Extract(codec, lines) + (map k | k in keys :: labels[k])
  {
    RenderedLines(codec, keys, labels);
    HeaderLine();
    BlockAfterInsertion(FragmentKinds(), lines, LABELS, Render(codec, keys, labels));
    CollectRendered(codec, Block(FragmentKinds(), lines), keys, labels);
  }

  /**
   Extraction after injection yields the labels that were there plus exactly the missing
   ones; where both have a key the existing entry wins.
   */
  lemma ExtractAfterInject(codec: Codec, lines: seq<string>, labels: map<string, string>, out: seq<string>)
    requires Lawful(codec) && WellFormedLabels(labels) && Injection(codec, lines, labels, out)
    ensures Extract(codec, out) == labels + Extract(codec, lines)
  {
    if labels.Keys <= Extract(codec, lines).Keys {
      assert labels + Extract(codec, lines) == Extract(codec, lines);
    } else {
      var keys :| ListsMissing(codec, lines, labels, keys) && out == Inserted(codec, lines, keys, labels);
      ExtractInserted(codec, lines, keys, labels);
      MergeMissing(labels, Extract(codec, lines), keys);
    }
  }

  lemma MergeMissing(labels: map<string, string>, present: map<string, string>, keys: seq<string>)
    requires forall k :: k in keys <==> k in labels && k !in present
    ensures present + (map k | k in keys :: labels[k]) == labels + present
  {
  }

  /** Injecting the same labels a second time changes nothing. */
  lemma InjectIsIdempotent(codec: Codec, lines: seq<string>, labels: map<string, string>,
                           out: seq<string>, again: seq<string>)
    requires Lawful(codec) && WellFormedLabels(labels)
    requires Injection(codec, lines, labels, out) && Injection(codec, out, labels, again)
    ensures again == out
  {
    ExtractAfterInject(codec, lines, labels, out);
  }

  /** The order in which a map is walked cannot show: there is one injection result. */
  lemma InjectIsDeterministic(codec: Codec, lines: seq<string>, labels: map<string, string>,
                              a: seq<string>, b: seq<string>)
    requires Injection(codec, lines, labels, a) && Injection(codec, lines, labels, b)
    ensures a == b
  {
    if !(labels.Keys <= Extract(codec, lines).Keys) {
      var ka :| ListsMissing(codec, lines, labels, ka) && a == Inserted(codec, lines, ka, labels);
      var kb :| ListsMissing(codec, lines, labels, kb) && b == Inserted(codec, lines, kb, labels);
      SortedListingIsUnique(ka, kb);
    }
  }

  /**
   Injection keeps every line and its order: it inserts one block of generated entries,
   under a new labels line if there was none, inside the metadata block.
   */
  lemma InjectInsertsOneBlock(codec: Codec, lines: seq<string>, labels: map<string, string>, out: seq<string>)
    requires Lawful(codec) && WellFormedLabels(labels)
    requires Injection(codec, lines, labels, out) && LayoutOf(FragmentKinds(), lines).Metadata?
    ensures exists at: nat, header, entries ::
              && LayoutOf(FragmentKinds(), lines).start < at <= LayoutOf(FragmentKinds(), lines).end
              && (header == [] || header == [LABELS]) && OnlyEntries(FragmentKinds(), entries)
              && out == Splice(lines, at, header + entries)
  {
    if labels.Keys <= Extract(codec, lines).Keys {
      var at := LayoutOf(FragmentKinds(), lines).insertAt;
      var none: seq<string> := [];
      assert none + none == none;
      assert out == Splice(lines, at, none + none);
    } else {
      var keys :| ListsMissing(codec, lines, labels, keys) && out == Inserted(codec, lines, keys, labels);
      RenderedLines(codec, keys, labels);
      var at := LayoutOf(FragmentKinds(), lines).insertAt;
      var layout := LayoutOf(FragmentKinds(), lines);
      var header := if layout.labels == layout.end then [LABELS] else [];
      assert out == Splice(lines, at, header + Render(codec, keys, labels));
    }
  }

  // The scanners and the injector as the source runs them.

  /** The key of a label line, which is all the injector looks at. */
  function EntryKey(l: string): Option<string> {
    match Cut(TrimSpace(l), ':')
    case None => None
    case Some((key, _)) => Some(key)
  }

  /** extractRawLabels. */
  method ExtractRawLabels(codec: Codec, fragment: string) returns (labels: map<string, string>)
    ensures labels == Extract(codec, Split(fragment))
  {
    labels := ReadBlock(FragmentKinds(), Reader(codec), Split(fragment));
  }

  /** The labels not among the existing keys, in whatever order the map is walked. */
  method MissingKeys(labels: map<string, string>, existing: set<string>) returns (missing: seq<string>)
    ensures Distinct(missing) && forall k :: k in missing <==> k in labels && k !in existing
  {
    missing := [];
    var todo := labels.Keys;
    while todo != {}
      invariant todo <= labels.Keys
      invariant Distinct(missing)
      invariant forall k :: k in missing <==> k in labels && k !in existing && k !in todo
      decreases |todo|
    {
      var k :| k in todo;
      if k !in existing {
        missing := missing + [k];
      }
      todo := todo - {k};
    }
  }

  method RenderLines(codec: Codec, keys: seq<string>, labels: map<string, string>) returns (newLines: seq<string>)
    requires forall k | k in keys :: k in labels
    ensures newLines == Render(codec, keys, labels)
  {
    newLines := [];
    for i := 0 to |keys|
      invariant |newLines| == i
      invariant forall n :: 0 <= n < i ==> newLines[n] == Render(codec, keys, labels)[n]
    {
      assert keys[i] in keys;
      newLines := newLines + [RenderLabel(codec, keys[i], labels[keys[i]])];
    }
  }

  datatype Result<T> = Ok(value: T) | Err(message: string)

  /** The lines of the labels to add, in order, at their place. */
  method InsertMissing(codec: Codec, lines: seq<string>, labels: map<string, string>, at: Layout, missing: seq<string>)
    returns (out: seq<string>)
    requires at == LayoutOf(FragmentKinds(), lines) && at.Metadata? && missing != []
    requires Distinct(missing) && forall k :: k in missing <==> k in labels && k !in Extract(codec, lines)
    ensures Injection(codec, lines, labels, out)
  {
    assert missing[0] in missing;
    var toAdd := SortStrings(missing);
    var newLines := RenderLines(codec, toAdd, labels);
    var ins := if at.labels == at.end then [LABELS] + newLines else newLines;
    out := Splice(lines, at.insertAt, ins);
    assert [] + newLines == newLines;
    assert ListsMissing(codec, lines, labels, toAdd) && out == Inserted(codec, lines, toAdd, labels);
  }

  /**
   injectLabels: fails exactly when there is something to inject and no metadata block;
   otherwise the text is that of the injected lines.
   */
  method InjectLabels(codec: Codec, fragment: string, labels: map<string, string>)
    returns (r: Result<string>, ghost out: seq<string>)
    ensures r.Ok? <==> labels == map[] || LayoutOf(FragmentKinds(), Split(fragment)).Metadata?
    ensures r.Ok? ==> Injection(codec, Split(fragment), labels, out) && r.value == Join(out)
  {
    var lines := Split(fragment);
    out := lines;
    JoinSplit(fragment);
    if labels == map[] {
      return Ok(fragment), lines;
    }
    var at, existing := Locate(FragmentKinds(), EntryKey, Reader(codec), lines);
    if at.NoMetadata? {
      return Err("fragment has no top-level metadata: block"), lines;
    }
    var toAdd := MissingKeys(labels, existing);
    if toAdd == [] {
      return Ok(fragment), lines;
    }
    var outLines := InsertMissing(codec, lines, labels, at, toAdd);
    r, out := Ok(Join(outLines)), outLines;
  }

  /** Injected text splits into the injected lines again. */
  lemma InjectedTextSplits(codec: Codec, fragment: string, labels: map<string, string>, out: seq<string>)
    requires Lawful(codec) && WellFormedLabels(labels) && Injection(codec, Split(fragment), labels, out)
    ensures out != [] && (forall l | l in out :: NoNewline(l)) && Split(Join(out)) == out
  {
    SplitHasNoNewlines(fragment);
    if !(labels.Keys <= Extract(codec, Split(fragment)).Keys) {
      var lines := Split(fragment);
      var keys :| ListsMissing(codec, lines, labels, keys) && out == Inserted(codec, lines, keys, labels);
      RenderedLines(codec, keys, labels);
      HeaderLine();
    }
    SplitJoin(out);
  }

  // Quoting laws are met by plain escaping, which agrees with strconv on printable text.

  function Escape(v: string): string {
    if v == "" then ""
    else (match v[0]
          case '"' => "\\\""
          case '\\' => "\\\\"
          case '\n' => "\\n"
          case c => [c]) + Escape(v[1..])
  }

  function Unescape(s: string): Option<string> {
    if s == "" then Some("")
    else if s[0] == '"' || s[0] == '\n' then None
    else if s[0] != '\\' then Prepend(s[0], Unescape(s[1..]))
    else if |s| == 1 then None
    else if s[1] == 'n' then Prepend('\n', Unescape(s[2..]))
    else if s[1] == '"' || s[1] == '\\' then Prepend(s[1], Unescape(s[2..]))
    else None
  }

  function Prepend(c: char, s: Option<string>): Option<string> {
    match s
    case None => None
    case Some(t) => Some([c] + t)
  }

  function PlainCodec(): Codec {
    Codec((v: string) => "\"" + Escape(v) + "\"",
          (s: string) => if |s| >= 2 && s[0] == '"' && s[|s| - 1] == '"' then Unescape(s[1..|s| - 1]) else None)
  }

  lemma {:induction false} UnescapeEscape(v: string)
    ensures Unescape(Escape(v)) == Some(v) && NoNewline(Escape(v))
  {
    if v != "" {
      UnescapeEscape(v[1..]);
      var rest := Escape(v[1..]);
      assert v == [v[0]] + v[1..];
      if v[0] == '"' || v[0] == '\\' || v[0] == '\n' {
        assert |Escape(v)| == 2 + |rest| && Escape(v)[2..] == rest;
      } else {
        assert Escape(v)[1..] == rest;
      }
    }
  }

  lemma PlainCodecIsLawful()
    ensures Lawful(PlainCodec())
  {
    forall v ensures QuotesWell(PlainCodec(), v) {
      UnescapeEscape(v);
      var q := PlainCodec().quote(v);
      assert q[1..|q| - 1] == Escape(v);
    }
  }
}
