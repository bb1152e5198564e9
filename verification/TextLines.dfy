/**
 The few string operations the addon renderer is made of: splitting text into lines and
 joining it again, trimming, cutting at a separator, and sorting.
 */
module TextLines {

  datatype Option<T> = None | Some(value: T)

  predicate NoNewline(s: string) { '\n' !in s }

  function Split(s: string): (lines: seq<string>)
    ensures lines != []
  {
    if s == "" then [""]
    else if s[0] == '\n' then [""] + Split(s[1..])
    else var rest := Split(s[1..]); [[s[0]] + rest[0]] + rest[1..]
  }

  function Join(lines: seq<string>): string {
    if lines == [] then ""
    else if |lines| == 1 then lines[0]
    else lines[0] + "\n" + Join(lines[1..])
  }

  lemma {:induction false} SplitHasNoNewlines(s: string)
    ensures forall l | l in Split(s) :: NoNewline(l)
  {
    if s != "" {
      SplitHasNoNewlines(s[1..]);
      if s[0] != '\n' {
        var rest := Split(s[1..]);
        assert rest[0] in rest;
      }
    }
  }

  lemma {:induction false} JoinSplit(s: string)
    ensures Join(Split(s)) == s
  {
    if s != "" {
      JoinSplit(s[1..]);
      var rest := Split(s[1..]);
      if s[0] == '\n' {
        assert ([""] + rest)[1..] == rest;
        assert s == "\n" + s[1..];
      } else {
        assert ([[s[0]] + rest[0]] + rest[1..])[1..] == rest[1..];
        assert s == [s[0]] + s[1..];
      }
    }
  }

  lemma {:induction false} SplitLine(l: string, s: string)
    requires NoNewline(l)
    ensures Split(l) == [l]
    ensures Split(l + "\n" + s) == [l] + Split(s)
  {
    if l == "" {
      assert l + "\n" + s == "\n" + s && ("\n" + s)[1..] == s;
    } else {
      SplitLine(l[1..], s);
      assert (l + "\n" + s)[1..] == l[1..] + "\n" + s;
      assert l == [l[0]] + l[1..];
    }
  }

  lemma {:induction false} SplitJoin(lines: seq<string>)
    requires lines != [] && forall l | l in lines :: NoNewline(l)
    ensures Split(Join(lines)) == lines
  {
    assert lines[0] in lines;
    if |lines| == 1 {
      SplitLine(lines[0], "");
    } else {
      SplitJoin(lines[1..]);
      SplitLine(lines[0], Join(lines[1..]));
    }
  }

  /** unicode.IsSpace. */
  predicate IsSpace(c: char) {
    || c in {'\t', '\n', '\U{0B}', '\U{0C}', '\r', ' ', '\U{85}', '\U{A0}', '\U{1680}'}
    || '\U{2000}' <= c <= '\U{200A}'
    || c in {'\U{2028}', '\U{2029}', '\U{202F}', '\U{205F}', '\U{3000}'}
  }

  function TrimLeft(s: string): string {
    if s != "" && IsSpace(s[0]) then TrimLeft(s[1..]) else s
  }

  function TrimRight(s: string): string {
    if s != "" && IsSpace(s[|s| - 1]) then TrimRight(s[..|s| - 1]) else s
  }

  function TrimSpace(s: string): string { TrimRight(TrimLeft(s)) }

  /** Text before and after the first occurrence of a separator. */
  function Cut(s: string, sep: char): Option<(string, string)> {
    if s == "" then None
    else if s[0] == sep then Some(("", s[1..]))
    else match Cut(s[1..], sep)
         case None => None
         case Some((before, after)) => Some(([s[0]] + before, after))
  }

  lemma {:induction false} NoCut(s: string, sep: char)
    requires sep !in s
    ensures Cut(s, sep) == None
  {
    if s != "" {
      NoCut(s[1..], sep);
    }
  }

  /** Trimming takes characters away and adds none. */
  lemma TrimmedIsInside(s: string)
    ensures forall c | c in TrimSpace(s) :: c in s
  {
    TrimLeftIsInside(s);
    TrimRightIsInside(TrimLeft(s));
  }

  lemma {:induction false} TrimLeftIsInside(s: string)
    ensures forall c | c in TrimLeft(s) :: c in s
  {
    if s != "" && IsSpace(s[0]) {
      TrimLeftIsInside(s[1..]);
    }
  }

  lemma {:induction false} TrimRightIsInside(s: string)
    ensures forall c | c in TrimRight(s) :: c in s
  {
    if s != "" && IsSpace(s[|s| - 1]) {
      TrimRightIsInside(s[..|s| - 1]);
    }
  }

  lemma {:induction false} CutAt(before: string, sep: char, after: string)
    requires sep !in before
    ensures Cut(before + [sep] + after, sep) == Some((before, after))
  {
    if before == "" {
      assert before + [sep] + after == [sep] + after;
    } else {
      CutAt(before[1..], sep, after);
      assert (before + [sep] + after)[1..] == before[1..] + [sep] + after;
      assert before == [before[0]] + before[1..];
    }
  }

  predicate HasPrefix(s: string, prefix: string) { prefix <= s }

  /** Byte order of sort.Strings, which is the order of code points. */
  predicate LessEq(a: string, b: string) {
    a == "" || (b != "" && (a[0] < b[0] || (a[0] == b[0] && LessEq(a[1..], b[1..]))))
  }

  lemma {:induction false} LessEqTotal(a: string, b: string)
    ensures LessEq(a, b) || LessEq(b, a)
    ensures LessEq(a, b) && LessEq(b, a) ==> a == b
  {
    if a != "" && b != "" && a[0] == b[0] {
      LessEqTotal(a[1..], b[1..]);
      assert a == [a[0]] + a[1..] && b == [b[0]] + b[1..];
    }
  }

  lemma {:induction false} LessEqTransitive(a: string, b: string, c: string)
    requires LessEq(a, b) && LessEq(b, c)
    ensures LessEq(a, c)
  {
    if a != "" && b != "" && c != "" && a[0] == b[0] == c[0] {
      LessEqTransitive(a[1..], b[1..], c[1..]);
    }
  }

  ghost predicate Sorted(xs: seq<string>) {
    forall i, j :: 0 <= i < j < |xs| ==> LessEq(xs[i], xs[j])
  }

  ghost predicate Distinct(xs: seq<string>) {
    forall i, j :: 0 <= i < j < |xs| ==> xs[i] != xs[j]
  }

  lemma TailMembers(xs: seq<string>)
    requires xs != [] && Distinct(xs)
    ensures forall x :: x in xs[1..] <==> x in xs && x != xs[0]
  {
    assert forall i :: 0 < i < |xs| ==> xs[i] == xs[1..][i - 1];
  }

  lemma SomeMember(xs: seq<string>)
    ensures xs == [] || exists x :: x in xs
  {
    if xs != [] { assert xs[0] in xs; }
  }

  /** A set of strings has one sorted listing. */
  lemma {:induction false} SortedListingIsUnique(a: seq<string>, b: seq<string>)
    requires Sorted(a) && Distinct(a) && Sorted(b) && Distinct(b)
    requires forall x :: x in a <==> x in b
    ensures a == b
  {
    SomeMember(b);
    if a != [] {
      assert a[0] in b && b != [];
      assert b[0] in a;
      LessEqTotal(a[0], b[0]);
      assert a[0] == b[0];
      TailMembers(a);
      TailMembers(b);
      SortedListingIsUnique(a[1..], b[1..]);
      assert a == [a[0]] + a[1..] && b == [b[0]] + b[1..];
    }
  }

  /** sort.Strings on a list without duplicates, by insertion. */
  method SortStrings(xs: seq<string>) returns (r: seq<string>)
    requires Distinct(xs)
    ensures Sorted(r) && Distinct(r) && forall x :: x in r <==> x in xs
  {
    r := [];
    for i := 0 to |xs|
      invariant Sorted(r) && Distinct(r) && forall x :: x in r <==> x in xs[..i]
    {
      assert xs[..i + 1] == xs[..i] + [xs[i]];
      assert xs[i] !in xs[..i];
      r := InsertSorted(r, xs[i]);
    }
    assert xs[..|xs|] == xs;
  }

  method InsertSorted(xs: seq<string>, x: string) returns (r: seq<string>)
    requires Sorted(xs) && Distinct(xs) && x !in xs
    ensures Sorted(r) && Distinct(r) && forall y :: y in r <==> y in xs || y == x
  {
    var k := 0;
    while k < |xs| && LessEq(xs[k], x)
      invariant 0 <= k <= |xs|
      invariant forall i :: 0 <= i < k ==> LessEq(xs[i], x)
    {
      k := k + 1;
    }
    r := xs[..k] + [x] + xs[k..];
    InsertionKeepsOrder(xs, x, k);
    assert xs == xs[..k] + xs[k..];
  }

  lemma InsertionKeepsOrder(xs: seq<string>, x: string, k: nat)
    requires Sorted(xs) && Distinct(xs) && x !in xs && k <= |xs|
    requires forall i :: 0 <= i < k ==> LessEq(xs[i], x)
    requires k < |xs| ==> !LessEq(xs[k], x)
    ensures Sorted(xs[..k] + [x] + xs[k..]) && Distinct(xs[..k] + [x] + xs[k..])
  {
    var r := xs[..k] + [x] + xs[k..];
    forall i | k <= i < |xs| ensures LessEq(x, xs[i]) {
      LessEqTotal(x, xs[k]);
      if i > k { LessEqTransitive(x, xs[k], xs[i]); }
    }
    forall i, j | 0 <= i < j < |r| ensures LessEq(r[i], r[j]) && r[i] != r[j] {
      assert r[i] == if i < k then xs[i] else if i == k then x else xs[i - 1];
      assert r[j] == if j < k then xs[j] else if j == k then x else xs[j - 1];
    }
  }
}
