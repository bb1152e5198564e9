/**
 Writing fragments as the items of one flat list of lines and reading them back, for any
 way of marking the first line of an item and its continuation lines.
 */
module ListItems {

  datatype Marks<!L> = Marks(
    item: L -> L,         // the first line of an item
    more: L -> L,         // any further line
    isItem: L -> bool,
    unitem: L -> L,
    unmore: L -> L)

  /** First lines are recognised, continuation lines are not mistaken for them. */
  ghost predicate Recoverable<L(!new)>(m: Marks<L>) {
    && (forall l :: m.isItem(m.item(l)) && m.unitem(m.item(l)) == l)
    && (forall l :: !m.isItem(m.more(l)) && m.unmore(m.more(l)) == l)
  }

  function Continuation<L>(m: Marks<L>, rest: seq<L>): (r: seq<L>)
    ensures |r| == |rest|
  {
    if rest == [] then [] else Continuation(m, rest[..|rest| - 1]) + [m.more(rest[|rest| - 1])]
  }

  function Item<L>(m: Marks<L>, fragment: seq<L>): seq<L>
    requires fragment != []
  {
    [m.item(fragment[0])] + Continuation(m, fragment[1..])
  }

  predicate NonEmpty<L>(fragments: seq<seq<L>>) {
    forall i :: 0 <= i < |fragments| ==> |fragments[i]| > 0
  }

  function Items<L>(m: Marks<L>, fragments: seq<seq<L>>): seq<L>
    requires NonEmpty(fragments)
  {
    if fragments == [] then []
    else Items(m, fragments[..|fragments| - 1]) + Item(m, fragments[|fragments| - 1])
  }

  /** Reading one more line of a list. */
  function ReadLine<L>(m: Marks<L>, fragments: seq<seq<L>>, l: L): seq<seq<L>> {
    if m.isItem(l) then fragments + [[m.unitem(l)]]
    else if fragments == [] then []
    else fragments[..|fragments| - 1] + [fragments[|fragments| - 1] + [m.unmore(l)]]
  }

  function ReadLines<L>(m: Marks<L>, lines: seq<L>): seq<seq<L>> {
    if lines == [] then [] else ReadLine(m, ReadLines(m, lines[..|lines| - 1]), lines[|lines| - 1])
  }

  lemma ReadSnoc<L>(m: Marks<L>, lines: seq<L>, l: L)
    ensures ReadLines(m, lines + [l]) == ReadLine(m, ReadLines(m, lines), l)
  {
    assert (lines + [l])[..|lines|] == lines;
  }

  lemma ReadMore<L(!new)>(m: Marks<L>, fragments: seq<seq<L>>, last: seq<L>, l: L)
    requires Recoverable(m)
    ensures ReadLine(m, fragments + [last], m.more(l)) == fragments + [last + [l]]
  {
    assert (fragments + [last])[..|fragments|] == fragments;
  }

  lemma {:induction false} ReadItem<L(!new)>(m: Marks<L>, lines: seq<L>, first: L, rest: seq<L>)
    requires Recoverable(m)
    ensures ReadLines(m, lines + ([m.item(first)] + Continuation(m, rest))) == ReadLines(m, lines) + [[first] + rest]
  {
    if rest == [] {
      assert [m.item(first)] + Continuation(m, rest) == [m.item(first)];
      ReadSnoc(m, lines, m.item(first));
      assert [first] + rest == [first];
    } else {
      var n := |rest| - 1;
      var before := lines + ([m.item(first)] + Continuation(m, rest[..n]));
      ReadItem(m, lines, first, rest[..n]);
      assert lines + ([m.item(first)] + Continuation(m, rest)) == before + [m.more(rest[n])];
      ReadSnoc(m, before, m.more(rest[n]));
      ReadMore(m, ReadLines(m, lines), [first] + rest[..n], rest[n]);
      assert [first] + rest[..n] + [rest[n]] == [first] + rest;
    }
  }

  /** Reading a list back gives the fragments it was made of, in order. */
  lemma {:induction false} ReadItems<L(!new)>(m: Marks<L>, fragments: seq<seq<L>>)
    requires Recoverable(m) && NonEmpty(fragments)
    ensures ReadLines(m, Items(m, fragments)) == fragments
  {
    if fragments != [] {
      var n := |fragments| - 1;
      ReadItems(m, fragments[..n]);
      var f := fragments[n];
      ReadItem(m, Items(m, fragments[..n]), f[0], f[1..]);
      assert Items(m, fragments) == Items(m, fragments[..n]) + ([m.item(f[0])] + Continuation(m, f[1..]));
      assert [f[0]] + f[1..] == f;
      assert fragments == fragments[..n] + [f];
    }
  }
}
