/** Lists from which the elements that fail a test are dropped. */
module Filtering {

  function Filter<T>(keep: T -> bool, s: seq<T>): seq<T> {
    if s == [] then [] else Filter(keep, s[..|s| - 1]) + if keep(s[|s| - 1]) then [s[|s| - 1]] else []
  }

  lemma {:induction false} FilterMembers<T(!new)>(keep: T -> bool, s: seq<T>)
    ensures forall x :: x in Filter(keep, s) <==> x in s && keep(x)
  {
    if s != [] {
      var n := |s| - 1;
      FilterMembers(keep, s[..n]);
      assert s == s[..n] + [s[n]];
    }
  }

  /** `r` lists the elements of `s` that pass the test: each of them, as often and in the order they occur. */
  ghost predicate KeepsExactly<T(!new)>(keep: T -> bool, s: seq<T>, r: seq<T>, places: seq<nat>) {
    && |places| == |r|
    && (forall i :: 0 <= i < |r| ==> places[i] < |s| && r[i] == s[places[i]])
    && (forall i, j :: 0 <= i < j < |places| ==> places[i] < places[j])
    && (forall n: nat :: n in places <==> n < |s| && keep(s[n]))
  }

  lemma KeepsOneMore<T(!new)>(keep: T -> bool, s: seq<T>, r: seq<T>, places: seq<nat>, x: T)
    requires KeepsExactly(keep, s, r, places)
    ensures keep(x) ==> KeepsExactly(keep, s + [x], r + [x], places + [|s|])
    ensures !keep(x) ==> KeepsExactly(keep, s + [x], r, places)
  {
    forall i | 0 <= i < |places|
      ensures places[i] < |s|
    {
    }
    assert forall n :: n in places + [|s|] <==> n in places || n == |s|;
  }

  lemma {:induction false} FilterMeaning<T(!new)>(keep: T -> bool, s: seq<T>) returns (places: seq<nat>)
    ensures KeepsExactly(keep, s, Filter(keep, s), places)
  {
    places := [];
    if s != [] {
      var n := |s| - 1;
      places := FilterMeaning(keep, s[..n]);
      KeepsOneMore(keep, s[..n], Filter(keep, s[..n]), places, s[n]);
      assert s == s[..n] + [s[n]];
      if keep(s[n]) {
        places := places + [n];
      }
    }
  }

  lemma FilterMore<T(!new)>(keep: T -> bool, s: seq<T>, i: nat)
    requires i < |s|
    ensures Filter(keep, s[..i + 1]) == Filter(keep, s[..i]) + if keep(s[i]) then [s[i]] else []
  {
    assert s[..i + 1][..i] == s[..i];
  }

  /** Two tests leave the same list exactly if they agree on its elements. */
  lemma {:induction false} FiltersAgree<T(!new)>(p: T -> bool, q: T -> bool, s: seq<T>)
    ensures Filter(p, s) == Filter(q, s) <==> forall x | x in s :: p(x) <==> q(x)
  {
    if forall x | x in s :: p(x) <==> q(x) {
      FiltersEqual(p, q, s);
    }
    if Filter(p, s) == Filter(q, s) {
      FilterMembers(p, s);
      FilterMembers(q, s);
      forall x | x in s
        ensures p(x) <==> q(x)
      {
        assert x in Filter(p, s) <==> x in Filter(q, s);
      }
    }
  }

  lemma {:induction false} FiltersEqual<T(!new)>(p: T -> bool, q: T -> bool, s: seq<T>)
    requires forall x | x in s :: p(x) <==> q(x)
    ensures Filter(p, s) == Filter(q, s)
  {
    if s != [] {
      FiltersEqual(p, q, s[..|s| - 1]);
      assert s[|s| - 1] in s;
    }
  }
}
