/**
 Reading and writing a value in nested maps by a path of keys. Maps are mutable objects that
 refer to one another; the specification looks at a snapshot of the objects.
 */
module NestedValues {

  datatype Option<T> = None | Some(value: T)

  /** What a map holds: plain data, a nil map, or another map. */
  datatype Value<N> = Leaf(data: string) | NilTree | Tree(node: N)

  type Heap<N> = map<N, map<string, Value<N>>>

  predicate HasChild<N(==)>(h: Heap<N>, n: N, key: string) {
    n in h && key in h[n] && h[n][key].Tree?
  }

  function Child<N(==)>(h: Heap<N>, n: N, key: string): N
    requires HasChild(h, n, key)
  {
    h[n][key].node
  }

  ghost predicate Unreferenced<N>(h: Heap<N>, m: N) {
    forall n, key | n in h && HasChild(h, n, key) :: Child(h, n, key) != m
  }

  /** Maps below `root` are all here. */
  ghost predicate Closed<N>(h: Heap<N>, root: N) {
    root in h && forall n, key | n in h && HasChild(h, n, key) :: Child(h, n, key) in h
  }

  /** None is in two places and none holds the root. */
  ghost predicate NoSharing<N>(h: Heap<N>, root: N) {
    && Closed(h, root)
    && (forall n, key, m, other | n in h && HasChild(h, n, key) && m in h && HasChild(h, m, other) ::
          Child(h, n, key) == Child(h, m, other) ==> n == m && key == other)
    && Unreferenced(h, root)
  }

  /** The map at the end of a path, if the path leads through maps only. */
  function Walk<N>(h: Heap<N>, n: N, path: seq<string>): Option<N> {
    if path == [] then Some(n)
    else
      var at := Walk(h, n, path[..|path| - 1]);
      var key := path[|path| - 1];
      if at.Some? && HasChild(h, at.value, key) then Some(Child(h, at.value, key)) else None
  }

  /** The value stored under a path. */
  function Get<N>(h: Heap<N>, n: N, path: seq<string>): Option<Value<N>>
    requires path != []
  {
    var at := Walk(h, n, path[..|path| - 1]);
    var key := path[|path| - 1];
    if at.Some? && at.value in h && key in h[at.value] then Some(h[at.value][key]) else None
  }

  /** A value on which a walk gets stuck. */
  predicate Stuck<N>(v: Option<Value<N>>) { v.Some? && !v.value.Tree? }

  /** Plain data stands in the way of the path. */
  predicate Blocked<N>(h: Heap<N>, n: N, path: seq<string>) {
    exists i :: 0 < i < |path| && Stuck(Get(h, n, path[..i])) && Get(h, n, path[..i]).value.Leaf?
  }

  /** The path leads into a nil map. */
  predicate IntoNil<N>(h: Heap<N>, n: N, path: seq<string>) {
    exists i :: 0 < i < |path| && Get(h, n, path[..i]) == Some(NilTree)
  }

  /** The path uses the entry `key` of map `at`. */
  predicate Uses<N(==)>(h: Heap<N>, n: N, path: seq<string>, at: N, key: string) {
    path != [] &&
    var before := path[..|path| - 1];
    Uses(h, n, before, at, key) || (Walk(h, n, before) == Some(at) && path[|path| - 1] == key)
  }

  predicate Diverges(p: seq<string>, q: seq<string>) { !(p <= q) && !(q <= p) }

  lemma WalkOn<N>(h: Heap<N>, n: N, path: seq<string>, key: string)
    ensures var at := Walk(h, n, path);
            Walk(h, n, path + [key]) ==
            if at.Some? && HasChild(h, at.value, key) then Some(Child(h, at.value, key)) else None
  {
    assert (path + [key])[..|path|] == path;
  }

  lemma {:induction false} WalkStaysInside<N>(h: Heap<N>, root: N, path: seq<string>)
    requires Closed(h, root)
    ensures Walk(h, root, path).Some? ==> Walk(h, root, path).value in h
  {
    if path != [] {
      WalkStaysInside(h, root, path[..|path| - 1]);
    }
  }

  /** A path that leads nowhere leads nowhere when continued. */
  lemma {:induction false} NoWayOn<N>(h: Heap<N>, n: N, p: seq<string>, q: seq<string>)
    requires p <= q && Walk(h, n, p).None?
    ensures Walk(h, n, q).None?
  {
    if |p| < |q| {
      NoWayOn(h, n, p, q[..|q| - 1]);
    } else {
      assert p == q;
    }
  }

  /** Without sharing there is only one path to each map. */
  lemma {:induction false} UniquePath<N>(h: Heap<N>, root: N, p: seq<string>, q: seq<string>)
    requires NoSharing(h, root)
    requires Walk(h, root, p).Some? && Walk(h, root, p) == Walk(h, root, q)
    ensures p == q
    decreases |p| + |q|
  {
    if p != [] && q != [] {
      var p', q' := p[..|p| - 1], q[..|q| - 1];
      WalkStaysInside(h, root, p');
      WalkStaysInside(h, root, q');
      UniquePath(h, root, p', q');
      assert p == p' + [p[|p| - 1]] && q == q' + [q[|q| - 1]];
    } else if p != [] {
      WalkStaysInside(h, root, p[..|p| - 1]);
    } else if q != [] {
      WalkStaysInside(h, root, q[..|q| - 1]);
    }
  }

  /** The snapshot after map `at` got `v` under `key`. */
  function Put<N(==)>(h: Heap<N>, at: N, key: string, v: Value<N>): Heap<N>
    requires at in h
  {
    h[at := h[at][key := v]]
  }

  /** In any heap, paths that do not use the entry written lead where they led. */
  lemma {:induction false} WalkUnused<N>(h: Heap<N>, root: N, at: N, key: string, v: Value<N>, q: seq<string>)
    requires at in h && !Uses(h, root, q, at, key)
    ensures Walk(Put(h, at, key, v), root, q) == Walk(h, root, q)
  {
    if q != [] {
      WalkUnused(h, root, at, key, v, q[..|q| - 1]);
    }
  }

  /** Paths that use it end there if a value is written that is no map. */
  lemma {:induction false} WalkCut<N>(h: Heap<N>, root: N, at: N, key: string, v: Value<N>, q: seq<string>)
    requires at in h && Uses(h, root, q, at, key) && !v.Tree?
    ensures Walk(Put(h, at, key, v), root, q).None?
  {
    var q' := q[..|q| - 1];
    if Uses(h, root, q', at, key) {
      WalkCut(h, root, at, key, v, q');
    } else {
      WalkUnused(h, root, at, key, v, q');
    }
  }

  /** A path that leads somewhere does not use an entry that is missing. */
  lemma {:induction false} MissingIsUnused<N>(h: Heap<N>, n: N, q: seq<string>, at: N, key: string)
    requires at in h && key !in h[at] && Walk(h, n, q).Some?
    ensures !Uses(h, n, q, at, key)
  {
    if q != [] {
      MissingIsUnused(h, n, q[..|q| - 1], at, key);
    }
  }

  /** Paths that do not use the entry written lead where they led. */
  lemma {:induction false} WalkBeside<N>(h: Heap<N>, root: N, p: seq<string>, key: string, v: Value<N>, q: seq<string>)
    requires NoSharing(h, root) && Walk(h, root, p).Some? && Walk(h, root, p).value in h
    requires !(p + [key] <= q)
    ensures Walk(Put(h, Walk(h, root, p).value, key, v), root, q) == Walk(h, root, q)
  {
    if q != [] {
      var q', last := q[..|q| - 1], q[|q| - 1];
      assert q == q' + [last];
      WalkBeside(h, root, p, key, v, q');
      if Walk(h, root, q') == Walk(h, root, p) {
        UniquePath(h, root, q', p);
      }
    }
  }

  lemma GetBeside<N>(h: Heap<N>, root: N, p: seq<string>, key: string, v: Value<N>, q: seq<string>)
    requires NoSharing(h, root) && Walk(h, root, p).Some? && Walk(h, root, p).value in h
    requires q != [] && !(p + [key] <= q)
    ensures Get(Put(h, Walk(h, root, p).value, key, v), root, q) == Get(h, root, q)
  {
    var q', last := q[..|q| - 1], q[|q| - 1];
    assert q == q' + [last];
    WalkBeside(h, root, p, key, v, q');
    if Walk(h, root, q') == Walk(h, root, p) {
      UniquePath(h, root, q', p);
    }
  }

  /** The entry itself reads as written. */
  lemma GetAt<N>(h: Heap<N>, root: N, p: seq<string>, key: string, v: Value<N>)
    requires NoSharing(h, root) && Walk(h, root, p).Some? && Walk(h, root, p).value in h
    ensures Get(Put(h, Walk(h, root, p).value, key, v), root, p + [key]) == Some(v)
  {
    WalkBeside(h, root, p, key, v, p);
    assert (p + [key])[..|p|] == p;
  }

  lemma PutKeepsClosed<N>(h: Heap<N>, root: N, at: N, key: string, v: Value<N>)
    requires Closed(h, root) && at in h && (v.Tree? ==> v.node in h)
    ensures Closed(Put(h, at, key, v), root)
  {
    var g := Put(h, at, key, v);
    assert forall n, k | n in g && HasChild(g, n, k) && !(n == at && k == key) ::
        HasChild(h, n, k) && Child(h, n, k) == Child(g, n, k);
  }

  lemma NewMapKeepsClosed<N>(h: Heap<N>, root: N, m: N)
    requires Closed(h, root) && m !in h
    ensures Closed(h[m := map[]], root)
  {
    var g := h[m := map[]];
    assert forall n, k | n in g && HasChild(g, n, k) :: n in h && HasChild(h, n, k) && Child(h, n, k) == Child(g, n, k);
  }

  /** Hanging up a map that hangs nowhere keeps the tree a tree. */
  lemma PutKeepsTree<N>(h: Heap<N>, root: N, at: N, key: string, v: Value<N>)
    requires NoSharing(h, root) && at in h
    requires v.Tree? ==> v.node in h && v.node != root && Unreferenced(h, v.node)
    ensures NoSharing(Put(h, at, key, v), root)
  {
    var g := Put(h, at, key, v);
    assert forall n, k | n in g && HasChild(g, n, k) && !(n == at && k == key) ::
        HasChild(h, n, k) && Child(h, n, k) == Child(g, n, k);
  }

  /** So does a new empty map, which hangs nowhere. */
  lemma NewMap<N>(h: Heap<N>, root: N, m: N)
    requires NoSharing(h, root) && m !in h
    ensures NoSharing(h[m := map[]], root) && Unreferenced(h[m := map[]], m)
  {
    var g := h[m := map[]];
    assert forall n, k | n in g && HasChild(g, n, k) :: n in h && HasChild(h, n, k) && Child(h, n, k) == Child(g, n, k);
  }

  lemma {:induction false} NewMapUnseen<N>(h: Heap<N>, root: N, m: N, q: seq<string>)
    requires Closed(h, root) && m !in h
    ensures Walk(h[m := map[]], root, q) == Walk(h, root, q)
    ensures q != [] ==> Get(h[m := map[]], root, q) == Get(h, root, q)
  {
    if q != [] {
      NewMapUnseen(h, root, m, q[..|q| - 1]);
      WalkStaysInside(h, root, q[..|q| - 1]);
    }
  }

  /** Nothing is stored below an empty map. */
  lemma NothingBelow<N>(h: Heap<N>, root: N, p: seq<string>, q: seq<string>)
    requires p < q && (Walk(h, root, p).None? || (Walk(h, root, p).value in h && h[Walk(h, root, p).value] == map[]))
    ensures Get(h, root, q) == None
  {
    if |q| == |p| + 1 {
      assert q[..|q| - 1] == p;
    } else {
      var next := p + [q[|p|]];
      assert next <= q[..|q| - 1];
      WalkOn(h, root, p, q[|p|]);
      if Walk(h, root, p).None? {
        NoWayOn(h, root, p, next);
      }
      NoWayOn(h, root, next, q[..|q| - 1]);
    }
  }

  /** Paths that part from `keys` read as before. */
  ghost predicate SameBeside<N>(h: Heap<N>, g: Heap<N>, root: N, keys: seq<string>) {
    forall q | Diverges(q, keys) :: Get(g, root, q) == Get(h, root, q)
  }

  /** Maps that were on the way are still the same maps. */
  ghost predicate KeepsMaps<N>(h: Heap<N>, g: Heap<N>, root: N, keys: seq<string>) {
    forall j | 0 <= j < |keys| && Walk(h, root, keys[..j]).Some? ::
      Walk(g, root, keys[..j]) == Walk(h, root, keys[..j])
  }

  /** One step down a path that ends here: a new map under the next key. */
  lemma Deepen<N>(h: Heap<N>, root: N, keys: seq<string>, i: nat, m: N)
    requires NoSharing(h, root) && m !in h && i < |keys|
    requires Walk(h, root, keys[..i]).Some? && Walk(h, root, keys[..i]).value in h
    requires keys[i] !in h[Walk(h, root, keys[..i]).value]
    ensures var g := Put(h[m := map[]], Walk(h, root, keys[..i]).value, keys[i], Tree(m));
            NoSharing(g, root) && Walk(g, root, keys[..i + 1]) == Some(m) &&
            SameBeside(h, g, root, keys) && KeepsMaps(h, g, root, keys)
  {
    var p, key, at := keys[..i], keys[i], Walk(h, root, keys[..i]).value;
    var h' := h[m := map[]];
    var g := Put(h', at, key, Tree(m));
    assert keys[..i + 1] == p + [key];
    NewMap(h, root, m);
    NewMapUnseen(h, root, m, p);
    PutKeepsTree(h', root, at, key, Tree(m));
    WalkBeside(h', root, p, key, Tree(m), p);
    WalkOn(g, root, p, key);
    WalkOn(h, root, p, key);
    forall q | Diverges(q, keys)
      ensures Get(g, root, q) == Get(h, root, q)
    {
      if p + [key] <= q {
        NothingBelow(h, root, p + [key], q);
        NothingBelow(g, root, p + [key], q);
      } else {
        NewMapUnseen(h, root, m, q);
        GetBeside(h', root, p, key, Tree(m), q);
      }
    }
    forall j | 0 <= j < |keys| && Walk(h, root, keys[..j]).Some?
      ensures Walk(g, root, keys[..j]) == Walk(h, root, keys[..j])
    {
      if j > i {
        assert p + [key] <= keys[..j];
        NoWayOn(h, root, p + [key], keys[..j]);
      } else {
        NewMapUnseen(h, root, m, keys[..j]);
        WalkBeside(h', root, p, key, Tree(m), keys[..j]);
      }
    }
  }

  /** The last step: the value goes under the last key. */
  lemma Store<N>(h: Heap<N>, root: N, keys: seq<string>, v: Value<N>)
    requires NoSharing(h, root) && keys != []
    requires v.Tree? ==> v.node in h && v.node != root && Unreferenced(h, v.node)
    requires Walk(h, root, keys[..|keys| - 1]).Some? && Walk(h, root, keys[..|keys| - 1]).value in h
    ensures var g := Put(h, Walk(h, root, keys[..|keys| - 1]).value, keys[|keys| - 1], v);
            NoSharing(g, root) && Get(g, root, keys) == Some(v) &&
            SameBeside(h, g, root, keys) && KeepsMaps(h, g, root, keys)
  {
    var p, key := keys[..|keys| - 1], keys[|keys| - 1];
    assert keys == p + [key];
    PutKeepsTree(h, root, Walk(h, root, p).value, key, v);
    GetAt(h, root, p, key, v);
    forall q | Diverges(q, keys)
      ensures Get(Put(h, Walk(h, root, p).value, key, v), root, q) == Get(h, root, q)
    {
      GetBeside(h, root, p, key, v, q);
    }
    forall j | 0 <= j < |keys|
      ensures Walk(Put(h, Walk(h, root, p).value, key, v), root, keys[..j]) == Walk(h, root, keys[..j])
    {
      WalkBeside(h, root, p, key, v, keys[..j]);
    }
  }

  /** Map `at` has changed under `key` only, and no other map of `h` has. */
  ghost predicate ChangesOnly<N>(h: Heap<N>, g: Heap<N>, at: N, key: string) {
    forall n | n in h :: n in g && if n == at then key in g[n] && g[n] == h[n][key := g[n][key]] else g[n] == h[n]
  }

  /** At most one entry of one existing map has changed, at the end of some part of the path. */
  ghost predicate OneEntry<N>(h: Heap<N>, g: Heap<N>, root: N, keys: seq<string>) {
    || g == h
    || exists j :: 0 <= j < |keys| && Walk(h, root, keys[..j]).Some? &&
                   ChangesOnly(h, g, Walk(h, root, keys[..j]).value, keys[j])
  }

  /** The way to the last map already uses the entry that is to be written. */
  predicate Revisits<N(==)>(h: Heap<N>, root: N, keys: seq<string>) {
    && keys != [] && Walk(h, root, keys[..|keys| - 1]).Some?
    && Uses(h, root, keys[..|keys| - 1], Walk(h, root, keys[..|keys| - 1]).value, keys[|keys| - 1])
  }

  /**
   What PutValue makes of any maps, shared or not.  Plain data or a nil map in the way leaves everything
   as it was, with no maps made.  Otherwise the value is found under the path unless the way to it goes
   through the entry written, and for a value that is no map only then.
   */
  ghost predicate Outcome<N>(h: Heap<N>, g: Heap<N>, root: N, keys: seq<string>, v: Value<N>) {
    && Closed(g, root) && OneEntry(h, g, root, keys)
    && if keys == [] || Blocked(h, root, keys) || IntoNil(h, root, keys) then g == h
       else
         && (!Revisits(h, root, keys) ==> Get(g, root, keys) == Some(v))
         && (Revisits(h, root, keys) && !v.Tree? ==> Get(g, root, keys) == None)
  }

  /** Without sharing, all paths that part from the one written read as before, and there is still no sharing. */
  ghost predicate TreeOutcome<N>(h: Heap<N>, g: Heap<N>, root: N, keys: seq<string>, v: Value<N>) {
    && NoSharing(g, root) && SameBeside(h, g, root, keys) && KeepsMaps(h, g, root, keys)
    && (keys != [] && !Blocked(h, root, keys) && !IntoNil(h, root, keys) ==> Get(g, root, keys) == Some(v))
  }

  /** A tree, and a value to put into it that hangs nowhere yet. */
  ghost predicate TreeAndValue<N>(h: Heap<N>, root: N, v: Value<N>) {
    NoSharing(h, root) && (v.Tree? ==> v.node in h && v.node != root && Unreferenced(h, v.node))
  }

  /** PutValue at its `i`-th key: `g` is the heap by now, `cur` its map and `started` says it made maps. */
  ghost predicate Progress<N>(h: Heap<N>, g: Heap<N>, root: N, keys: seq<string>, v: Value<N>, i: nat, cur: N,
                              started: bool) {
    && i < |keys| && Closed(g, root) && (v.Tree? ==> v.node in g)
    && cur in g && Walk(g, root, keys[..i]) == Some(cur)
    && (if started
        then g[cur] == map[] && cur !in h && Walk(h, root, keys[..i]) == None && OneEntry(h, g, root, keys)
        else g == h)
    && (forall j | 0 < j <= i :: !Stuck(Get(h, root, keys[..j])))
  }

  ghost predicate TreeProgress<N>(h: Heap<N>, g: Heap<N>, root: N, keys: seq<string>, v: Value<N>) {
    TreeAndValue(g, root, v) && SameBeside(h, g, root, keys) && KeepsMaps(h, g, root, keys)
  }

  /** Changes to new maps leave the one changed entry the only one. */
  lemma OneEntryKept<N>(h: Heap<N>, g: Heap<N>, f: Heap<N>, root: N, keys: seq<string>)
    requires OneEntry(h, g, root, keys) && g != h
    requires forall n | n in h :: n in g ==> n in f && f[n] == g[n]
    ensures OneEntry(h, f, root, keys)
  {
    var j :| 0 <= j < |keys| && Walk(h, root, keys[..j]).Some? &&
             ChangesOnly(h, g, Walk(h, root, keys[..j]).value, keys[j]);
    assert ChangesOnly(h, f, Walk(h, root, keys[..j]).value, keys[j]);
  }

  lemma OneEntryAt<N>(h: Heap<N>, f: Heap<N>, root: N, keys: seq<string>, i: nat, at: N)
    requires i < |keys| && Walk(h, root, keys[..i]) == Some(at) && ChangesOnly(h, f, at, keys[i])
    ensures OneEntry(h, f, root, keys)
  {
  }

  lemma PutChangesOnly<N>(h: Heap<N>, at: N, key: string, v: Value<N>, m: N)
    requires at in h && m !in h
    ensures ChangesOnly(h, Put(h, at, key, v), at, key) && ChangesOnly(h, Put(h[m := map[]], at, key, v), at, key)
  {
  }

  lemma Descend<N>(h: Heap<N>, g: Heap<N>, root: N, keys: seq<string>, v: Value<N>, i: nat, cur: N, started: bool)
    requires Progress(h, g, root, keys, v, i, cur, started) && i + 1 < |keys| && HasChild(g, cur, keys[i])
    ensures Progress(h, g, root, keys, v, i + 1, Child(g, cur, keys[i]), started)
  {
    assert keys[..i + 1] == keys[..i] + [keys[i]];
    WalkOn(g, root, keys[..i], keys[i]);
  }

  /** A new map under a missing key is where the path then leads. */
  lemma NewMapOnPath<N>(g: Heap<N>, root: N, p: seq<string>, key: string, cur: N, m: N)
    requires Closed(g, root) && cur in g && Walk(g, root, p) == Some(cur) && key !in g[cur] && m !in g
    ensures var f := Put(g[m := map[]], cur, key, Tree(m)); Closed(f, root) && Walk(f, root, p + [key]) == Some(m)
  {
    var g' := g[m := map[]];
    NewMapKeepsClosed(g, root, m);
    PutKeepsClosed(g', root, cur, key, Tree(m));
    NewMapUnseen(g, root, m, p);
    MissingIsUnused(g', root, p, cur, key);
    WalkUnused(g', root, cur, key, Tree(m), p);
    WalkOn(Put(g', cur, key, Tree(m)), root, p, key);
  }

  lemma Grow<N>(h: Heap<N>, g: Heap<N>, root: N, keys: seq<string>, v: Value<N>, i: nat, cur: N, started: bool, m: N)
    requires Progress(h, g, root, keys, v, i, cur, started) && i + 1 < |keys|
    requires keys[i] !in g[cur] && m !in g && m !in h
    ensures Progress(h, Put(g[m := map[]], cur, keys[i], Tree(m)), root, keys, v, i + 1, m, true)
  {
    var f := Put(g[m := map[]], cur, keys[i], Tree(m));
    assert keys[..i + 1] == keys[..i] + [keys[i]];
    assert keys[..i + 1][..i] == keys[..i] && Get(h, root, keys[..i + 1]) == None;
    WalkOn(h, root, keys[..i], keys[i]);
    NewMapOnPath(g, root, keys[..i], keys[i], cur, m);
    if started {
      OneEntryKept(h, g, f, root, keys);
    } else {
      PutChangesOnly(h, cur, keys[i], Tree(m), m);
      OneEntryAt(h, f, root, keys, i, cur);
    }
  }

  lemma GrowTree<N>(h: Heap<N>, g: Heap<N>, root: N, keys: seq<string>, v: Value<N>, i: nat, cur: N, m: N)
    requires TreeProgress(h, g, root, keys, v) && i < |keys| && Walk(g, root, keys[..i]) == Some(cur) && cur in g
    requires keys[i] !in g[cur] && m !in g
    ensures TreeProgress(h, Put(g[m := map[]], cur, keys[i], Tree(m)), root, keys, v)
  {
    Deepen(g, root, keys, i, m);
    if v.Tree? {
      StillUnreferenced(g, cur, keys[i], m, v.node);
    }
  }

  lemma StillUnreferenced<N>(g: Heap<N>, cur: N, key: string, m: N, n: N)
    requires Unreferenced(g, n) && cur in g && m !in g && n in g
    ensures Unreferenced(Put(g[m := map[]], cur, key, Tree(m)), n)
  {
    var f := Put(g[m := map[]], cur, key, Tree(m));
    assert forall x, k | x in f && HasChild(f, x, k) && !(x == cur && k == key) ::
        x in g && HasChild(g, x, k) && Child(g, x, k) == Child(f, x, k);
  }

  /** Nothing is found beyond the value on which a walk gets stuck. */
  lemma StuckOnce<N>(h: Heap<N>, root: N, keys: seq<string>, i: nat, j: nat)
    requires 0 < i < j <= |keys| && Stuck(Get(h, root, keys[..i]))
    ensures Get(h, root, keys[..j]) == None
  {
    assert keys[..i][..i - 1] == keys[..i - 1] && keys[..i] == keys[..i - 1] + [keys[i - 1]];
    WalkOn(h, root, keys[..i - 1], keys[i - 1]);
    NoWayOn(h, root, keys[..i], keys[..j - 1]);
    assert keys[..j][..j - 1] == keys[..j - 1];
  }

  /** Only a path that was there already gets stuck, so nothing has been made by then. */
  lemma Stop<N>(h: Heap<N>, g: Heap<N>, root: N, keys: seq<string>, v: Value<N>, i: nat, cur: N, started: bool)
    requires Progress(h, g, root, keys, v, i, cur, started) && i + 1 < |keys|
    requires keys[i] in g[cur] && !g[cur][keys[i]].Tree?
    ensures g == h && !started && Outcome(h, g, root, keys, v)
    ensures IntoNil(h, root, keys) <==> g[cur][keys[i]].NilTree?
    ensures Blocked(h, root, keys) <==> g[cur][keys[i]].Leaf?
  {
    assert keys[..i + 1][..i] == keys[..i];
    var found := Get(h, root, keys[..i + 1]);
    assert found == Some(g[cur][keys[i]]) && Stuck(found);
    forall j | 0 < j < |keys| && j != i + 1
      ensures !Stuck(Get(h, root, keys[..j]))
    {
      if j > i + 1 {
        StuckOnce(h, root, keys, i + 1, j);
      }
    }
  }

  lemma NotStuck<N>(h: Heap<N>, g: Heap<N>, root: N, keys: seq<string>, v: Value<N>, i: nat, cur: N, started: bool)
    requires Progress(h, g, root, keys, v, i, cur, started) && i + 1 == |keys|
    ensures !Blocked(h, root, keys) && !IntoNil(h, root, keys)
  {
    forall j | 0 < j < |keys|
      ensures !Stuck(Get(h, root, keys[..j]))
    {
    }
  }

  /** The last entry reads as written exactly if the way to it does not use it, or a map was written. */
  lemma ReadBack<N>(g: Heap<N>, root: N, keys: seq<string>, v: Value<N>, cur: N)
    requires keys != [] && cur in g && Walk(g, root, keys[..|keys| - 1]) == Some(cur)
    ensures var key := keys[|keys| - 1];
            var used := Uses(g, root, keys[..|keys| - 1], cur, key);
            && (!used ==> Get(Put(g, cur, key, v), root, keys) == Some(v))
            && (used && !v.Tree? ==> Get(Put(g, cur, key, v), root, keys) == None)
  {
    var p, key := keys[..|keys| - 1], keys[|keys| - 1];
    if !Uses(g, root, p, cur, key) {
      WalkUnused(g, root, cur, key, v, p);
    } else if !v.Tree? {
      WalkCut(g, root, cur, key, v, p);
    }
  }

  lemma Finish<N>(h: Heap<N>, g: Heap<N>, root: N, keys: seq<string>, v: Value<N>, i: nat, cur: N, started: bool)
    requires Progress(h, g, root, keys, v, i, cur, started) && i + 1 == |keys|
    ensures Outcome(h, Put(g, cur, keys[i], v), root, keys, v)
  {
    var f := Put(g, cur, keys[i], v);
    NotStuck(h, g, root, keys, v, i, cur, started);
    PutKeepsClosed(g, root, cur, keys[i], v);
    ReadBack(g, root, keys, v, cur);
    if started {
      OneEntryKept(h, g, f, root, keys);
      MissingIsUnused(g, root, keys[..i], cur, keys[i]);
    } else {
      assert ChangesOnly(h, f, Walk(h, root, keys[..i]).value, keys[i]);
    }
  }

  lemma FinishTree<N>(h: Heap<N>, g: Heap<N>, root: N, keys: seq<string>, v: Value<N>, i: nat, cur: N)
    requires TreeProgress(h, g, root, keys, v) && i + 1 == |keys| && Walk(g, root, keys[..i]) == Some(cur) && cur in g
    ensures TreeOutcome(h, Put(g, cur, keys[i], v), root, keys, v)
  {
    Store(g, root, keys, v);
  }

  class MapNode {
    var entries: map<string, Value<MapNode>>

    constructor ()
      ensures entries == map[]
    {
      entries := map[];
    }
  }

  function Snapshot(nodes: set<MapNode>): Heap<MapNode>
    reads nodes
  {
    map n | n in nodes :: n.entries
  }

  method Assign(at: MapNode, key: string, v: Value<MapNode>, ghost nodes: set<MapNode>)
    requires at in nodes
    modifies at
    ensures Snapshot(nodes) == Put(old(Snapshot(nodes)), at, key, v)
  {
    at.entries := at.entries[key := v];
  }

  method Allocate(ghost nodes: set<MapNode>) returns (m: MapNode)
    ensures fresh(m) && m !in nodes && Snapshot(nodes + {m}) == Snapshot(nodes)[m := map[]]
    ensures Snapshot(nodes) == old(Snapshot(nodes))
  {
    m := new MapNode();
  }

  /** GetValue; a missing or plain intermediate value makes the rest of the walk find nothing. */
  method GetValue(data: MapNode?, keys: seq<string>, ghost nodes: set<MapNode>) returns (r: Option<Value<MapNode>>)
    requires data != null ==> Closed(Snapshot(nodes), data)
    ensures data == null || keys == [] ==> r == None
    ensures data != null && keys != [] ==> r == Get(Snapshot(nodes), data, keys)
  {
    ghost var h := Snapshot(nodes);
    var cur := data;
    var i := 0;
    while i < |keys|
      invariant 0 <= i <= |keys| && (i == |keys| ==> keys == [])
      invariant data == null ==> cur == null
      invariant data != null && i < |keys| ==>
                  var at := Walk(h, data, keys[..i]);
                  if cur == null then at.None? else at.Some? && at.value == cur
    {
      var key := keys[i];
      ghost var prefix := keys[..i];
      if data != null {
        WalkStaysInside(h, data, prefix);
        WalkOn(h, data, prefix, key);
        assert keys[..i + 1] == prefix + [key];
      }
      if i == |keys| - 1 {
        return if cur != null && key in cur.entries then Some(cur.entries[key]) else None;
      }
      cur := if cur != null && key in cur.entries && cur.entries[key].Tree? then cur.entries[key].node else null;
      i := i + 1;
    }
    return None;
  }

  /** How a step of PutValue ends: at the next map, or stuck on plain data or a nil map. */
  datatype Step = Onward | DataInTheWay | NilInTheWay

  /** The loop body of PutValue for a key that is not the last: go down, or make a map, or stop. */
  method Advance(data: MapNode, val: Value<MapNode>, keys: seq<string>, i: nat, cur: MapNode,
                 ghost h: Heap<MapNode>, ghost nodes: set<MapNode>, ghost started: bool)
    returns (next: MapNode, step: Step, ghost made: set<MapNode>)
    requires Progress(h, Snapshot(nodes), data, keys, val, i, cur, started) && i + 1 < |keys| && h.Keys <= nodes
    modifies cur
    ensures fresh(made)
    ensures !step.Onward? ==>
              && made == {} && (IntoNil(h, data, keys) <==> step.NilInTheWay?)
              && Outcome(h, Snapshot(nodes), data, keys, val)
              && (old(TreeProgress(h, Snapshot(nodes), data, keys, val)) ==>
                    TreeOutcome(h, Snapshot(nodes), data, keys, val))
    ensures step.Onward? ==>
              && Progress(h, Snapshot(nodes + made), data, keys, val, i + 1, next, started || made != {})
              && (old(TreeProgress(h, Snapshot(nodes), data, keys, val)) ==>
                    TreeProgress(h, Snapshot(nodes + made), data, keys, val))
  {
    var key := keys[i];
    next, step, made := cur, Onward, {};
    assert nodes + made == nodes;
    if key in cur.entries {
      match cur.entries[key] {
        case Tree(m) =>
          Descend(h, Snapshot(nodes), data, keys, val, i, cur, started);
          next := m;
        case Leaf(_) =>
          Stop(h, Snapshot(nodes), data, keys, val, i, cur, started);
          step := DataInTheWay;
        case NilTree =>
          Stop(h, Snapshot(nodes), data, keys, val, i, cur, started);
          step := NilInTheWay;
      }
    } else {
      next := Allocate(nodes);
      Grow(h, Snapshot(nodes), data, keys, val, i, cur, started, next);
      if TreeProgress(h, Snapshot(nodes), data, keys, val) {
        GrowTree(h, Snapshot(nodes), data, keys, val, i, cur, next);
      }
      made := {next};
      Assign(cur, key, Tree(next), nodes + made);
    }
  }

  /** The loop body of PutValue for the last key. */
  method WriteLast(data: MapNode, val: Value<MapNode>, keys: seq<string>, cur: MapNode,
                   ghost h: Heap<MapNode>, ghost nodes: set<MapNode>, ghost started: bool)
    requires keys != [] && Progress(h, Snapshot(nodes), data, keys, val, |keys| - 1, cur, started)
    modifies cur
    ensures !IntoNil(h, data, keys) && Outcome(h, Snapshot(nodes), data, keys, val)
    ensures old(TreeProgress(h, Snapshot(nodes), data, keys, val)) ==> TreeOutcome(h, Snapshot(nodes), data, keys, val)
  {
    NotStuck(h, Snapshot(nodes), data, keys, val, |keys| - 1, cur, started);
    Finish(h, Snapshot(nodes), data, keys, val, |keys| - 1, cur, started);
    if TreeProgress(h, Snapshot(nodes), data, keys, val) {
      FinishTree(h, Snapshot(nodes), data, keys, val, |keys| - 1, cur);
    }
    Assign(cur, keys[|keys| - 1], val, nodes);
  }

  /** The loop of PutValue up to the last key; `tree` says that there is no sharing. */
  method WalkDown(data: MapNode, val: Value<MapNode>, keys: seq<string>, ghost nodes: set<MapNode>, ghost tree: bool)
    returns (cur: MapNode, step: Step, ghost made: set<MapNode>)
    requires Progress(Snapshot(nodes), Snapshot(nodes), data, keys, val, 0, data, false)
    requires tree ==> TreeProgress(Snapshot(nodes), Snapshot(nodes), data, keys, val)
    modifies nodes
    ensures fresh(made)
    ensures !step.Onward? ==>
              && (IntoNil(old(Snapshot(nodes)), data, keys) <==> step.NilInTheWay?)
              && Outcome(old(Snapshot(nodes)), Snapshot(nodes + made), data, keys, val)
              && (tree ==> TreeOutcome(old(Snapshot(nodes)), Snapshot(nodes + made), data, keys, val))
    ensures step.Onward? ==>
              && Progress(old(Snapshot(nodes)), Snapshot(nodes + made), data, keys, val, |keys| - 1, cur, made != {})
              && (tree ==> TreeProgress(old(Snapshot(nodes)), Snapshot(nodes + made), data, keys, val))
  {
    ghost var h, all := Snapshot(nodes), nodes;
    made := {};
    step := Onward;
    var i := 0;
    cur := data;
    while i < |keys| - 1
      invariant fresh(made) && all == nodes + made && step == Onward
      invariant Progress(h, Snapshot(all), data, keys, val, i, cur, made != {})
      invariant tree ==> TreeProgress(h, Snapshot(all), data, keys, val)
    {
      var next;
      ghost var more;
      next, step, more := Advance(data, val, keys, i, cur, h, all, made != {});
      if !step.Onward? {
        return;
      }
      cur, made, all, i := next, made + more, all + more, i + 1;
    }
  }

  /** PutValue on a map that is not nil, with at least one key. */
  method PutAlong(data: MapNode, val: Value<MapNode>, keys: seq<string>, ghost nodes: set<MapNode>)
    returns (panicked: bool, ghost made: set<MapNode>)
    requires Closed(Snapshot(nodes), data) && (val.Tree? ==> val.node in nodes) && keys != []
    modifies nodes
    ensures fresh(made)
    ensures panicked <==> IntoNil(old(Snapshot(nodes)), data, keys)
    ensures Outcome(old(Snapshot(nodes)), Snapshot(nodes + made), data, keys, val)
    ensures old(TreeAndValue(Snapshot(nodes), data, val)) ==>
              TreeOutcome(old(Snapshot(nodes)), Snapshot(nodes + made), data, keys, val)
  {
    ghost var h, tree := Snapshot(nodes), TreeAndValue(Snapshot(nodes), data, val);
    var cur, step;
    cur, step, made := WalkDown(data, val, keys, nodes, tree);
    if step.Onward? {
      WriteLast(data, val, keys, cur, h, nodes + made, made != {});
    }
    panicked := step.NilInTheWay?;
  }

  /**
   PutValue on the maps `nodes`, making the maps `made`.  A write to a nil map panics, which happens
   exactly if the path leads into one.
   */
  method PutValue(data: MapNode?, val: Value<MapNode>, keys: seq<string>, ghost nodes: set<MapNode>)
    returns (panicked: bool, ghost made: set<MapNode>)
    requires data != null ==> Closed(Snapshot(nodes), data) && (val.Tree? ==> val.node in nodes)
    modifies nodes
    ensures fresh(made)
    ensures data == null ==> !panicked && made == {} && Snapshot(nodes) == old(Snapshot(nodes))
    ensures data != null ==>
              && (panicked <==> IntoNil(old(Snapshot(nodes)), data, keys))
              && Outcome(old(Snapshot(nodes)), Snapshot(nodes + made), data, keys, val)
              && (old(TreeAndValue(Snapshot(nodes), data, val)) ==>
                    TreeOutcome(old(Snapshot(nodes)), Snapshot(nodes + made), data, keys, val))
  {
    panicked, made := false, {};
    if data != null && keys != [] {
      panicked, made := PutAlong(data, val, keys, nodes);
    } else {
      assert nodes + made == nodes;
    }
  }
}
