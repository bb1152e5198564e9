/**
 Finding the labels block of a fragment by looking at lines, for any kind of line: the
 renderer has two scanners, and both look for the same four kinds of line.
 */
module LineScanner {
  import opened TextLines

  /** The kinds of line that a scanner tells apart. */
  datatype Kinds<!L> = Kinds(
    metadata: L -> bool,    // opens the metadata block
    topLevel: L -> bool,    // opens a new top-level block
    labels: L -> bool,      // opens the labels block
    outside: L -> bool)     // does not belong to the labels block

  /** `i` is the first index of a range whose line meets a test, or the end of the range. */
  ghost predicate IsFirst<L>(lines: seq<L>, lo: nat, hi: nat, test: L -> bool, i: nat)
    requires lo <= hi <= |lines|
  {
    && lo <= i <= hi
    && (i < hi ==> test(lines[i]))
    && forall j :: lo <= j < i ==> !test(lines[j])
  }

  lemma FirstExists<L>(lines: seq<L>, lo: nat, hi: nat, test: L -> bool)
    requires lo <= hi <= |lines|
    ensures exists i: nat :: IsFirst(lines, lo, hi, test, i)
  {
    var i := lo;
    while i < hi && !test(lines[i])
      invariant lo <= i <= hi
      invariant forall j :: lo <= j < i ==> !test(lines[j])
    {
      i := i + 1;
    }
    assert IsFirst(lines, lo, hi, test, i);
  }

  ghost function First<L>(lines: seq<L>, lo: nat, hi: nat, test: L -> bool): (i: nat)
    requires lo <= hi <= |lines|
    ensures IsFirst(lines, lo, hi, test, i)
  {
    FirstExists(lines, lo, hi, test);
    var i: nat :| IsFirst(lines, lo, hi, test, i);
    i
  }

  /**
   Where the parts of a fragment are: the metadata line, the end of the metadata block,
   the labels line (or the end of the block), and the end of its entries.
   */
  datatype Layout = NoMetadata | Metadata(start: nat, end: nat, labels: nat, insertAt: nat)

  ghost predicate IsLayout<L>(kinds: Kinds<L>, lines: seq<L>, r: Layout) {
    match r
    case NoMetadata => IsFirst(lines, 0, |lines|, kinds.metadata, |lines|)
    case Metadata(start, end, labels, insertAt) =>
      && start < labels <= insertAt <= end <= |lines|
      && IsFirst(lines, 0, |lines|, kinds.metadata, start)
      && IsFirst(lines, start + 1, |lines|, kinds.topLevel, end)
      && IsFirst(lines, start + 1, end, kinds.labels, labels)
      && (if labels == end then insertAt == end
          else labels < insertAt && IsFirst(lines, labels + 1, end, kinds.outside, insertAt))
  }

  ghost function LayoutOf<L>(kinds: Kinds<L>, lines: seq<L>): (r: Layout)
    ensures IsLayout(kinds, lines, r)
  {
    var start := First(lines, 0, |lines|, kinds.metadata);
    if start == |lines| then NoMetadata
    else
      var end := First(lines, start + 1, |lines|, kinds.topLevel);
      var labels := First(lines, start + 1, end, kinds.labels);
      Metadata(start, end, labels,
               if labels == end then end else First(lines, labels + 1, end, kinds.outside))
  }

  /** There is one layout. */
  lemma LayoutIs<L>(kinds: Kinds<L>, lines: seq<L>, r: Layout)
    requires IsLayout(kinds, lines, r)
    ensures LayoutOf(kinds, lines) == r
  {
  }

  /** The lines of the labels block. */
  ghost function Block<L>(kinds: Kinds<L>, lines: seq<L>): seq<L> {
    match LayoutOf(kinds, lines)
    case NoMetadata => []
    case Metadata(_, end, labels, insertAt) => if labels == end then [] else lines[labels + 1..insertAt]
  }

  /** The block ends where its lines do, be that inside the metadata block or with it. */
  lemma BlockAt<L>(kinds: Kinds<L>, lines: seq<L>, start: nat, labels: nat, insertAt: nat)
    requires start < labels < insertAt <= |lines|
    requires IsFirst(lines, 0, |lines|, kinds.metadata, start)
    requires IsFirst(lines, start + 1, |lines|, kinds.labels, labels)
    requires IsFirst(lines, labels + 1, |lines|, kinds.outside, insertAt)
    requires forall j :: start < j < insertAt ==> !kinds.topLevel(lines[j])
    ensures Block(kinds, lines) == lines[labels + 1..insertAt]
  {
    var end := First(lines, start + 1, |lines|, kinds.topLevel);
    LayoutIs(kinds, lines, Metadata(start, end, labels, insertAt));
  }

  function Splice<L>(lines: seq<L>, at: nat, ins: seq<L>): (r: seq<L>)
    requires at <= |lines|
    ensures |r| == |lines| + |ins|
    ensures forall j :: 0 <= j < |r| ==>
                          r[j] == if j < at then lines[j]
                                  else if j < at + |ins| then ins[j - at]
                                  else lines[j - |ins|]
  {
    lines[..at] + ins + lines[at..]
  }

  lemma FirstIs<L>(lines: seq<L>, lo: nat, hi: nat, test: L -> bool, i: nat)
    requires lo <= hi <= |lines| && IsFirst(lines, lo, hi, test, i)
    ensures First(lines, lo, hi, test) == i
  {
  }

  /** Inserting lines that fail a test moves the first line that meets it, if it is later. */
  lemma FirstShift<L>(lines: seq<L>, at: nat, ins: seq<L>, lo: nat, hi: nat, test: L -> bool, i: nat)
    requires lo <= at <= hi <= |lines| && IsFirst(lines, lo, hi, test, i)
    requires forall i :: 0 <= i < |ins| ==> !test(ins[i])
    ensures IsFirst(Splice(lines, at, ins), lo, hi + |ins|, test, if i < at then i else i + |ins|)
  {
  }

  /** Lines that only belong to a labels block. */
  ghost predicate OnlyEntries<L>(kinds: Kinds<L>, ls: seq<L>) {
    forall i :: 0 <= i < |ls| ==>
      !kinds.outside(ls[i]) && !kinds.metadata(ls[i]) && !kinds.topLevel(ls[i]) && !kinds.labels(ls[i])
  }

  /** Entries inserted at the end of an existing block stretch that block, and nothing else. */
  lemma LayoutWithMoreEntries<L>(kinds: Kinds<L>, lines: seq<L>, entries: seq<L>)
    requires LayoutOf(kinds, lines).Metadata? && LayoutOf(kinds, lines).labels < LayoutOf(kinds, lines).end
    requires OnlyEntries(kinds, entries)
    ensures var was := LayoutOf(kinds, lines);
            LayoutOf(kinds, Splice(lines, was.insertAt, entries)) ==
            Metadata(was.start, was.end + |entries|, was.labels, was.insertAt + |entries|)
  {
    var was := LayoutOf(kinds, lines);
    var out := Splice(lines, was.insertAt, entries);
    FirstShift(lines, was.insertAt, entries, 0, |lines|, kinds.metadata, was.start);
    FirstShift(lines, was.insertAt, entries, was.start + 1, |lines|, kinds.topLevel, was.end);
    FirstShift(lines, was.insertAt, entries, was.start + 1, was.end, kinds.labels, was.labels);
    FirstShift(lines, was.insertAt, entries, was.labels + 1, was.end, kinds.outside, was.insertAt);
    LayoutIs(kinds, out, Metadata(was.start, was.end + |entries|, was.labels, was.insertAt + |entries|));
  }

  /** A new block inserted at the end of the metadata is found there. */
  lemma LayoutWithNewBlock<L>(kinds: Kinds<L>, lines: seq<L>, header: L, entries: seq<L>)
    requires LayoutOf(kinds, lines).Metadata? && LayoutOf(kinds, lines).labels == LayoutOf(kinds, lines).end
    requires kinds.labels(header) && !kinds.metadata(header) && !kinds.topLevel(header)
    requires OnlyEntries(kinds, entries)
    ensures var was := LayoutOf(kinds, lines);
            LayoutOf(kinds, Splice(lines, was.insertAt, [header] + entries)) ==
            Metadata(was.start, was.end + 1 + |entries|, was.end, was.end + 1 + |entries|)
  {
    var was := LayoutOf(kinds, lines);
    var ins := [header] + entries;
    var out := Splice(lines, was.end, ins);
    FirstShift(lines, was.end, ins, 0, |lines|, kinds.metadata, was.start);
    FirstShift(lines, was.end, ins, was.start + 1, |lines|, kinds.topLevel, was.end);
    assert IsFirst(out, was.start + 1, was.end + |ins|, kinds.labels, was.end);
    assert IsFirst(out, was.end + 1, was.end + |ins|, kinds.outside, was.end + |ins|);
    LayoutIs(kinds, out, Metadata(was.start, was.end + |ins|, was.end, was.end + |ins|));
  }

  /** What injection inserts: a block header if there is no block yet, and the entries. */
  ghost function Insertion<L>(kinds: Kinds<L>, lines: seq<L>, header: L, entries: seq<L>): seq<L>
    requires LayoutOf(kinds, lines).Metadata?
  {
    (if LayoutOf(kinds, lines).labels == LayoutOf(kinds, lines).end then [header] else []) + entries
  }

  lemma BlockWithMoreEntries<L>(kinds: Kinds<L>, lines: seq<L>, entries: seq<L>)
    requires LayoutOf(kinds, lines).Metadata? && LayoutOf(kinds, lines).labels < LayoutOf(kinds, lines).end
    requires OnlyEntries(kinds, entries)
    ensures var out := Splice(lines, LayoutOf(kinds, lines).insertAt, entries);
            LayoutOf(kinds, out).Metadata? && Block(kinds, out) == Block(kinds, lines) + entries
  {
    var was := LayoutOf(kinds, lines);
    LayoutWithMoreEntries(kinds, lines, entries);
    assert Splice(lines, was.insertAt, entries)[was.labels + 1..was.insertAt + |entries|] ==
           lines[was.labels + 1..was.insertAt] + entries;
  }

  lemma BlockWithNewBlock<L>(kinds: Kinds<L>, lines: seq<L>, header: L, entries: seq<L>)
    requires LayoutOf(kinds, lines).Metadata? && LayoutOf(kinds, lines).labels == LayoutOf(kinds, lines).end
    requires kinds.labels(header) && !kinds.metadata(header) && !kinds.topLevel(header)
    requires OnlyEntries(kinds, entries)
    ensures var out := Splice(lines, LayoutOf(kinds, lines).insertAt, [header] + entries);
            LayoutOf(kinds, out).Metadata? && Block(kinds, out) == entries
  {
    var was := LayoutOf(kinds, lines);
    LayoutWithNewBlock(kinds, lines, header, entries);
    assert Splice(lines, was.end, [header] + entries)[was.end + 1..was.end + 1 + |entries|] == entries;
  }

  /** Afterwards the labels block is the old one followed by the new entries. */
  lemma BlockAfterInsertion<L>(kinds: Kinds<L>, lines: seq<L>, header: L, entries: seq<L>)
    requires LayoutOf(kinds, lines).Metadata?
    requires kinds.labels(header) && !kinds.metadata(header) && !kinds.topLevel(header)
    requires OnlyEntries(kinds, entries)
    ensures var out := Splice(lines, LayoutOf(kinds, lines).insertAt, Insertion(kinds, lines, header, entries));
            LayoutOf(kinds, out).Metadata? && Block(kinds, out) == Block(kinds, lines) + entries
  {
    if LayoutOf(kinds, lines).labels < LayoutOf(kinds, lines).end {
      BlockWithMoreEntries(kinds, lines, entries);
      assert [] + entries == entries;
    } else {
      BlockWithNewBlock(kinds, lines, header, entries);
      assert [] + entries == entries;
    }
  }

  /** A later entry replaces an earlier one; a line that is no entry changes nothing. */
  function With<K, V>(m: map<K, V>, e: Option<(K, V)>): map<K, V> {
    match e
    case None => m
    case Some((k, v)) => m[k := v]
  }

  /** The entries of a block of lines, given how to read one line. */
  function Collect<L, K, V>(read: L -> Option<(K, V)>, lines: seq<L>): map<K, V> {
    if lines == [] then map[]
    else With(Collect(read, lines[..|lines| - 1]), read(lines[|lines| - 1]))
  }

  lemma CollectSnoc<L, K, V>(read: L -> Option<(K, V)>, lines: seq<L>, l: L)
    ensures Collect(read, lines + [l]) == With(Collect(read, lines), read(l))
  {
    assert (lines + [l])[..|lines|] == lines;
  }

  function KeyOf<K, V>(e: Option<(K, V)>): Option<K> {
    match e
    case None => None
    case Some((k, _)) => Some(k)
  }

  lemma CollectKeys<L, K, V>(read: L -> Option<(K, V)>, lines: seq<L>, l: L)
    ensures Collect(read, lines + [l]).Keys ==
            Collect(read, lines).Keys + if KeyOf(read(l)).Some? then {KeyOf(read(l)).value} else {}
  {
    CollectSnoc(read, lines, l);
  }

  lemma MergeUpdate<K, V>(a: map<K, V>, b: map<K, V>, k: K, v: V)
    ensures (a + b)[k := v] == a + b[k := v]
  {
  }

  lemma MapOfPrefix<K, V>(keys: seq<K>, m: map<K, V>, n: nat)
    requires |keys| == n + 1 && forall k | k in keys :: k in m
    ensures (map k | k in keys :: m[k]) == (map k | k in keys[..n] :: m[k])[keys[n] := m[keys[n]]]
  {
    assert keys == keys[..n] + [keys[n]];
  }

  /** More lines add their entries, overriding the ones before. */
  lemma {:induction false} CollectMore<L, K, V>(read: L -> Option<(K, V)>, block: seq<L>, more: seq<L>,
                                                keys: seq<K>, m: map<K, V>)
    requires forall k | k in keys :: k in m
    requires |more| == |keys| && forall i :: 0 <= i < |more| ==> read(more[i]) == Some((keys[i], m[keys[i]]))
    ensures Collect(read, block + more) == Collect(read, block) + (map k | k in keys :: m[k])
  {
    if more == [] {
      assert block + more == block;
    } else {
      var n := |more| - 1;
      var earlier := map k | k in keys[..n] :: m[k];
      calc {
        Collect(read, block + more);
        { assert block + more == (block + more[..n]) + [more[n]]; CollectSnoc(read, block + more[..n], more[n]); }
        With(Collect(read, block + more[..n]), read(more[n]));
        { CollectMore(read, block, more[..n], keys[..n], m); }
        (Collect(read, block) + earlier)[keys[n] := m[keys[n]]];
        { MergeUpdate(Collect(read, block), earlier, keys[n], m[keys[n]]); }
        Collect(read, block) + earlier[keys[n] := m[keys[n]]];
        { MapOfPrefix(keys, m, n); }
        Collect(read, block) + (map k | k in keys :: m[k]);
      }
    }
  }

  lemma CollectSlice<L, K, V>(read: L -> Option<(K, V)>, lines: seq<L>, lo: nat, j: nat)
    requires lo <= j < |lines|
    ensures Collect(read, lines[lo..j + 1]) == With(Collect(read, lines[lo..j]), read(lines[j]))
    ensures Collect(read, lines[lo..j + 1]).Keys ==
            Collect(read, lines[lo..j]).Keys + if KeyOf(read(lines[j])).Some? then {KeyOf(read(lines[j])).value} else {}
  {
    assert lines[lo..j + 1] == lines[lo..j] + [lines[j]];
    CollectSnoc(read, lines[lo..j], lines[j]);
    CollectKeys(read, lines[lo..j], lines[j]);
  }

  method FindFirst<L>(lines: seq<L>, lo: nat, hi: nat, test: L -> bool) returns (i: nat)
    requires lo <= hi <= |lines|
    ensures i == First(lines, lo, hi, test)
  {
    i := lo;
    while i < hi && !test(lines[i])
      invariant lo <= i <= hi
      invariant forall j :: lo <= j < i ==> !test(lines[j])
    {
      i := i + 1;
    }
    FirstIs(lines, lo, hi, test, i);
  }

  /** Reads the lines from `lo` up to the first one outside the block. */
  method ScanBlock<L, K(==), V>(read: L -> Option<(K, V)>, outside: L -> bool, lines: seq<L>, lo: nat, hi: nat)
    returns (j: nat, entries: map<K, V>)
    requires lo <= hi <= |lines|
    ensures j == First(lines, lo, hi, outside)
    ensures entries == Collect(read, lines[lo..j])
  {
    j, entries := lo, map[];
    while j < hi && !outside(lines[j])
      invariant lo <= j <= hi
      invariant forall n :: lo <= n < j ==> !outside(lines[n])
      invariant entries == Collect(read, lines[lo..j])
    {
      CollectSlice(read, lines, lo, j);
      match read(lines[j]) {
        case None =>
        case Some((key, value)) => entries := entries[key := value];
      }
      j := j + 1;
    }
    FirstIs(lines, lo, hi, outside, j);
  }

  /** The same scan where only the keys are wanted. */
  method ScanKeys<L, K(==), V>(keyOf: L -> Option<K>, ghost read: L -> Option<(K, V)>, outside: L -> bool,
                               lines: seq<L>, lo: nat, hi: nat)
    returns (j: nat, keys: set<K>)
    requires lo <= hi <= |lines|
    requires forall n :: lo <= n < hi ==> keyOf(lines[n]) == KeyOf(read(lines[n]))
    ensures j == First(lines, lo, hi, outside)
    ensures keys == Collect(read, lines[lo..j]).Keys
  {
    j, keys := lo, {};
    while j < hi && !outside(lines[j])
      invariant lo <= j <= hi
      invariant forall n :: lo <= n < j ==> !outside(lines[n])
      invariant keys == Collect(read, lines[lo..j]).Keys
    {
      CollectSlice(read, lines, lo, j);
      var key := keyOf(lines[j]);
      if key.Some? {
        keys := keys + {key.value};
      }
      j := j + 1;
    }
    FirstIs(lines, lo, hi, outside, j);
  }

  /** The reading scanner: the entries of the labels block, none if there is no block. */
  method ReadBlock<L, K(==), V>(kinds: Kinds<L>, read: L -> Option<(K, V)>, lines: seq<L>) returns (entries: map<K, V>)
    ensures entries == Collect(read, Block(kinds, lines))
  {
    var start := FindFirst(lines, 0, |lines|, kinds.metadata);
    if start == |lines| {
      LayoutIs(kinds, lines, NoMetadata);
      return map[];
    }
    var end := FindFirst(lines, start + 1, |lines|, kinds.topLevel);
    var i := FindFirst(lines, start + 1, end, kinds.labels);
    if i == end {
      LayoutIs(kinds, lines, Metadata(start, end, end, end));
      return map[];
    }
    var j;
    j, entries := ScanBlock(read, kinds.outside, lines, i + 1, end);
    LayoutIs(kinds, lines, Metadata(start, end, i, j));
  }

  /** The injecting scanner: where to insert, and the keys that are already there. */
  method Locate<L, K(==), V>(kinds: Kinds<L>, keyOf: L -> Option<K>, ghost read: L -> Option<(K, V)>, lines: seq<L>)
    returns (at: Layout, existing: set<K>)
    requires forall n :: 0 <= n < |lines| ==> keyOf(lines[n]) == KeyOf(read(lines[n]))
    ensures at == LayoutOf(kinds, lines)
    ensures existing == Collect(read, Block(kinds, lines)).Keys
  {
    existing := {};
    var start := FindFirst(lines, 0, |lines|, kinds.metadata);
    if start == |lines| {
      at := NoMetadata;
    } else {
      var end := FindFirst(lines, start + 1, |lines|, kinds.topLevel);
      var labelsIdx := FindFirst(lines, start + 1, end, kinds.labels);
      var insertAt := end;
      if labelsIdx != end {
        insertAt, existing := ScanKeys(keyOf, read, kinds.outside, lines, labelsIdx + 1, end);
      }
      at := Metadata(start, end, labelsIdx, insertAt);
    }
    LayoutIs(kinds, lines, at);
  }
}
