/**
 The storage class of a virtual machine image is named twice, in an annotation and in the spec.
 The mutating webhook completes the two fields and the validating webhook compares them with the
 stored ones; together they decide what any sequence of requests can do to the class.
 */
module ImageAdmission {

  datatype Option<T> = None | Some(value: T)

  /** Annotation keys: the one for the storage class, and any other. */
  datatype Key = StorageClassName | OtherKey(name: string)

  /** Names of stored objects are never empty. */
  type Name = s: string | s != "" witness "a"

  datatype Image = Image(annotations: Option<map<Key, string>>, target: string)
  {
    predicate Annotated() { annotations.Some? && StorageClassName in annotations.value }

    /** The annotation, read as Go reads a missing key. */
    function Annotation(): string { if Annotated() then annotations.value[StorageClassName] else "" }

    function Other(name: string): Option<string> {
      if annotations.Some? && OtherKey(name) in annotations.value then Some(annotations.value[OtherKey(name)]) else None
    }

    predicate EmptyAnnotation() { Annotated() && Annotation() == "" && target != "" }

    predicate Locked(class_: string) { class_ != "" && Annotation() == class_ && target == class_ }
  }

  datatype PatchOp = AddAnnotations | SetAnnotation(value: string) | SetTarget(value: string)

  /** A patch on an annotation needs the annotation map to exist. */
  function ApplyOp(a: Image, op: PatchOp): Option<Image> {
    match op
    case AddAnnotations => Some(a.(annotations := Some(map[])))
    case SetAnnotation(v) =>
      if a.annotations.Some? then Some(a.(annotations := Some(a.annotations.value[StorageClassName := v]))) else None
    case SetTarget(v) => Some(a.(target := v))
  }

  function ApplyAll(a: Image, ops: seq<PatchOp>): Option<Image> {
    if ops == [] then Some(a)
    else
      var before := ApplyAll(a, ops[..|ops| - 1]);
      if before.None? then None else ApplyOp(before.value, ops[|ops| - 1])
  }

  lemma ApplyOneMore(a: Image, ops: seq<PatchOp>, op: PatchOp)
    requires ApplyAll(a, ops).Some?
    ensures ApplyAll(a, ops + [op]) == ApplyOp(ApplyAll(a, ops).value, op)
  {
    assert (ops + [op])[..|ops|] == ops;
  }

  predicate NamesNone(a: Image) { a.Annotation() == "" && a.target == "" }

  /** The class a request asks for. */
  function Asked(a: Image, default: Option<Name>): string {
    if a.Annotation() != "" then a.Annotation()
    else if a.target != "" then a.target
    else if default.Some? then default.value
    else ""
  }

  /** Empty fields get the class that was asked for; a present but empty annotation beside a class is left. */
  ghost predicate Completed(a: Image, default: Option<Name>, b: Image) {
    && (forall name :: b.Other(name) == a.Other(name))
    && b.Annotation() == (if a.Annotation() == "" && !a.EmptyAnnotation() then Asked(a, default) else a.Annotation())
    && b.target == (if a.target == "" then Asked(a, default) else a.target)
    && (a.EmptyAnnotation() ==> b == a)
  }

  /** What two patches, if any, make of the image. */
  function Filled(a: Image, name: string): Image {
    var map_ := if a.annotations.Some? then a.annotations.value else map[];
    Image(if a.Annotation() == "" then Some(map_[StorageClassName := name]) else a.annotations,
          if a.target == "" then name else a.target)
  }

  lemma FilledIsCompleted(a: Image, default: Option<Name>)
    requires !(a.Annotated() && a.target != "") && Asked(a, default) != ""
    ensures Completed(a, default, Filled(a, Asked(a, default)))
  {
  }

  method FillPatch(a: Image, name: Name) returns (ops: seq<PatchOp>)
    ensures ApplyAll(a, ops) == Some(Filled(a, name))
  {
    ops := [];
    if a.Annotation() == "" {
      if a.annotations.None? {
        ApplyOneMore(a, ops, AddAnnotations);
        ops := ops + [AddAnnotations];
      }
      ApplyOneMore(a, ops, SetAnnotation(name));
      ops := ops + [SetAnnotation(name)];
    }
    if a.target == "" {
      ApplyOneMore(a, ops, SetTarget(name));
      ops := ops + [SetTarget(name)];
    }
  }

  method EnsureTargetSC(a: Image, default: Option<Name>) returns (r: Option<seq<PatchOp>>)
    ensures r.None? <==> NamesNone(a) && default.None?
    ensures r.Some? ==> ApplyAll(a, r.value).Some? && Completed(a, default, ApplyAll(a, r.value).value)
  {
    var name := "";
    if a.Annotated() {
      if a.target != "" {
        return Some([]);
      }
      name := a.annotations.value[StorageClassName];
    } else if a.target != "" {
      name := a.target;
    }
    if name == "" {
      if default.None? {
        return None;
      }
      name := default.value;
    }
    FilledIsCompleted(a, default);
    var ops := FillPatch(a, name);
    return Some(ops);
  }

  /** SCConsistency; there is no old image for a create. */
  predicate SCConsistency(old_: Option<Image>, new_: Image) {
    if old_.None? then
      !(new_.Annotation() != "" && new_.target != "" && new_.Annotation() != new_.target)
    else
      var was := old_.value;
      if was.Annotation() == "" && was.target == "" then true
      else
        && (was.Annotation() != "" ==> new_.Annotated() && new_.Annotation() == was.Annotation())
        && (was.target != "" ==> new_.target == was.target)
        && !(was.Annotation() != "" && new_.target != "" && was.Annotation() != new_.target)
  }

  datatype Request = Request(image: Image, default: Option<Name>)

  /** A request is admitted as `b`: completed by the mutator, accepted by the validator. */
  ghost predicate Admits(stored: Option<Image>, r: Request, b: Image) {
    && !(NamesNone(r.image) && r.default.None?)
    && Completed(r.image, r.default, b)
    && SCConsistency(stored, b)
  }

  /** One image through a create and a list of updates; a refused update leaves it alone. */
  ghost predicate History(create: Request, updates: seq<Request>, images: seq<Image>) {
    && |images| == |updates| + 1
    && Admits(None, create, images[0])
    && forall i :: 0 <= i < |updates| ==>
        || Admits(Some(images[i]), updates[i], images[i + 1])
        || images[i + 1] == images[i]
  }

  /** Any image through a list of updates, also one that was stored before there was a mutator. */
  ghost predicate UpdatedBy(updates: seq<Request>, images: seq<Image>) {
    && |images| == |updates| + 1
    && forall i :: 0 <= i < |updates| ==>
        || Admits(Some(images[i]), updates[i], images[i + 1])
        || images[i + 1] == images[i]
  }

  lemma AdmittedKeepsClass(a: Image, r: Request, b: Image)
    requires Admits(Some(a), r, b)
    ensures a.Annotation() != "" ==> b.Annotation() == a.Annotation() && (b.target == "" || b.target == a.Annotation())
    ensures a.target != "" ==> b.target == a.target
  {
  }

  /** A class that an image names, in the annotation or in the spec, stays there for ever. */
  lemma {:induction false} NamedClassStays(updates: seq<Request>, images: seq<Image>, i: nat, j: nat)
    requires UpdatedBy(updates, images) && i <= j < |images|
    ensures images[i].Annotation() != "" ==> images[j].Annotation() == images[i].Annotation()
    ensures images[i].target != "" ==> images[j].target == images[i].target
  {
    if i < j {
      NamedClassStays(updates, images, i, j - 1);
      if images[j] != images[j - 1] {
        assert Admits(Some(images[j - 1]), updates[j - 1], images[j]);
        AdmittedKeepsClass(images[j - 1], updates[j - 1], images[j]);
      }
    }
  }

  /** An image that names no class may be given any, as the mutator completes it. */
  lemma UnnamedClassIsFree(a: Image, r: Request, b: Image)
    requires a.Annotation() == "" && a.target == ""
    ensures Admits(Some(a), r, b) <==> !(NamesNone(r.image) && r.default.None?) && Completed(r.image, r.default, b)
  {
  }

  lemma CreatedClass(create: Request, b: Image)
    requires Admits(None, create, b)
    ensures create.image.EmptyAnnotation() ==> b == create.image
    ensures !create.image.EmptyAnnotation() ==> b.Locked(Asked(create.image, create.default))
  {
  }

  lemma LockHolds(a: Image, r: Request, b: Image, class_: string)
    requires a.Locked(class_) && Admits(Some(a), r, b)
    ensures b.Locked(class_)
  {
  }

  /** From a create on, the class is the one asked for, in both fields and for ever. */
  lemma {:induction false} ClassIsFixed(create: Request, updates: seq<Request>, images: seq<Image>, i: nat)
    requires History(create, updates, images) && i < |images|
    requires !create.image.EmptyAnnotation()
    ensures images[i].Locked(Asked(create.image, create.default))
  {
    if i == 0 {
      CreatedClass(create, images[0]);
    } else {
      ClassIsFixed(create, updates, images, i - 1);
      if images[i] != images[i - 1] {
        assert Admits(Some(images[i - 1]), updates[i - 1], images[i]);
        LockHolds(images[i - 1], updates[i - 1], images[i], Asked(create.image, create.default));
      }
    }
  }

  ghost predicate LockedThroughout(create: Request, class_: string) {
    forall updates: seq<Request>, images: seq<Image>, i: nat
      | History(create, updates, images) && i < |images| :: images[i].Locked(class_)
  }

  /** The exception is exact: the class is fixed if and only if the annotation is not present but empty. */
  lemma ClassIsFixedExactly(create: Request, b: Image)
    requires Admits(None, create, b)
    ensures (exists class_: string :: LockedThroughout(create, class_)) <==> !create.image.EmptyAnnotation()
  {
    if create.image.EmptyAnnotation() {
      CreatedClass(create, b);
      assert History(create, [], [b]);
      assert forall class_ :: ![b][0].Locked(class_);
    } else {
      forall updates: seq<Request>, images: seq<Image>, i: nat | History(create, updates, images) && i < |images|
        ensures images[i].Locked(Asked(create.image, create.default))
      {
        ClassIsFixed(create, updates, images, i);
      }
      assert LockedThroughout(create, Asked(create.image, create.default));
    }
  }

  /** In the exceptional case an update may name another class in the annotation; then nothing is admitted any more. */
  lemma EmptyAnnotationCanDiverge(create: Request, b: Image, other: Name, r: Request, c: Image)
    requires Admits(None, create, b) && create.image.EmptyAnnotation() && other != b.target
    ensures var diverged := b.(annotations := Some(b.annotations.value[StorageClassName := other]));
            && Admits(Some(b), Request(diverged, None), diverged)
            && !Admits(Some(diverged), r, c)
  {
    CreatedClass(create, b);
  }
}
