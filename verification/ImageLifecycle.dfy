/**
 Retry accounting of a virtual machine image. The image record is a sequence of versions; a
 write names the version it was computed from and is refused unless that is still the latest.
 The backing-image handler works from a cached version that may be stale, while any other
 writer may get in between.
 */
module ImageLifecycle {

  datatype Option<T> = None | Some(value: T)

  datatype Status = Unset | True | False | Unknown

  datatype Text =
    | Plain(text: string)
    | FirstFailure(text: string)
    | RetryFailure(attempt: int, limit: int, text: string)

  datatype Condition = Condition(status: Status, reason: string, message: Text, updated: int)

  /** The time of the last failure as text: absent, unreadable, or a time in seconds. */
  datatype Stamp = NoStamp | Garbled(text: string) | At(time: int)

  datatype Image = Image(
    retry: int,
    url: string,
    className: string,
    failed: int,
    lastFailed: Stamp,
    progress: int,
    size: int,
    virtualSize: int,
    appliedUrl: string,
    storageClass: string,
    backupTarget: Option<string>,
    exceeded: Condition,
    initialized: Condition,
    imported: Condition,
    missing: Condition)
  {
    predicate Exceeded() { exceeded.status == True }

    predicate NewImage() { failed == 0 && !Exceeded() && retry >= 0 }

    /** Same retry limit, failure count and limit flag. */
    predicate SameAccount(b: Image) {
      retry == b.retry && failed == b.failed && exceeded.status == b.exceeded.status
    }
  }

  datatype Stage = Initialization | Import

  /** failStateTransit. */
  function Failed(a: Image, stage: Stage, text: string, progress: int, now: int): Image {
    var n := a.failed + 1;
    var message := if n > 1 then RetryFailure(n - 1, a.retry, text) else FirstFailure(text);
    var over := n > a.retry;
    var b := a.(failed := n, lastFailed := At(now), progress := progress,
                exceeded := a.exceeded.(status := if over then True else False, message := message));
    if !over then b
    else if stage == Initialization then b.(initialized := a.initialized.(status := False, message := message))
    else b.(imported := a.imported.(status := False, message := message))
  }

  /** The "initialized" transition. */
  function Initialized(a: Image, now: int): Image {
    a.(appliedUrl := a.url, storageClass := a.className, progress := 0,
    imported := a.imported.(status := Unknown, reason := "Importing", updated := now),
    initialized := Condition(True, "Initialized", Plain(""), now))
  }

  /** The "importing" transition: 100 percent is shown as 99 until the file is ready. */
  function Importing(a: Image, text: string, progress: int): Image {
    a.(progress := if progress == 100 then 99 else progress,
    imported := a.imported.(status := Unknown, reason := "Importing", message := Plain(text)))
  }

  /** The "imported" transition. */
  function Imported(a: Image, text: string, progress: int, size: int, virtualSize: int): Image {
    a.(progress := progress, size := size, virtualSize := virtualSize,
    imported := a.imported.(status := True, reason := "Imported", message := Plain(text)),
    exceeded := a.exceeded.(status := False, reason := "", message := Plain("")))
  }

  predicate CountsOneFailure(a: Image, b: Image) {
    && b.retry == a.retry
    && b.failed == a.failed + 1
    && b.exceeded.status == if b.failed > b.retry then True else False
  }

  /** The message of the next failure: a first one, or one of a retry with its number. */
  function FailureText(a: Image, text: string): Text {
    if a.failed > 0 then RetryFailure(a.failed, a.retry, text) else FirstFailure(text)
  }

  /** One failure more is recorded; the stage that failed is marked only once the limit is passed. */
  predicate FailureRecorded(a: Image, b: Image, stage: Stage, text: string, progress: int, now: int) {
    && b == a.(failed := b.failed, lastFailed := At(now), progress := progress, exceeded := b.exceeded,
            initialized := b.initialized, imported := b.imported)
    && CountsOneFailure(a, b)
    && b.exceeded == a.exceeded.(status := b.exceeded.status, message := FailureText(a, text))
    && (!b.Exceeded() ==> b.initialized == a.initialized && b.imported == a.imported)
    && (b.Exceeded() && stage == Initialization ==>
          b.imported == a.imported && b.initialized == a.initialized.(status := False, message := FailureText(a, text)))
    && (b.Exceeded() && stage == Import ==>
          b.initialized == a.initialized && b.imported == a.imported.(status := False, message := FailureText(a, text)))
  }

  /** The image is initialized and waits to be imported. */
  predicate ImportAwaited(a: Image, b: Image, now: int) {
    && b == a.(appliedUrl := a.url, storageClass := a.className, progress := 0,
            imported := b.imported, initialized := b.initialized)
    && b.initialized.status == True && b.initialized.reason == "Initialized"
    && b.initialized.message == Plain("") && b.initialized.updated == now
    && b.imported.status == Unknown && b.imported.reason == "Importing"
    && b.imported.message == a.imported.message && b.imported.updated == now
  }

  /** The image shows the progress of its import, which is not complete. */
  predicate ImportShown(a: Image, b: Image, text: string, progress: int) {
    && b == a.(progress := b.progress, imported := b.imported)
    && (if progress == 100 then b.progress == 99 else b.progress == progress)
    && b.imported.status == Unknown && b.imported.reason == "Importing"
    && b.imported.message == Plain(text) && b.imported.updated == a.imported.updated
  }

  /** The image is imported; what was said of earlier failures is gone, their number is not. */
  predicate ImportDone(a: Image, b: Image, text: string, progress: int, size: int, virtualSize: int) {
    && b == a.(progress := progress, size := size, virtualSize := virtualSize,
            imported := b.imported, exceeded := b.exceeded)
    && b.imported.status == True && b.imported.reason == "Imported"
    && b.imported.message == Plain(text) && b.imported.updated == a.imported.updated
    && b.exceeded.status == False && b.exceeded.reason == "" && b.exceeded.message == Plain("")
    && b.exceeded.updated == a.exceeded.updated
  }

  lemma TransitionsMeaning(a: Image, stage: Stage, text: string, progress: int, size: int, virtualSize: int, now: int)
    ensures FailureRecorded(a, Failed(a, stage, text, progress, now), stage, text, progress, now)
    ensures ImportAwaited(a, Initialized(a, now), now)
    ensures ImportShown(a, Importing(a, text, progress), text, progress)
    ensures ImportDone(a, Imported(a, text, progress, size, virtualSize), text, progress, size, virtualSize)
  {
  }

  /** What one committed write may do to the account, whoever makes it. */
  predicate ImageStep(a: Image, b: Image) {
    || a.SameAccount(b)
    || (!a.Exceeded() && CountsOneFailure(a, b))
    || (!a.Exceeded() && b.retry == a.retry && b.failed == a.failed && b.exceeded.status == False)
  }

  predicate Run(hist: seq<Image>) {
    && |hist| > 0
    && hist[0].NewImage()
    && forall i :: 0 < i < |hist| ==> ImageStep(hist[i - 1], hist[i])
  }

  /** The committed writes that counted a failure. */
  function Failures(hist: seq<Image>): (n: nat) {
    if |hist| < 2 then 0
    else Failures(hist[..|hist| - 1]) + if CountsOneFailure(hist[|hist| - 2], hist[|hist| - 1]) then 1 else 0
  }

  /** In every run the flag is set exactly when the count is past the limit, and then by one. */
  lemma {:induction false} RetryAccounting(hist: seq<Image>, i: nat)
    requires Run(hist) && i < |hist|
    ensures hist[i].retry == hist[0].retry
    ensures 0 <= hist[i].failed <= hist[i].retry + 1
    ensures hist[i].Exceeded() <==> hist[i].failed > hist[i].retry
  {
    if i > 0 {
      RetryAccounting(hist, i - 1);
      assert ImageStep(hist[i - 1], hist[i]);
    }
  }

  /** Once the limit is exceeded the account never changes again. */
  lemma {:induction false} ExceededIsFinal(hist: seq<Image>, i: nat, j: nat)
    requires Run(hist) && i <= j < |hist| && hist[i].Exceeded()
    ensures hist[i].SameAccount(hist[j])
  {
    if i < j {
      ExceededIsFinal(hist, i, j - 1);
      assert ImageStep(hist[j - 1], hist[j]);
    }
  }

  /** The counter is the number of failures written, so there are at most Retry + 1 of them. */
  lemma {:induction false} CounterCountsFailures(hist: seq<Image>)
    requires Run(hist)
    ensures hist[|hist| - 1].failed == Failures(hist)
    ensures Failures(hist) <= hist[0].retry + 1
  {
    var n := |hist| - 1;
    if n > 0 {
      var shorter := hist[..n];
      assert Run(shorter) by {
        forall i | 0 < i < |shorter|
          ensures ImageStep(shorter[i - 1], shorter[i])
        {
          assert ImageStep(hist[i - 1], hist[i]);
        }
      }
      CounterCountsFailures(shorter);
      assert ImageStep(hist[n - 1], hist[n]);
    }
    RetryAccounting(hist, n);
  }

  datatype FileState = FileFailed | FileReady | FilePending

  datatype DiskFile = DiskFile(state: FileState, message: string, progress: int)

  datatype BackingImage = BackingImage(
    deleted: bool,
    imageId: string,
    disks: seq<DiskFile>,
    size: int,
    virtualSize: int,
    restore: bool)

  /** What an event makes of the image: nothing if only the progress could have changed and has not. */
  predicate FileShown(a: Image, b: Image, bi: BackingImage, d: DiskFile, now: int) {
    match d.state
    case FileFailed => FailureRecorded(a, b, Import, d.message, d.progress, now)
    case FileReady => ImportDone(a, b, d.message, d.progress, bi.size, bi.virtualSize)
    case FilePending => if d.progress == a.progress then b == a else ImportShown(a, b, d.message, d.progress)
  }

  /** Outcomes keep the account lawful unless the image is past its limit. */
  lemma ShownIsAStep(a: Image, b: Image, bi: BackingImage, d: DiskFile, now: int)
    requires FileShown(a, b, bi, d, now) && !a.Exceeded()
    ensures ImageStep(a, b)
  {
  }

  /**
   An event shows an image that is not imported as complete exactly if its file failed at 100 percent, or
   it was shown so before.
   */
  lemma FullProgress(a: Image, b: Image, bi: BackingImage, d: DiskFile, now: int)
    requires FileShown(a, b, bi, d, now) && a.imported.status != True
    ensures b.progress == 100 && b.imported.status != True <==>
            d.progress == 100 && (d.state.FileFailed? || (d.state.FilePending? && a.progress == 100))
  {
  }

  /** What a backend says of an image that is not imported. */
  datatype Check = Passed | RetryNow | RetryLater | OtherError

  /** Seconds between a failure and the next attempt. */
  const RETRY_DELAY := 10

  /** The "backing image missing" transition. */
  function BackingImageMissing(a: Image, error: string): Image {
    a.(missing := a.missing.(status := True, message := Plain("Failed to get backing image: " + error)))
  }

  /** The virtual size that a backend finds for an imported image. */
  datatype Lookup = Found(size: int) | NotFound(error: string)

  /** The outcome of an attempt to initialise. */
  predicate AttemptRecorded(a: Image, b: Image, failure: Option<string>, now: int) {
    if failure.Some? then FailureRecorded(a, b, Initialization, failure.value, 0, now) else ImportAwaited(a, b, now)
  }

  /** The size is recorded, or the image marked as missing its backing image. */
  predicate SizeKnown(a: Image, b: Image, found: Lookup) {
    match found
    case Found(size) => b.virtualSize == size && b == a.(virtualSize := b.virtualSize)
    case NotFound(error) =>
      && b == a.(missing := b.missing) && b.missing.status == True && b.missing.reason == a.missing.reason
      && b.missing.message == Plain("Failed to get backing image: " + error) && b.missing.updated == a.missing.updated
  }

  class ImageServer {
    var hist: seq<Image>

    /** The versions written by the handlers modelled here. */
    ghost var mine: set<nat>

    /** Requests that failed without need, or whose answer got lost. */
    ghost var faults: nat

    ghost predicate Valid()
      reads this
    {
      Run(hist) && forall i | i in mine :: i < |hist|
    }

    constructor (a: Image)
      requires a.NewImage()
      ensures Valid() && hist == [a] && mine == {}
    {
      hist := [a];
      mine := {};
      faults := 0;
    }

    /** Version `v + 1` has been written by this call. */
    twostate predicate Wrote(v: nat)
      reads this
    {
      mine == old(mine) + {v + 1} && mine != old(mine) && |old(hist)| <= v + 1 < |hist|
    }

    /** Any number of writes by others. */
    method Interfere()
      requires Valid()
      modifies this`hist
      ensures Valid() && old(hist) <= hist
    {
      var more: seq<Image> := *;
      if Run(hist + more) {
        hist := hist + more;
      }
    }

    /**
     UpdateVMI with an object computed from version `v`. The outcome of a write that reached the
     server may get lost.
     */
    method Update(v: nat, base: Image, wanted: Image) returns (ok: bool)
      requires Valid() && v < |hist| && hist[v].SameAccount(base) && ImageStep(base, wanted)
      modifies this
      ensures Valid() && old(hist) <= hist
      ensures base == wanted ==> ok && hist == old(hist) && mine == old(mine)
      ensures mine == old(mine) || (Wrote(v) && hist[v + 1] == wanted && base != wanted)
      ensures ok && base != wanted ==> Wrote(v)
      ensures !ok ==> faults > old(faults) || (mine == old(mine) && v + 1 < |hist|)
      ensures faults >= old(faults)
    {
      if base == wanted {
        return true;
      }
      Interfere();
      var fault: bool := *;
      if v + 1 != |hist| {
        return false;
      }
      if fault {
        faults := faults + 1;
        return false;
      }
      hist := hist + [wanted];
      mine := mine + {v + 1};
      ok := *;
      if !ok {
        faults := faults + 1;
      }
      Interfere();
    }

    /**
     The backing-image handler, called with version `seen` of the image in its cache.  It commits
     at most one write, namely the version that follows the one it saw, and none at all for an
     image past its retry limit.  `target` is the configured backup target if it is not the
     default one.
     */
    method OnBackingImageChanged(seen: nat, bi: BackingImage, target: Option<string>, now: int) returns (ok: bool)
      requires Valid() && seen < |hist|
      modifies this
      ensures Valid() && old(hist) <= hist
      ensures bi.deleted || bi.imageId == "" || |bi.disks| != 1 ==> ok && hist == old(hist) && mine == old(mine)
      ensures var a := hist[seen];
              a.Exceeded() || a.initialized.status != True || a.imported.status == True ==>
                ok && hist == old(hist) && mine == old(mine)
      ensures old(hist)[|old(hist)| - 1].Exceeded() ==> mine == old(mine)
      ensures mine == old(mine) || Wrote(seen)
      ensures mine != old(mine) ==>
                || FileShown(hist[seen], hist[seen + 1], bi, bi.disks[0], now)
                || (bi.restore && target.Some? && hist[seen + 1] == hist[seen].(backupTarget := target))
      ensures var a := hist[seen];
              && ok && !bi.deleted && bi.imageId != "" && |bi.disks| == 1
              && !a.Exceeded() && a.initialized.status == True && a.imported.status != True
              ==> if bi.restore && target.Some? && a.backupTarget != target
                  then
                    && FileShown(a, a, bi, bi.disks[0], now)
                    && Wrote(seen) && hist[seen + 1] == a.(backupTarget := target)
                  else FileShown(a, if mine == old(mine) then a else hist[seen + 1], bi, bi.disks[0], now)
      ensures !ok ==> faults > old(faults) || seen + 1 < |hist|
    {
      var image := hist[seen];
      if bi.deleted || bi.imageId == "" || |bi.disks| != 1 {
        return true;
      }
      if image.Exceeded() {
        return true;
      }
      if image.initialized.status != True || image.imported.status == True {
        return true;
      }
      ok := true;
      var i := 0;
      while i < |bi.disks|
        invariant 0 <= i <= 1
        invariant Valid() && old(hist) <= hist && faults >= old(faults)
        invariant i == 0 ==> ok && hist == old(hist) && mine == old(mine)
        invariant i == 1 ==>
                    || mine == old(mine)
                    || (Wrote(seen) && FileShown(image, hist[seen + 1], bi, bi.disks[0], now))
        invariant i == 1 && ok ==> mine != old(mine) || FileShown(image, image, bi, bi.disks[0], now)
        invariant !ok ==> faults > old(faults) || seen + 1 < |hist|
      {
        ok := ShowFile(seen, bi, bi.disks[i], now);
        i := i + 1;
      }
      if ok && bi.restore && target.Some? {
        ok := Update(seen, image, image.(backupTarget := target));
      }
    }

    /** The loop body of the handler. */
    method ShowFile(seen: nat, bi: BackingImage, d: DiskFile, now: int) returns (ok: bool)
      requires Valid() && seen < |hist| && !hist[seen].Exceeded()
      modifies this
      ensures Valid() && old(hist) <= hist && faults >= old(faults)
      ensures mine == old(mine) || (Wrote(seen) && FileShown(hist[seen], hist[seen + 1], bi, d, now))
      ensures ok ==> mine != old(mine) || FileShown(hist[seen], hist[seen], bi, d, now)
      ensures !ok ==> faults > old(faults) || seen + 1 < |hist|
    {
      var image := hist[seen];
      TransitionsMeaning(image, Import, d.message, d.progress, bi.size, bi.virtualSize, now);
      ok := true;
      match d.state {
        case FileFailed =>
          ok := Update(seen, image, Failed(image, Import, d.message, d.progress, now));
        case FileReady =>
          ok := Update(seen, image, Imported(image, d.message, d.progress, bi.size, bi.virtualSize));
        case FilePending =>
          if d.progress != image.progress {
            ok := Update(seen, image, Importing(image, d.message, d.progress));
          }
      }
    }

    /** Records how the backend's attempt ended. */
    method Initialize(v: nat, base: Image, failure: Option<string>, now: int) returns (ok: bool)
      requires Valid() && v < |hist| && hist[v].SameAccount(base) && !base.Exceeded()
      modifies this
      ensures Valid() && old(hist) <= hist
      ensures mine == old(mine) || (Wrote(v) && AttemptRecorded(base, hist[v + 1], failure, now))
      ensures ok ==> mine != old(mine) || AttemptRecorded(base, base, failure, now)
      ensures !ok ==> faults > old(faults) || v + 1 < |hist|
    {
      TransitionsMeaning(base, Initialization, if failure.Some? then failure.value else "", 0, 0, 0, now);
      if failure.Some? {
        ok := Update(v, base, Failed(base, Initialization, failure.value, 0, now));
      } else {
        ok := Update(v, base, Initialized(base, now));
      }
    }

    /**
     The image controller, called with version `seen` in its cache.  The backend answers the check and,
     for an imported image, gives the virtual size it finds.  When it has to initialise it hands back
     version `v`, as `base`, after writes of its own.
     */
    method OnImageChanged(seen: nat, deleted: bool, check: Check, found: Lookup,
                          v: nat, base: Image, failure: Option<string>, now: int)
      returns (ok: bool)
      requires Valid() && seen < |hist| && v < |hist|
      requires hist[seen].SameAccount(base) && hist[v].SameAccount(base)
      modifies this
      ensures Valid() && old(hist) <= hist
      ensures var a := hist[seen];
              if deleted || a.Exceeded() || (a.imported.status == True && a.virtualSize != 0) then
                ok && hist == old(hist) && mine == old(mine)
              else if a.imported.status == True then
                && (mine == old(mine) || (Wrote(seen) && SizeKnown(a, hist[seen + 1], found)))
                && (ok ==> mine != old(mine) || SizeKnown(a, a, found))
                && (!ok ==> faults > old(faults) || seen + 1 < |hist|)
              else if !check.RetryNow? || (a.lastFailed.At? && now < a.lastFailed.time + 10) then
                (ok <==> !check.OtherError?) && hist == old(hist) && mine == old(mine)
              else if a.lastFailed.Garbled? then
                && (mine == old(mine) || (Wrote(seen) && hist[seen + 1] == a.(lastFailed := At(now))))
                && (ok ==> mine != old(mine))
                && (!ok ==> faults > old(faults) || seen + 1 < |hist|)
              else
                && (mine == old(mine) || (Wrote(v) && AttemptRecorded(base, hist[v + 1], failure, now)))
                && (ok ==> mine != old(mine) || AttemptRecorded(base, base, failure, now))
                && (!ok ==> faults > old(faults) || v + 1 < |hist|)
    {
      var image := hist[seen];
      if deleted || image.Exceeded() {
        return true;
      }
      if image.imported.status == True {
        if image.virtualSize != 0 {
          return true;
        }
        ok := RecordSize(seen, found);
        return;
      }
      match check {
        case Passed => ok := true;
        case RetryLater => ok := true;
        case OtherError => ok := false;
        case RetryNow =>
          ok := HandleRetry(seen, v, base, failure, now);
      }
    }

    method RecordSize(seen: nat, found: Lookup) returns (ok: bool)
      requires Valid() && seen < |hist|
      modifies this
      ensures Valid() && old(hist) <= hist
      ensures mine == old(mine) || (Wrote(seen) && SizeKnown(hist[seen], hist[seen + 1], found))
      ensures ok ==> mine != old(mine) || SizeKnown(hist[seen], hist[seen], found)
      ensures !ok ==> faults > old(faults) || seen + 1 < |hist|
    {
      var image := hist[seen];
      match found {
        case Found(size) => ok := Update(seen, image, image.(virtualSize := size));
        case NotFound(error) => ok := Update(seen, image, BackingImageMissing(image, error));
      }
    }

    method HandleRetry(seen: nat, v: nat, base: Image, failure: Option<string>, now: int) returns (ok: bool)
      requires Valid() && seen < |hist| && v < |hist|
      requires hist[seen].SameAccount(base) && hist[v].SameAccount(base) && !base.Exceeded()
      modifies this
      ensures Valid() && old(hist) <= hist
      ensures var a := hist[seen];
              if a.lastFailed.At? && now < a.lastFailed.time + 10 then
                ok && hist == old(hist) && mine == old(mine)
              else if a.lastFailed.Garbled? then
                && (mine == old(mine) || (Wrote(seen) && hist[seen + 1] == a.(lastFailed := At(now))))
                && (ok ==> mine != old(mine))
                && (!ok ==> faults > old(faults) || seen + 1 < |hist|)
              else
                && (mine == old(mine) || (Wrote(v) && AttemptRecorded(base, hist[v + 1], failure, now)))
                && (ok ==> mine != old(mine) || AttemptRecorded(base, base, failure, now))
                && (!ok ==> faults > old(faults) || v + 1 < |hist|)
    {
      var image := hist[seen];
      match image.lastFailed {
        case Garbled(_) =>
          ok := Update(seen, image, image.(lastFailed := At(now)));
          return;
        case At(t) =>
          if now < t + RETRY_DELAY {
            return true;
          }
        case NoStamp =>
      }
      ok := Initialize(v, base, failure, now);
    }
  }
}
