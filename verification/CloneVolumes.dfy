/**
 Cloning the volumes of a virtual machine: every claim and every secret gets a generated
 name, and the clone refers to the new names the way the source refers to its own.
 */
module CloneVolumes {

  datatype Option<T> = None | Some(value: T)

  datatype Volume =
    | ClaimVolume(name: string, claim: string)
    | CloudInit(name: string, userData: Option<string>, networkData: Option<string>)
    | SecretVolume(name: string, secret: string)
    | ContainerDisk(name: string, image: string)
    | Unsupported(name: string)

  /** What a clone copies from a claim: modes, size, class and the image annotation. */
  datatype ClaimSpec = ClaimSpec(spec: string, imageId: Option<string>)

  datatype NewClaim = NewClaim(name: string, dataSource: string, copied: ClaimSpec)

  datatype Clone = Clone(volumes: seq<Volume>, claims: seq<NewClaim>, secrets: map<string, string>)

  /** The secrets a volume refers to. */
  function Refs(v: Volume): set<string> {
    match v
    case CloudInit(_, u, n) => (if u.Some? then {u.value} else {}) + (if n.Some? then {n.value} else {})
    case SecretVolume(_, s) => {s}
    case _ => {}
  }

  function AllRefs(vs: seq<Volume>): set<string> {
    if vs == [] then {} else AllRefs(vs[..|vs| - 1]) + Refs(vs[|vs| - 1])
  }

  function ClaimNames(vs: seq<Volume>): set<string> {
    set v | v in vs && v.ClaimVolume? :: v.claim
  }

  predicate Cloneable(v: Volume, claims: map<string, ClaimSpec>) {
    !v.Unsupported? && (v.ClaimVolume? ==> v.claim in claims)
  }

  function RenameRef(r: Option<string>, secrets: map<string, string>): Option<string>
    requires r.Some? ==> r.value in secrets
  {
    if r.Some? then Some(secrets[r.value]) else None
  }

  /** A volume with its references renamed; a claim is given its new name. */
  function Renamed(v: Volume, secrets: map<string, string>, claim: string): Volume
    requires Refs(v) <= secrets.Keys
  {
    match v
    case ClaimVolume(n, _) => ClaimVolume(n, claim)
    case CloudInit(n, u, d) => CloudInit(n, RenameRef(u, secrets), RenameRef(d, secrets))
    case SecretVolume(n, s) => SecretVolume(n, secrets[s])
    case _ => v
  }

  function ClaimOf(v: Volume): string {
    if v.ClaimVolume? then v.claim else ""
  }

  /** The claims to create: one for each claim volume, in order, copied from the old one. */
  function ClaimsFor(vs: seq<Volume>, clones: seq<Volume>, claims: map<string, ClaimSpec>): seq<NewClaim>
    requires |vs| == |clones| && forall i :: 0 <= i < |vs| ==> Cloneable(vs[i], claims)
  {
    if vs == [] then []
    else
      var n := |vs| - 1;
      assert Cloneable(vs[n], claims);
      ClaimsFor(vs[..n], clones[..n], claims)
      + if vs[n].ClaimVolume? then [NewClaim(ClaimOf(clones[n]), vs[n].claim, claims[vs[n].claim])] else []
  }

  /** `c` is a faithful clone of `vs`. */
  ghost predicate IsClone(vs: seq<Volume>, claims: map<string, ClaimSpec>, c: Clone) {
    && |c.volumes| == |vs|
    && (forall i :: 0 <= i < |vs| ==> Cloneable(vs[i], claims))
    && c.secrets.Keys == AllRefs(vs)
    && (forall i :: 0 <= i < |vs| ==>
          Refs(vs[i]) <= c.secrets.Keys && c.volumes[i] == Renamed(vs[i], c.secrets, ClaimOf(c.volumes[i])))
    && c.claims == ClaimsFor(vs, c.volumes, claims)
  }

  /** All new names are among the given ones, and no two things share one. */
  ghost predicate UsesOnce(secrets: map<string, string>, claims: seq<NewClaim>, names: seq<string>) {
    && (forall a | a in secrets :: secrets[a] in names)
    && (forall a, b | a in secrets && b in secrets :: secrets[a] == secrets[b] ==> a == b)
    && (forall i :: 0 <= i < |claims| ==> claims[i].name in names)
    && (forall i, a :: 0 <= i < |claims| && a in secrets ==> claims[i].name != secrets[a])
    && (forall i, j :: 0 <= i < j < |claims| ==> claims[i].name != claims[j].name)
  }

  ghost predicate Distinct(xs: seq<string>) {
    forall i, j :: 0 <= i < j < |xs| ==> xs[i] != xs[j]
  }

  /** Further renamings do not touch what is already renamed. */
  lemma RenamedStable(v: Volume, a: map<string, string>, b: map<string, string>, claim: string)
    requires Refs(v) <= a.Keys && a.Keys <= b.Keys && forall k | k in a :: b[k] == a[k]
    ensures Renamed(v, a, claim) == Renamed(v, b, claim)
  {
  }

  lemma ClaimsForSnoc(vs: seq<Volume>, clones: seq<Volume>, claims: map<string, ClaimSpec>, v: Volume, w: Volume)
    requires |vs| == |clones| && (forall i :: 0 <= i < |vs| ==> Cloneable(vs[i], claims)) && Cloneable(v, claims)
    ensures ClaimsFor(vs + [v], clones + [w], claims) ==
            ClaimsFor(vs, clones, claims)
            + if v.ClaimVolume? then [NewClaim(ClaimOf(w), v.claim, claims[v.claim])] else []
  {
    assert (vs + [v])[..|vs|] == vs && (clones + [w])[..|clones|] == clones;
  }

  /** Adding one volume to a clone of the volumes before it. */
  lemma CloneSnoc(vs: seq<Volume>, claims: map<string, ClaimSpec>, c: Clone, v: Volume, d: Clone)
    requires IsClone(vs, claims, c) && Cloneable(v, claims)
    requires d.secrets.Keys == c.secrets.Keys + Refs(v) && forall k | k in c.secrets :: d.secrets[k] == c.secrets[k]
    requires |d.volumes| == |vs| + 1 && d.volumes[..|vs|] == c.volumes
    requires d.volumes[|vs|] == Renamed(v, d.secrets, ClaimOf(d.volumes[|vs|]))
    requires d.claims ==
             c.claims
             + if v.ClaimVolume? then [NewClaim(ClaimOf(d.volumes[|vs|]), v.claim, claims[v.claim])] else []
    ensures IsClone(vs + [v], claims, d)
  {
    assert (vs + [v])[..|vs|] == vs;
    assert d.volumes == c.volumes + [d.volumes[|vs|]];
    ClaimsForSnoc(vs, c.volumes, claims, v, d.volumes[|vs|]);
    forall i | 0 <= i < |vs|
      ensures Refs(vs[i]) <= d.secrets.Keys && d.volumes[i] == Renamed(vs[i], d.secrets, ClaimOf(d.volumes[i]))
    {
      assert d.volumes[i] == c.volumes[i];
      RenamedStable(vs[i], c.secrets, d.secrets, ClaimOf(c.volumes[i]));
    }
  }

  lemma NextIsNew(gen: seq<string>, used: nat)
    requires Distinct(gen) && used < |gen|
    ensures gen[used] !in gen[..used]
    ensures forall x :: x in gen[..used + 1] <==> x in gen[..used] || x == gen[used]
  {
    assert gen[..used + 1] == gen[..used] + [gen[used]];
  }

  lemma NewSecretName(secrets: map<string, string>, claims: seq<NewClaim>, gen: seq<string>, used: nat, secret: string)
    requires Distinct(gen) && used < |gen| && UsesOnce(secrets, claims, gen[..used]) && secret !in secrets
    ensures UsesOnce(secrets[secret := gen[used]], claims, gen[..used + 1])
  {
    NextIsNew(gen, used);
  }

  lemma NewClaimName(secrets: map<string, string>, claims: seq<NewClaim>, gen: seq<string>, used: nat, claim: NewClaim)
    requires Distinct(gen) && used < |gen| && UsesOnce(secrets, claims, gen[..used]) && claim.name == gen[used]
    ensures UsesOnce(secrets, claims + [claim], gen[..used + 1])
  {
    NextIsNew(gen, used);
  }

  /** Renames one secret reference, drawing a name the first time the secret is met. */
  method CloneRef(secret: string, c: Clone, gen: seq<string>, used: nat) returns (d: Clone, used': nat)
    requires used < |gen|
    ensures used <= used' <= used + 1
    ensures d == c.(secrets := d.secrets) && d.secrets.Keys == c.secrets.Keys + {secret}
    ensures forall k | k in c.secrets :: d.secrets[k] == c.secrets[k]
    ensures Distinct(gen) && UsesOnce(c.secrets, c.claims, gen[..used]) ==> UsesOnce(d.secrets, d.claims, gen[..used'])
  {
    d, used' := c, used;
    if secret !in c.secrets {
      d := c.(secrets := c.secrets[secret := gen[used]]);
      used' := used + 1;
      if Distinct(gen) && UsesOnce(c.secrets, c.claims, gen[..used]) {
        NewSecretName(c.secrets, c.claims, gen, used, secret);
      }
    }
  }

  /** One volume: its clone appended to the clones of the volumes before it. */
  method CloneOne(v: Volume, claims: map<string, ClaimSpec>, c: Clone, gen: seq<string>, used: nat,
                  ghost vs: seq<Volume>)
    returns (r: Option<Clone>, used': nat)
    requires IsClone(vs, claims, c) && used + 2 <= |gen|
    ensures used <= used' <= used + 2
    ensures r.Some? <==> Cloneable(v, claims)
    ensures r.Some? ==> IsClone(vs + [v], claims, r.value)
    ensures r.Some? && Distinct(gen) && UsesOnce(c.secrets, c.claims, gen[..used]) ==>
              UsesOnce(r.value.secrets, r.value.claims, gen[..used'])
  {
    used' := used;
    var d := c;
    match v {
      case ClaimVolume(name, claim) =>
        if claim !in claims {
          return None, used;
        }
        var newClaim := NewClaim(gen[used], claim, claims[claim]);
        if Distinct(gen) && UsesOnce(c.secrets, c.claims, gen[..used]) {
          NewClaimName(c.secrets, c.claims, gen, used, newClaim);
        }
        d := c.(claims := c.claims + [newClaim], volumes := c.volumes + [ClaimVolume(name, newClaim.name)]);
        used' := used + 1;
      case CloudInit(name, userData, networkData) =>
        var u, n := userData, networkData;
        if userData.Some? {
          d, used' := CloneRef(userData.value, d, gen, used');
          u := Some(d.secrets[userData.value]);
        }
        if networkData.Some? {
          d, used' := CloneRef(networkData.value, d, gen, used');
          n := Some(d.secrets[networkData.value]);
        }
        d := d.(volumes := d.volumes + [CloudInit(name, u, n)]);
      case SecretVolume(name, secret) =>
        d, used' := CloneRef(secret, d, gen, used');
        d := d.(volumes := d.volumes + [SecretVolume(name, d.secrets[secret])]);
      case ContainerDisk(_, _) =>
        d := d.(volumes := d.volumes + [v]);
      case Unsupported(_) =>
        return None, used;
    }
    CloneSnoc(vs, claims, c, v, d);
    r := Some(d);
  }

  lemma CloneNeedsAll(vs: seq<Volume>, claims: map<string, ClaimSpec>, c: Clone)
    requires IsClone(vs, claims, c)
    ensures forall v | v in vs :: Cloneable(v, claims)
  {
  }

  lemma UsesOnceOfMore(secrets: map<string, string>, claims: seq<NewClaim>, gen: seq<string>, used: nat)
    requires used <= |gen| && UsesOnce(secrets, claims, gen[..used])
    ensures UsesOnce(secrets, claims, gen)
  {
    assert forall x | x in gen[..used] :: x in gen;
  }

  /**
   cloneVolumes, drawing names from `gen`: fails exactly when a volume is unsupported or
   its claim is missing; otherwise the result is a clone, and distinct generated names
   are each used for one thing.
   */
  method CloneAll(vs: seq<Volume>, claims: map<string, ClaimSpec>, gen: seq<string>) returns (r: Option<Clone>)
    requires |gen| >= 2 * |vs|
    ensures r.Some? <==> forall v | v in vs :: Cloneable(v, claims)
    ensures r.Some? ==> IsClone(vs, claims, r.value)
    ensures r.Some? && Distinct(gen) ==> UsesOnce(r.value.secrets, r.value.claims, gen)
  {
    var c := Clone([], [], map[]);
    var used := 0;
    for i := 0 to |vs|
      invariant used <= 2 * i
      invariant IsClone(vs[..i], claims, c)
      invariant Distinct(gen) ==> UsesOnce(c.secrets, c.claims, gen[..used])
    {
      var one;
      one, used := CloneOne(vs[i], claims, c, gen, used, vs[..i]);
      if one.None? {
        assert vs[i] in vs;
        return None;
      }
      assert vs[..i + 1] == vs[..i] + [vs[i]];
      c := one.value;
    }
    assert vs[..|vs|] == vs;
    CloneNeedsAll(vs, claims, c);
    if Distinct(gen) {
      UsesOnceOfMore(c.secrets, c.claims, gen, used);
    }
    r := Some(c);
  }

  // What the clone's reader sees.

  /** Where a volume can refer to a secret. */
  datatype Slot = UserData | NetworkData | SecretName

  function RefAt(v: Volume, s: Slot): Option<string> {
    match v
    case CloudInit(_, u, n) => (match s case UserData => u case NetworkData => n case SecretName => None)
    case SecretVolume(_, x) => if s.SecretName? then Some(x) else None
    case _ => None
  }

  lemma RefAtIsRenamed(vs: seq<Volume>, claims: map<string, ClaimSpec>, c: Clone, i: nat, s: Slot)
    requires IsClone(vs, claims, c) && i < |vs|
    ensures RefAt(vs[i], s).None? <==> RefAt(c.volumes[i], s).None?
    ensures RefAt(vs[i], s).Some? ==>
              && RefAt(vs[i], s).value in c.secrets
              && RefAt(c.volumes[i], s) == Some(c.secrets[RefAt(vs[i], s).value])
  {
    assert Refs(vs[i]) <= c.secrets.Keys && c.volumes[i] == Renamed(vs[i], c.secrets, ClaimOf(c.volumes[i]));
  }

  /** Two secret references are equal in the clone exactly when they were in the source. */
  lemma ReferenceGraphIsPreserved(vs: seq<Volume>, claims: map<string, ClaimSpec>, c: Clone, gen: seq<string>,
                                  i: nat, s: Slot, j: nat, t: Slot)
    requires IsClone(vs, claims, c) && UsesOnce(c.secrets, c.claims, gen) && i < |vs| && j < |vs|
    requires RefAt(vs[i], s).Some? && RefAt(vs[j], t).Some?
    ensures RefAt(c.volumes[i], s) == RefAt(c.volumes[j], t) <==> RefAt(vs[i], s) == RefAt(vs[j], t)
  {
    RefAtIsRenamed(vs, claims, c, i, s);
    RefAtIsRenamed(vs, claims, c, j, t);
  }

  /** The parts of a volume that name neither a claim nor a secret. */
  predicate SameRest(v: Volume, w: Volume) {
    match v
    case ClaimVolume(n, _) => w.ClaimVolume? && w.name == n
    case CloudInit(n, u, d) =>
      w.CloudInit? && w.name == n && (w.userData.Some? <==> u.Some?) && (w.networkData.Some? <==> d.Some?)
    case SecretVolume(n, _) => w.SecretVolume? && w.name == n
    case ContainerDisk(n, image) => w.ContainerDisk? && w.name == n && w.image == image
    case Unsupported(_) => false
  }

  /** A clone has the same volumes in the same order, but for the names of claims and secrets. */
  lemma CloneKeepsRest(vs: seq<Volume>, claims: map<string, ClaimSpec>, c: Clone, i: nat)
    requires IsClone(vs, claims, c) && i < |vs|
    ensures |c.volumes| == |vs| && SameRest(vs[i], c.volumes[i])
  {
    assert Refs(vs[i]) <= c.secrets.Keys && c.volumes[i] == Renamed(vs[i], c.secrets, ClaimOf(c.volumes[i]));
  }

  /**
   The claims to create correspond one to one, in order, to the claim volumes: each has the name that the
   clone uses, the old claim as its data source, and what is copied from it.
   */
  ghost predicate ClaimsCorrespond(vs: seq<Volume>, clones: seq<Volume>, claims: map<string, ClaimSpec>,
                                   created: seq<NewClaim>, places: seq<nat>) {
    && |places| == |created| && |clones| == |vs|
    && (forall i, j :: 0 <= i < j < |places| ==> places[i] < places[j])
    && (forall n: nat :: n in places <==> n < |vs| && vs[n].ClaimVolume?)
    && (forall k :: 0 <= k < |places| ==>
          && places[k] < |vs| && vs[places[k]].ClaimVolume? && vs[places[k]].claim in claims
          && clones[places[k]].ClaimVolume? && created[k].name == clones[places[k]].claim
          && created[k].dataSource == vs[places[k]].claim && created[k].copied == claims[vs[places[k]].claim])
  }

  lemma {:induction false} ClaimsForMeaning(vs: seq<Volume>, clones: seq<Volume>, claims: map<string, ClaimSpec>)
    returns (places: seq<nat>)
    requires |vs| == |clones| && forall i :: 0 <= i < |vs| ==> Cloneable(vs[i], claims)
    requires forall i :: 0 <= i < |vs| && vs[i].ClaimVolume? ==> clones[i].ClaimVolume?
    ensures ClaimsCorrespond(vs, clones, claims, ClaimsFor(vs, clones, claims), places)
  {
    places := [];
    if vs != [] {
      var n := |vs| - 1;
      var vs0, clones0 := vs[..n], clones[..n];
      var created := ClaimsFor(vs0, clones0, claims);
      places := ClaimsForMeaning(vs0, clones0, claims);
      OneMoreClaim(vs0, clones0, claims, created, places, vs[n], clones[n]);
      assert vs == vs0 + [vs[n]] && clones == clones0 + [clones[n]];
      if vs[n].ClaimVolume? {
        places := places + [n];
      }
    }
  }

  lemma OneMoreClaim(vs: seq<Volume>, clones: seq<Volume>, claims: map<string, ClaimSpec>, created: seq<NewClaim>,
                     places: seq<nat>, v: Volume, w: Volume)
    requires ClaimsCorrespond(vs, clones, claims, created, places)
    requires v.ClaimVolume? ==> v.claim in claims && w.ClaimVolume?
    ensures v.ClaimVolume? ==>
              ClaimsCorrespond(vs + [v], clones + [w], claims, created + [NewClaim(w.claim, v.claim, claims[v.claim])],
                               places + [|vs|])
    ensures !v.ClaimVolume? ==> ClaimsCorrespond(vs + [v], clones + [w], claims, created, places)
  {
    assert forall n :: n in places + [|vs|] <==> n in places || n == |vs|;
  }

  lemma CloneClaimsCorrespond(vs: seq<Volume>, claims: map<string, ClaimSpec>, c: Clone) returns (places: seq<nat>)
    requires IsClone(vs, claims, c)
    ensures ClaimsCorrespond(vs, c.volumes, claims, c.claims, places)
  {
    forall i | 0 <= i < |vs|
      ensures SameRest(vs[i], c.volumes[i])
    {
      CloneKeepsRest(vs, claims, c, i);
    }
    places := ClaimsForMeaning(vs, c.volumes, claims);
  }

  /** No generated name is a claim or a secret of the source. */
  ghost predicate NewNames(vs: seq<Volume>, gen: seq<string>) {
    forall x | x in gen :: x !in AllRefs(vs) && x !in ClaimNames(vs)
  }

  lemma {:induction false} ClaimIsListed(vs: seq<Volume>, clones: seq<Volume>, claims: map<string, ClaimSpec>, i: nat)
    returns (k: nat)
    requires |vs| == |clones| && (forall i :: 0 <= i < |vs| ==> Cloneable(vs[i], claims))
    requires i < |vs| && vs[i].ClaimVolume?
    ensures k < |ClaimsFor(vs, clones, claims)|
    ensures ClaimsFor(vs, clones, claims)[k] == NewClaim(ClaimOf(clones[i]), vs[i].claim, claims[vs[i].claim])
  {
    if i == |vs| - 1 {
      k := |ClaimsFor(vs[..i], clones[..i], claims)|;
    } else {
      k := ClaimIsListed(vs[..|vs| - 1], clones[..|vs| - 1], claims, i);
    }
  }

  /** Nothing in the clone still names a claim or a secret of the source. */
  lemma CloneSharesNothing(vs: seq<Volume>, claims: map<string, ClaimSpec>, c: Clone, gen: seq<string>, i: nat)
    requires IsClone(vs, claims, c) && UsesOnce(c.secrets, c.claims, gen) && NewNames(vs, gen) && i < |vs|
    ensures Refs(c.volumes[i]) !! AllRefs(vs)
    ensures c.volumes[i].ClaimVolume? ==> c.volumes[i].claim !in ClaimNames(vs)
  {
    assert Refs(vs[i]) <= c.secrets.Keys && c.volumes[i] == Renamed(vs[i], c.secrets, ClaimOf(c.volumes[i]));
    if vs[i].ClaimVolume? {
      var k := ClaimIsListed(vs, c.volumes, claims, i);
    }
  }

  datatype Secret = Secret(data: string, kind: string)

  /** The secrets of a namespace, as the clone creates them one by one. */
  class Secrets {
    var stored: map<string, Secret>
    ghost var faults: nat // the requests that got no proper answer

    method Create(name: string, s: Secret) returns (ok: bool)
      modifies this
      ensures ok ==> name !in old(stored) && stored == old(stored)[name := s] && faults == old(faults)
      ensures !ok ==> stored == old(stored) && (faults > old(faults) || name in old(stored))
    {
      var fault: bool := *;
      if fault {
        faults := faults + 1;
        return false;
      }
      ok := name !in stored;
      if ok {
        stored := stored[name := s];
      }
    }

    /**
     The secret loop of cloneVM.  Success means every new secret was created with the data
     of its source; existing secrets are never overwritten.  It fails only for a fault, a source that is
     missing, or a new name that is taken.
     */
    method CloneSecrets(names: map<string, string>, cache: map<string, Secret>) returns (ok: bool)
      modifies this
      ensures forall n | n in old(stored) :: n in stored && stored[n] == old(stored)[n]
      ensures forall n | n in stored && n !in old(stored) :: n in names.Values
      ensures ok ==> forall o | o in names ::
                o in cache && names[o] !in old(stored) && names[o] in stored && stored[names[o]] == cache[o]
      ensures !ok ==>
                || faults > old(faults)
                || (exists o :: o in names && (o !in cache || names[o] in old(stored)))
                || (exists o, p :: o in names && p in names && o != p && names[o] == names[p])
    {
      var todo := names.Keys;
      while todo != {}
        invariant todo <= names.Keys
        invariant forall n | n in old(stored) :: n in stored && stored[n] == old(stored)[n]
        invariant forall n | n in stored && n !in old(stored) :: exists o :: o in names && o !in todo && names[o] == n
        invariant faults == old(faults)
        invariant forall o | o in names && o !in todo ::
                    o in cache && names[o] !in old(stored) && names[o] in stored && stored[names[o]] == cache[o]
        decreases |todo|
      {
        var o :| o in todo;
        if o !in cache {
          return false;
        }
        ok := Create(names[o], cache[o]);
        if !ok {
          return false;
        }
        todo := todo - {o};
      }
      ok := true;
    }
  }

  /** So every reference of the clone names a secret with the data its source had. */
  lemma ClonedReferencesResolve(vs: seq<Volume>, claims: map<string, ClaimSpec>, c: Clone,
                                cache: map<string, Secret>, stored: map<string, Secret>, i: nat, s: Slot)
    requires IsClone(vs, claims, c) && i < |vs| && RefAt(vs[i], s).Some?
    requires forall o | o in c.secrets :: o in cache && c.secrets[o] in stored && stored[c.secrets[o]] == cache[o]
    ensures RefAt(vs[i], s).value in cache
    ensures RefAt(c.volumes[i], s).Some? && RefAt(c.volumes[i], s).value in stored
    ensures stored[RefAt(c.volumes[i], s).value] == cache[RefAt(vs[i], s).value]
  {
    RefAtIsRenamed(vs, claims, c, i, s);
  }
}
