/** Writing a function's secrets and file-system settings into its deployment, and reading the secrets back. */
module Deployments {
  import opened FaasTypes
  import opened Sorting
  import opened Volumes

  const TEMP := "temp"
  const TEMP_VOLUME := Volume(TEMP, EmptyDir)
  const TEMP_MOUNT := VolumeMount(TEMP, "/tmp", false)
  const SECRETS_MOUNT_PATH := "/var/openfaas/secrets"
  const SECRETS_SUFFIX := "-projected-secrets"

  datatype Container = Container(image: string, env: seq<EnvVar>, mounts: seq<VolumeMount>, readOnlyRoot: Option<bool>)

  /** The parts of a deployment object that the function code writes. */
  datatype Spec = Spec(
    name: string, namespace: string, pullSecrets: seq<string>, volumes: seq<Volume>, containers: seq<Container>,
    labels: map<string, string>, annotations: MapPointer, replicas: int, available: nat)

  datatype SecretKind = Registry | Opaque

  datatype Secret = Secret(kind: SecretKind, keys: set<string>)

  /** A deploy or update request. */
  datatype FunctionDeployment = FunctionDeployment(
    service: string, image: string, namespace: string, envProcess: string, envVars: map<string, string>,
    secrets: seq<string>, labels: Option<map<string, string>>, annotations: MapPointer, readOnlyRoot: bool)

  function SecretsVolume(service: string): string {
    service + SECRETS_SUFFIX
  }

  // ---------- read-only root file system ----------

  function TempVolumes(readOnly: bool): seq<Volume> {
    if readOnly then [TEMP_VOLUME] else []
  }

  function TempMounts(readOnly: bool): seq<VolumeMount> {
    if readOnly then [TEMP_MOUNT] else []
  }

  function WithTemp(c: Container, readOnly: bool): Container {
    c.(readOnlyRoot := Some(readOnly), mounts := Without(c.mounts, MountName, TEMP) + TempMounts(readOnly))
  }

  function ReadOnlyRoot(d: Spec, readOnly: bool): Spec
    requires d.containers != []
  {
    d.(volumes := Without(d.volumes, VolumeName, TEMP) + TempVolumes(readOnly),
       containers := [WithTemp(d.containers[0], readOnly)] + d.containers[1..])
  }

  /** One temporary item or none, as asked, and the other items as they were. */
  ghost predicate TempReplaced<T>(before: seq<T>, after: seq<T>, nameOf: T -> string, readOnly: bool) {
    && Without(after, nameOf, TEMP) == Without(before, nameOf, TEMP)
    && CountNamed(after, nameOf, TEMP) == if readOnly then 1 else 0
  }

  // ---------- secrets ----------

  predicate AllExist(secrets: seq<string>, existing: map<string, Secret>) {
    forall i :: 0 <= i < |secrets| ==> secrets[i] in existing
  }

  /** The requested registry credentials, in order; the names stop at the first missing secret. */
  function PullNames(secrets: seq<string>, existing: map<string, Secret>): seq<string> {
    if secrets == [] || secrets[0] !in existing then []
    else (if existing[secrets[0]].kind == Registry then [secrets[0]] else []) + PullNames(secrets[1..], existing)
  }

  /** The other requested secrets, as projections in order. */
  function Projections(secrets: seq<string>, existing: map<string, Secret>): seq<Projection> {
    if secrets == [] || secrets[0] !in existing then []
    else
      (if existing[secrets[0]].kind == Registry then []
       else [SecretProjection(secrets[0], existing[secrets[0]].keys)]) + Projections(secrets[1..], existing)
  }

  /** The names before position `i` have been split into `pulled` and `projections`. */
  predicate SplitUpTo(secrets: seq<string>, existing: map<string, Secret>, i: nat, pulled: seq<string>,
                      projections: seq<Projection>)
    requires i <= |secrets|
  {
    && AllExist(secrets[..i], existing)
    && pulled + PullNames(secrets[i..], existing) == PullNames(secrets, existing)
    && projections + Projections(secrets[i..], existing) == Projections(secrets, existing)
  }

  lemma SplitOne(secrets: seq<string>, existing: map<string, Secret>, i: nat, pulled: seq<string>,
                 projections: seq<Projection>)
    requires i < |secrets| && SplitUpTo(secrets, existing, i, pulled, projections)
    ensures var name := secrets[i];
            if name !in existing then pulled == PullNames(secrets, existing) && !AllExist(secrets, existing)
            else if existing[name].kind == Registry then
              SplitUpTo(secrets, existing, i + 1, pulled + [name], projections)
            else
              SplitUpTo(secrets, existing, i + 1, pulled, projections + [SecretProjection(name, existing[name].keys)])
  {
    var name := secrets[i];
    assert secrets[i..][0] == name && secrets[i..][1..] == secrets[i + 1..];
    if name !in existing {
      assert pulled + [] == pulled;
    } else {
      assert secrets[..i + 1] == secrets[..i] + [name];
      var pulls, ps := PullNames(secrets[i + 1..], existing), Projections(secrets[i + 1..], existing);
      assert pulled + ([name] + pulls) == pulled + [name] + pulls && [] + pulls == pulls && [] + ps == ps;
      var p := SecretProjection(name, existing[name].keys);
      assert projections + ([p] + ps) == projections + [p] + ps;
    }
  }

  function SecretVolumes(service: string, projections: seq<Projection>): seq<Volume> {
    if projections == [] then [] else [Volume(SecretsVolume(service), Projected(projections))]
  }

  function SecretMounts(service: string, projections: seq<Projection>): seq<VolumeMount> {
    if projections == [] then [] else [VolumeMount(SecretsVolume(service), SECRETS_MOUNT_PATH, true)]
  }

  function WithSecrets(c: Container, service: string, projections: seq<Projection>): Container {
    c.(mounts := Without(c.mounts, MountName, SecretsVolume(service)) + SecretMounts(service, projections))
  }

  function WithSecretsAll(cs: seq<Container>, service: string, projections: seq<Projection>): (r: seq<Container>)
    ensures |r| == |cs|
    ensures forall i :: 0 <= i < |cs| ==> r[i] == WithSecrets(cs[i], service, projections)
  {
    seq(|cs|, i requires 0 <= i < |cs| => WithSecrets(cs[i], service, projections))
  }

  /** The deployment with its secrets configured; the second part says whether every secret was found. */
  function Secured(d: Spec, req: FunctionDeployment, existing: map<string, Secret>): (Spec, bool) {
    var pulled := d.(pullSecrets := d.pullSecrets + PullNames(req.secrets, existing));
    if !AllExist(req.secrets, existing) then (pulled, false) else
      var projections := Projections(req.secrets, existing);
      (pulled.(volumes := Without(d.volumes, VolumeName, SecretsVolume(req.service)) + SecretVolumes(req.service, projections),
               containers := WithSecretsAll(d.containers, req.service, projections)),
       true)
  }

  /** The secrets volume of a deployment is a projected one, as the reader takes for granted. */
  predicate Readable(d: Spec) {
    forall i :: 0 <= i < |d.volumes| && d.volumes[i].name == SecretsVolume(d.name) ==> d.volumes[i].source.Projected?
  }

  /** The first volume called `name`. */
  function FindVolume(volumes: seq<Volume>, name: string): (r: Option<Volume>)
    ensures r.Some? ==> r.value in volumes && r.value.name == name
    ensures r.None? ==> forall i :: 0 <= i < |volumes| ==> volumes[i].name != name
  {
    if volumes == [] then None
    else if volumes[0].name == name then Some(volumes[0])
    else FindVolume(volumes[1..], name)
  }

  function SecretNames(sources: seq<Projection>): seq<string> {
    if sources == [] then [] else
      (if sources[0].SecretProjection? then [sources[0].secret] else []) + SecretNames(sources[1..])
  }

  function ReadSecrets(d: Spec): seq<string>
    requires Readable(d)
  {
    var found := FindVolume(d.volumes, SecretsVolume(d.name));
    SortStrings(d.pullSecrets + (if found.Some? then SecretNames(found.value.source.sources) else []))
  }

  /** The reader's first loop. */
  method LookUpVolume(volumes: seq<Volume>, name: string) returns (r: Option<Volume>)
    ensures r == FindVolume(volumes, name)
  {
    for i := 0 to |volumes|
      invariant FindVolume(volumes[i..], name) == FindVolume(volumes, name)
    {
      assert volumes[i..][1..] == volumes[i + 1..];
      if volumes[i].name == name {
        return Some(volumes[i]);
      }
    }
    return None;
  }

  /** The reader's second loop. */
  method CollectNames(sources: seq<Projection>) returns (names: seq<string>)
    ensures names == SecretNames(sources)
  {
    names := [];
    for k := 0 to |sources|
      invariant names + SecretNames(sources[k..]) == SecretNames(sources)
    {
      assert sources[k..][1..] == sources[k + 1..];
      if sources[k].SecretProjection? {
        assert names + ([sources[k].secret] + SecretNames(sources[k + 1..])) ==
               names + [sources[k].secret] + SecretNames(sources[k + 1..]);
        names := names + [sources[k].secret];
      }
    }
    assert names + [] == names;
  }

  // ---------- what configuring leaves alone ----------

  /** The containers differ in their mounts at most. */
  ghost predicate OnlyMounts(before: seq<Container>, after: seq<Container>) {
    && |after| == |before|
    && forall i :: 0 <= i < |before| ==>
         && after[i].image == before[i].image && after[i].env == before[i].env
         && after[i].readOnlyRoot == before[i].readOnlyRoot
  }

  /** The deployments differ in pull secrets, volumes and containers at most. */
  ghost predicate OnlyPodParts(before: Spec, after: Spec) {
    && after.name == before.name && after.namespace == before.namespace && after.labels == before.labels
    && after.annotations == before.annotations && after.replicas == before.replicas
    && after.available == before.available
  }

  /** Configuring secrets touches pull secrets, volumes and mounts only; a failed one the pull secrets only. */
  lemma SecuredLeavesRest(d: Spec, req: FunctionDeployment, existing: map<string, Secret>)
    ensures var (w, ok) := Secured(d, req, existing);
            && (ok <==> AllExist(req.secrets, existing))
            && OnlyPodParts(d, w) && OnlyMounts(d.containers, w.containers)
            && (!ok ==> w.volumes == d.volumes && w.containers == d.containers)
            && d.pullSecrets <= w.pullSecrets
  {
  }

  /** Registry secrets become pull secrets; every other becomes a projection of exactly its keys. */
  lemma {:induction false} SplitByKind(secrets: seq<string>, existing: map<string, Secret>)
    requires AllExist(secrets, existing)
    ensures forall name :: name in PullNames(secrets, existing) ==> name in existing && existing[name].kind == Registry
    ensures forall p :: p in Projections(secrets, existing) ==>
              p.SecretProjection? && p.secret in existing && existing[p.secret].kind != Registry &&
              p.keys == existing[p.secret].keys
  {
    if secrets == [] {
    } else {
      ExistTail(secrets, existing);
      SplitByKind(secrets[1..], existing);
    }
  }

  lemma ExistTail(secrets: seq<string>, existing: map<string, Secret>)
    requires secrets != [] && AllExist(secrets, existing)
    ensures secrets[0] in existing && AllExist(secrets[1..], existing)
  {
  }

  // ---------- the deployment object ----------

  class Deployment {
    var spec: Spec

    constructor (spec: Spec)
      ensures this.spec == spec
    {
      this.spec := spec;
    }

    /**
     One temporary volume and mount if the root file system is to be read-only, none otherwise; everything
     else stays, in order.
     */
    method ConfigureReadOnlyRootFilesystem(req: FunctionDeployment)
      requires spec.containers != []
      modifies this
      ensures spec == ReadOnlyRoot(old(spec), req.readOnlyRoot)
      ensures spec.containers != [] && spec.containers[0].readOnlyRoot == Some(req.readOnlyRoot)
      ensures TempReplaced(old(spec).volumes, spec.volumes, VolumeName, req.readOnlyRoot)
      ensures TempReplaced(old(spec).containers[0].mounts, spec.containers[0].mounts, MountName, req.readOnlyRoot)
      ensures req.readOnlyRoot ==>
                Volume("temp", EmptyDir) in spec.volumes &&
                VolumeMount("temp", "/tmp", false) in spec.containers[0].mounts
      ensures OnlyPodParts(old(spec), spec) && spec.pullSecrets == old(spec).pullSecrets
      ensures spec.containers[1..] == old(spec).containers[1..]
      ensures spec.containers[0].image == old(spec).containers[0].image
      ensures spec.containers[0].env == old(spec).containers[0].env
    {
      var volumes := Replace(TEMP, VolumeName, spec.volumes, TempVolumes(req.readOnlyRoot));
      var c := spec.containers[0];
      var mounts := Replace(TEMP, MountName, c.mounts, TempMounts(req.readOnlyRoot));
      ReplacedExactly(spec.volumes, TempVolumes(req.readOnlyRoot), VolumeName, TEMP);
      ReplacedExactly(c.mounts, TempMounts(req.readOnlyRoot), MountName, TEMP);
      c := c.(readOnlyRoot := Some(req.readOnlyRoot), mounts := mounts);
      spec := spec.(volumes := volumes, containers := [c] + spec.containers[1..]);
    }

    /** Stops at the first missing secret, with the pull secrets before it already appended. */
    method ConfigureSecrets(req: FunctionDeployment, existing: map<string, Secret>) returns (ok: bool)
      modifies this
      ensures (spec, ok) == Secured(old(spec), req, existing)
      ensures ok <==> forall i :: 0 <= i < |req.secrets| ==> req.secrets[i] in existing
      ensures OnlyPodParts(old(spec), spec) && OnlyMounts(old(spec).containers, spec.containers)
    {
      SecuredLeavesRest(spec, req, existing);
      var projections;
      projections, ok := SplitSecrets(req.secrets, existing);
      if ok {
        MountSecrets(req.service, projections);
      }
    }

    /** The first half: pull secrets are appended as they come, the others are collected. */
    method SplitSecrets(secrets: seq<string>, existing: map<string, Secret>) returns (projections: seq<Projection>, ok: bool)
      modifies this
      ensures spec == old(spec).(pullSecrets := old(spec).pullSecrets + PullNames(secrets, existing))
      ensures ok == AllExist(secrets, existing)
      ensures ok ==> projections == Projections(secrets, existing)
    {
      projections := [];
      ghost var pulled: seq<string> := [];
      assert secrets[0..] == secrets;
      for i := 0 to |secrets|
        invariant spec == old(spec).(pullSecrets := old(spec).pullSecrets + pulled)
        invariant SplitUpTo(secrets, existing, i, pulled, projections)
      {
        var name := secrets[i];
        SplitOne(secrets, existing, i, pulled, projections);
        if name !in existing {
          return projections, false;
        }
        if existing[name].kind == Registry {
          spec := spec.(pullSecrets := spec.pullSecrets + [name]);
          assert old(spec).pullSecrets + pulled + [name] == old(spec).pullSecrets + (pulled + [name]);
          pulled := pulled + [name];
        } else {
          projections := projections + [SecretProjection(name, existing[name].keys)];
        }
      }
      assert secrets[..|secrets|] == secrets && secrets[|secrets|..] == [];
      assert pulled + [] == pulled && projections + [] == projections;
      ok := true;
    }

    /** The second half: replace the volume and, container by container, the mount. */
    method MountSecrets(service: string, projections: seq<Projection>)
      modifies this
      ensures spec == old(spec).(
                volumes := Without(old(spec).volumes, VolumeName, SecretsVolume(service)) + SecretVolumes(service, projections),
                containers := WithSecretsAll(old(spec).containers, service, projections))
      ensures forall i :: 0 <= i < |spec.containers| && projections != [] ==>
                VolumeMount(service + "-projected-secrets", "/var/openfaas/secrets", true) in spec.containers[i].mounts
      ensures projections != [] ==> Volume(service + "-projected-secrets", Projected(projections)) in spec.volumes
    {
      var volumeName := SecretsVolume(service);
      var volumes := Replace(volumeName, VolumeName, spec.volumes, SecretVolumes(service, projections));
      var containers, updated: seq<Container> := spec.containers, [];
      for i := 0 to |containers|
        invariant spec == old(spec) && |updated| == i
        invariant forall k :: 0 <= k < i ==> updated[k] == WithSecrets(containers[k], service, projections)
      {
        var c := containers[i];
        var mounts := Replace(volumeName, MountName, c.mounts, SecretMounts(service, projections));
        updated := updated + [c.(mounts := mounts)];
      }
      assert updated == WithSecretsAll(containers, service, projections);
      spec := spec.(volumes := volumes, containers := updated);
    }

    method ReadFunctionSecretsSpec() returns (secrets: seq<string>)
      requires Readable(spec)
      ensures secrets == ReadSecrets(spec)
    {
      secrets := spec.pullSecrets;
      var found := LookUpVolume(spec.volumes, SecretsVolume(spec.name));
      if found.Some? {
        var names := CollectNames(found.value.source.sources);
        secrets := secrets + names;
      } else {
        assert secrets + [] == secrets;
      }
      secrets := SortStrings(secrets);
    }
  }

  // ---------- the reader inverts the writer ----------

  /** Where the first requested secret goes. */
  lemma SplitFirst(secrets: seq<string>, existing: map<string, Secret>)
    requires secrets != [] && secrets[0] in existing
    ensures var registry := existing[secrets[0]].kind == Registry;
            && PullNames(secrets, existing) ==
               (if registry then [secrets[0]] else []) + PullNames(secrets[1..], existing)
            && SecretNames(Projections(secrets, existing)) ==
               (if registry then [] else [secrets[0]]) + SecretNames(Projections(secrets[1..], existing))
  {
    var ps := Projections(secrets[1..], existing);
    if existing[secrets[0]].kind == Registry {
      assert [] + ps == ps;
    } else {
      SecretNamesCons(SecretProjection(secrets[0], existing[secrets[0]].keys), ps);
    }
  }

  /** One more name on one of two sides. */
  lemma OneMoreName(left: seq<string>, right: seq<string>, all: seq<string>, toLeft: bool)
    requires all != [] && multiset(left) + multiset(right) == multiset(all[1..])
    ensures multiset((if toLeft then [all[0]] else []) + left) + multiset((if toLeft then [] else [all[0]]) + right) ==
            multiset(all)
  {
    assert all == [all[0]] + all[1..];
    assert [] + left == left && [] + right == right;
  }

  /** Splitting a request into pull names and projections loses and adds nothing. */
  lemma {:induction false} SplitKeepsNames(secrets: seq<string>, existing: map<string, Secret>)
    requires AllExist(secrets, existing)
    ensures multiset(PullNames(secrets, existing)) + multiset(SecretNames(Projections(secrets, existing))) == multiset(secrets)
  {
    if secrets == [] {
    } else {
      ExistTail(secrets, existing);
      SplitKeepsNames(secrets[1..], existing);
      SplitFirst(secrets, existing);
      OneMoreName(PullNames(secrets[1..], existing), SecretNames(Projections(secrets[1..], existing)), secrets,
                  existing[secrets[0]].kind == Registry);
    }
  }

  lemma SecretNamesCons(p: Projection, ps: seq<Projection>)
    requires p.SecretProjection?
    ensures SecretNames([p] + ps) == [p.secret] + SecretNames(ps)
  {
    assert ([p] + ps)[1..] == ps;
  }

  lemma FindAppended(volumes: seq<Volume>, v: Volume)
    ensures FindVolume(Without(volumes, VolumeName, v.name) + [v], v.name) == Some(v)
    ensures FindVolume(Without(volumes, VolumeName, v.name), v.name) == None
  {
    var kept := Without(volumes, VolumeName, v.name);
    WithoutHasNone(volumes, v.name);
    var found := FindVolume(kept + [v], v.name);
    assert (kept + [v])[|kept|].name == v.name;
    if found.Some? {
      var i :| 0 <= i < |kept + [v]| && (kept + [v])[i] == found.value;
      assert i == |kept|;
    }
  }

  lemma WithoutHasNone(volumes: seq<Volume>, name: string)
    ensures forall i :: 0 <= i < |Without(volumes, VolumeName, name)| ==> Without(volumes, VolumeName, name)[i].name != name
  {
    var kept := Without(volumes, VolumeName, name);
    forall i | 0 <= i < |kept|
      ensures kept[i].name != name
    {
      assert kept[i] in multiset(kept);
      WithoutKeeps(volumes, VolumeName, name, kept[i]);
    }
  }

  /** What the reader finds in the volumes just written. */
  lemma ReadBackVolume(d: Spec, req: FunctionDeployment, existing: map<string, Secret>)
    requires req.service == d.name && AllExist(req.secrets, existing)
    ensures var w := Secured(d, req, existing).0;
            var found := FindVolume(w.volumes, SecretsVolume(d.name));
            && Readable(w)
            && (if Projections(req.secrets, existing) == [] then found == None
                else found == Some(Volume(SecretsVolume(d.name), Projected(Projections(req.secrets, existing)))))
  {
    var projections := Projections(req.secrets, existing);
    var v := Volume(SecretsVolume(d.name), Projected(projections));
    FindAppended(d.volumes, v);
    WithoutHasNone(d.volumes, v.name);
    var kept := Without(d.volumes, VolumeName, v.name);
    assert kept + [] == kept;
  }

  /** Reading back gives, sorted, the pull secrets that were there plus exactly the requested names. */
  lemma ReadInvertsConfigure(d: Spec, req: FunctionDeployment, existing: map<string, Secret>)
    requires req.service == d.name && AllExist(req.secrets, existing)
    ensures Readable(Secured(d, req, existing).0)
    ensures ReadSecrets(Secured(d, req, existing).0) == SortStrings(d.pullSecrets + req.secrets)
  {
    var w := Secured(d, req, existing).0;
    ReadBackVolume(d, req, existing);
    SplitKeepsNames(req.secrets, existing);
    SortedUnique(ReadSecrets(w), SortStrings(d.pullSecrets + req.secrets));
  }

  /** So the request itself is read back exactly when no pull secret was there before. */
  lemma ReadsRequestIff(d: Spec, req: FunctionDeployment, existing: map<string, Secret>)
    requires req.service == d.name && AllExist(req.secrets, existing)
    ensures Readable(Secured(d, req, existing).0)
    ensures ReadSecrets(Secured(d, req, existing).0) == SortStrings(req.secrets) <==> d.pullSecrets == []
  {
    ReadInvertsConfigure(d, req, existing);
    if d.pullSecrets == [] {
      assert d.pullSecrets + req.secrets == req.secrets;
    } else {
      var a, b := SortStrings(d.pullSecrets + req.secrets), SortStrings(req.secrets);
      assert |a| == |multiset(a)| && |b| == |multiset(b)|;
    }
  }
}
