/** Copying a function: its status becomes a request, the request a deployment, and that a status again. */
module Redeploy {
  import opened FaasTypes
  import opened Sorting
  import opened Volumes
  import opened Deployments
  import opened Builders
  import opened Updates

  // ---------- status ----------

  /** A deployment that a status can be taken of: it has a container, and its replica count is a 32-bit value. */
  predicate Listable(d: Spec) {
    d.containers != [] && Readable(d) && -INT32_LIMIT <= d.replicas < INT32_LIMIT
  }

  /** The summary of a deployment that peers exchange. */
  function Status(d: Spec): FunctionStatus
    requires Listable(d)
  {
    var c := d.containers[0];
    FunctionStatus(d.name, c.image, d.namespace, ReadProcess(c.env), ReadEnv(c.env), ReadSecrets(d), d.labels,
                   if d.annotations.NilPointer? then NilMap else d.annotations, ToUint64(d.replicas), d.available)
  }

  /**
   What a status tells of a deployment: the fields as they are, each variable with its last value, the replica counts,
   and a nil map where there are no annotations.
   */
  ghost predicate Summarises(d: Spec, st: FunctionStatus)
    requires d.containers != []
  {
    && st.name == d.name && st.namespace == d.namespace && st.image == d.containers[0].image && st.labels == d.labels
    && st.availableReplicas == d.available && (0 <= d.replicas ==> st.replicas == d.replicas)
    && (if d.annotations.Allocated? then st.annotations == d.annotations else st.annotations == NilMap)
    && (forall name :: VariableRead(d.containers[0].env, st.envVars, name))
  }

  ghost predicate VariableRead(env: seq<EnvVar>, vars: map<string, string>, name: string) {
    var values := Named(env, name);
    if values == [] then name !in vars else name in vars && vars[name] == values[|values| - 1].value
  }

  lemma StatusSummarises(d: Spec)
    requires Listable(d)
    ensures Summarises(d, Status(d))
  {
    forall name
      ensures VariableRead(d.containers[0].env, Status(d).envVars, name)
    {
      ReadEnvAt(d.containers[0].env, name);
    }
  }

  /** The first loop over the environment: the last value of each name. */
  method CollectEnv(env: seq<EnvVar>) returns (envVars: map<string, string>)
    ensures envVars == ReadEnv(env)
  {
    envVars := map[];
    for i := 0 to |env|
      invariant envVars == ReadEnv(env[..i])
    {
      assert env[..i + 1][..i] == env[..i];
      envVars := envVars[env[i].name := env[i].value];
    }
    assert env[..|env|] == env;
  }

  /** The second loop: the last value of the process. */
  method FindProcess(env: seq<EnvVar>) returns (process: string)
    ensures process == ReadProcess(env)
  {
    process := "";
    for i := 0 to |env|
      invariant process == ReadProcess(env[..i])
    {
      assert env[..i + 1][..i] == env[..i];
      if env[i].name == FPROCESS {
        process := env[i].value;
      }
    }
    assert env[..|env|] == env;
  }

  method AsFunctionStatus(item: Deployment) returns (status: FunctionStatus)
    requires Listable(item.spec)
    ensures status == Status(item.spec) && Summarises(item.spec, status)
  {
    StatusSummarises(item.spec);
    var envVars := CollectEnv(item.spec.containers[0].env);
    var secrets := item.ReadFunctionSecretsSpec();
    var process := FindProcess(item.spec.containers[0].env);
    var annotations := item.spec.annotations;
    if annotations.NilPointer? {
      annotations := NilMap;
    }
    status := FunctionStatus(item.spec.name, item.spec.containers[0].image, item.spec.namespace, process, envVars,
                             secrets, item.spec.labels, annotations, ToUint64(item.spec.replicas), item.spec.available);
  }

  // ---------- deployment ----------

  /** The request that copies a function: everything its status tells. */
  function AsRequest(st: FunctionStatus): FunctionDeployment {
    FunctionDeployment(st.name, st.image, st.namespace, st.envProcess, st.envVars, st.secrets, Some(st.labels),
                       st.annotations, false)
  }

  const INITIAL_REPLICAS := 1

  /**
   What making a function meets besides the request: the namespace the caller works in, the cluster's secrets,
   the checks by other parts, and whether the licence has room for one more function.
   */
  datatype Site = Site(namespace: string, existing: map<string, Secret>, imageOk: bool, resourcesOk: bool,
                       roomLeft: bool)

  /** An error is answered, or the process writes to a nil map and ends. */
  datatype Mishap = Refusal | Crash

  /** A new deployment before its volumes are configured. */
  function Blank(req: FunctionDeployment, env: seq<EnvVar>, annotations: map<string, string>, namespace: string): Spec {
    Spec(req.service, namespace, [], [], [Container(req.image, env, [], Some(req.readOnlyRoot))],
         map[FUNCTION_LABEL := req.service] + RequestLabels(req), Allocated(annotations),
         Replicas(req, INITIAL_REPLICAS), 0)
  }

  /** The specification made for a request, or what stopped it first. */
  function Specified(req: FunctionDeployment, env: seq<EnvVar>, site: Site): Result<Spec, Mishap> {
    if !AllExist(req.secrets, site.existing) || !site.imageOk || !site.resourcesOk then Err(Refusal)
    else
      var annotations := BuildAnnotations(req.annotations);
      if annotations == Err(NilMapWrite) then Err(Crash)
      else if annotations.Err? then Err(Refusal)
      else Ok(Secured(ReadOnlyRoot(Blank(req, env, annotations.value, site.namespace), req.readOnlyRoot), req, site.existing).0)
  }

  /** The deployment made for a request, or what stopped it first. */
  function Made(req: FunctionDeployment, env: seq<EnvVar>, site: Site): Result<Spec, Mishap> {
    var spec := Specified(req, env, site);
    if spec.Ok? && !site.roomLeft then Err(Refusal) else spec
  }

  method MakeDeploymentSpec(req: FunctionDeployment, site: Site) returns (r: Result<Spec, Mishap>, env: seq<EnvVar>)
    requires AllExist(req.secrets, site.existing) && site.imageOk
    ensures BuiltFrom(env, req.envProcess, req.envVars)
    ensures r == Specified(req, env, site)
  {
    env := BuildEnvVars(req.envProcess, req.envVars);
    var replicas := INITIAL_REPLICAS;
    var labels := map[FUNCTION_LABEL := req.service];
    if req.labels.Some? {
      var min := MinReplicas(req.labels.value);
      if min.Some? {
        replicas := min.value;
      }
      labels := labels + req.labels.value;
    } else {
      assert labels + map[] == labels;
    }
    if !site.resourcesOk {
      return Err(Refusal), env;
    }
    var annotations := BuildAnnotations(req.annotations);
    if annotations.Err? {
      return Err(if annotations.error == NilMapWrite then Crash else Refusal), env;
    }
    var deployment := new Deployment(
      Spec(req.service, site.namespace, [], [], [Container(req.image, env, [], Some(req.readOnlyRoot))],
           labels, Allocated(annotations.value), replicas, 0));
    deployment.ConfigureReadOnlyRootFilesystem(req);
    var ok := deployment.ConfigureSecrets(req, site.existing);
    return Ok(deployment.spec), env;
  }

  /** Fetch the secrets, check the image, make the specification, count the functions. */
  method MakeFunction(req: FunctionDeployment, site: Site) returns (r: Result<Spec, Mishap>, env: seq<EnvVar>)
    ensures BuiltFrom(env, req.envProcess, req.envVars)
    ensures r == Made(req, env, site)
  {
    if !AllExist(req.secrets, site.existing) || !site.imageOk {
      env := BuildEnvVars(req.envProcess, req.envVars);
      return Err(Refusal), env;
    }
    r, env := MakeDeploymentSpec(req, site);
    if r.Ok? && !site.roomLeft {
      r := Err(Refusal);
    }
  }

  /** What the deploy handler makes of a request. */
  function Deployed(req: FunctionDeployment, env: seq<EnvVar>, site: Site): Result<Spec, Mishap> {
    if !LabelsAllowed(RequestLabels(req)) || req.namespace !in {"", site.namespace} then Err(Refusal)
    else Made(req, env, site)
  }

  /** The deploy handler: check labels and namespace, then make the function. */
  method DeployFunction(req: FunctionDeployment, site: Site) returns (r: Result<Spec, Mishap>, env: seq<EnvVar>)
    ensures BuiltFrom(env, req.envProcess, req.envVars)
    ensures r == Deployed(req, env, site)
  {
    var labels := if req.labels.Some? then req.labels.value else map[];
    var namespace := if |req.namespace| > 0 then req.namespace else site.namespace;
    if !LabelsAllowed(labels) || namespace != site.namespace {
      env := BuildEnvVars(req.envProcess, req.envVars);
      return Err(Refusal), env;
    }
    r, env := MakeFunction(req, site);
  }

  /** Labels of the paid edition, or a replica limit above ten. */
  ghost predicate LabelsRefused(labels: map<string, string>) {
    || ("com.openfaas.scale.zero" in labels && labels["com.openfaas.scale.zero"] == "true")
    || "com.openfaas.scale.zero-duration" in labels || "com.openfaas.scale.target" in labels
    || "com.openfaas.scale.type" in labels
    || AboveTen(labels, "com.openfaas.scale.min") || AboveTen(labels, "com.openfaas.scale.max")
  }

  predicate AboveTen(labels: map<string, string>, key: string) {
    key in labels && Atoi(labels[key]).Some? && 10 < Atoi(labels[key]).value
  }

  /** When the deploy handler makes a deployment, and that it is then in the handler's own namespace. */
  lemma DeployAcceptsIff(req: FunctionDeployment, env: seq<EnvVar>, site: Site)
    ensures Deployed(req, env, site).Ok? <==>
            && !LabelsRefused(RequestLabels(req))
            && (req.namespace == "" || req.namespace == site.namespace)
            && (forall i :: 0 <= i < |req.secrets| ==> req.secrets[i] in site.existing)
            && site.imageOk && site.resourcesOk && site.roomLeft
            && !req.annotations.NilMap? && !Forbidden(Entries(req.annotations))
    ensures Deployed(req, env, site).Ok? ==>
              Deployed(req, env, site) == Made(req, env, site) &&
              Deployed(req, env, site).value.namespace == site.namespace
  {
    AnnotationsOutcome(req.annotations);
  }

  /** A new deployment is arranged like one that has just been updated, with nothing else in it. */
  lemma CreateArranges(req: FunctionDeployment, env: seq<EnvVar>, site: Site)
    requires Made(req, env, site).Ok?
    ensures Arranged(Made(req, env, site).value, req.service, [], [],
                     req.readOnlyRoot, Projections(req.secrets, site.existing))
  {
    RearrangeOnce([], TempVolumes(req.readOnlyRoot), VolumeName, req.service);
    RearrangeOnce([], TempMounts(req.readOnlyRoot), MountName, req.service);
    assert Rest<Volume>([], VolumeName, req.service) == [];
    assert Rest<VolumeMount>([], MountName, req.service) == [];
  }

  /** What making a deployment keeps of the request. */
  lemma MadeFields(req: FunctionDeployment, env: seq<EnvVar>, site: Site)
    requires Made(req, env, site).Ok?
    ensures var d := Made(req, env, site).value;
            && d.name == req.service && d.namespace == site.namespace && |d.containers| == 1
            && d.containers[0].image == req.image && d.containers[0].env == env
            && d.containers[0].readOnlyRoot == Some(req.readOnlyRoot)
            && d.labels == map[FUNCTION_LABEL := req.service] + RequestLabels(req)
            && d.replicas == Replicas(req, 1) && d.available == 0
            && BuildAnnotations(req.annotations).Ok?
            && d.annotations == Allocated(BuildAnnotations(req.annotations).value)
  {
  }

  lemma MadeSecrets(req: FunctionDeployment, env: seq<EnvVar>, site: Site)
    requires Made(req, env, site).Ok?
    ensures Listable(Made(req, env, site).value)
    ensures ReadSecrets(Made(req, env, site).value) == SortStrings(req.secrets)
  {
    var blank := ReadOnlyRoot(Blank(req, env, BuildAnnotations(req.annotations).value, site.namespace), req.readOnlyRoot);
    ReadInvertsConfigure(blank, req, site.existing);
    assert blank.pullSecrets + req.secrets == req.secrets;
  }

  /** The status of a new deployment, from the request alone. */
  lemma MadeStatus(req: FunctionDeployment, env: seq<EnvVar>, site: Site)
    requires Made(req, env, site).Ok?
    ensures BuildAnnotations(req.annotations).Ok?
    ensures var d := Made(req, env, site).value;
            && Listable(d)
            && var st := Status(d);
               && st.name == req.service && st.image == req.image && st.namespace == site.namespace
               && st.envProcess == ReadProcess(env) && st.envVars == ReadEnv(env)
               && st.secrets == SortStrings(req.secrets)
               && st.labels == map[FUNCTION_LABEL := req.service] + RequestLabels(req)
               && st.annotations == Allocated(BuildAnnotations(req.annotations).value)
               && st.replicas == ToUint64(Replicas(req, 1)) && st.availableReplicas == 0
  {
    MadeFields(req, env, site);
    MadeSecrets(req, env, site);
  }

  /** What every status has: sorted secrets, its process among its variables, a map of annotations. */
  ghost predicate Normal(st: FunctionStatus) {
    && SortStrings(st.secrets) == st.secrets
    && st.envProcess == (if FPROCESS in st.envVars then st.envVars[FPROCESS] else "")
    && !st.annotations.NilPointer?
  }

  lemma StatusIsNormal(d: Spec)
    requires Listable(d)
    ensures Normal(Status(d))
  {
    SortedUnique(SortStrings(ReadSecrets(d)), ReadSecrets(d));
    ReadProcessAt(d.containers[0].env);
  }

  /** The environment survives, although the process may be listed twice. */
  lemma EnvSurvives(st: FunctionStatus, env: seq<EnvVar>)
    requires BuiltFrom(env, st.envProcess, st.envVars) && Normal(st)
    ensures ReadEnv(env) == st.envVars && ReadProcess(env) == st.envProcess
  {
    ReadBuiltEnv(env, st.envProcess, st.envVars);
    ProcessIsListed(st.envProcess, st.envVars);
  }

  lemma ProcessIsListed(process: string, vars: map<string, string>)
    requires process == if FPROCESS in vars then vars[FPROCESS] else ""
    ensures (if process != "" then map[FPROCESS := process] else map[]) + vars == vars
  {
  }

  /** Every entry is kept, and `key` is there too; so nothing changed exactly if it was there before. */
  ghost predicate Extends(before: map<string, string>, after: map<string, string>, key: string) {
    && after.Keys == before.Keys + {key}
    && (forall k :: k in before ==> after[k] == before[k])
    && (after == before <==> key in before)
  }

  /** The identity that copying promises, with the exact conditions for namespace, labels and annotations. */
  ghost predicate Copies(before: FunctionStatus, after: FunctionStatus, namespace: string) {
    && after.name == before.name && after.image == before.image
    && (after.namespace == before.namespace <==> before.namespace == namespace)
    && after.envVars == before.envVars && after.envProcess == before.envProcess
    && after.secrets == before.secrets
    && Extends(before.labels, after.labels, FUNCTION_LABEL)
    && after.annotations.Allocated? && Extends(Entries(before.annotations), Entries(after.annotations), SCRAPE)
    && (after.annotations == before.annotations <==> SCRAPE in Entries(before.annotations))
    && after.replicas == ToUint64(Replicas(AsRequest(before), 1)) && after.availableReplicas == 0
    && (MIN_LABEL !in before.labels ==> after.replicas == 1)
  }

  lemma LabelsSurvive(labels: map<string, string>, service: string)
    ensures Extends(labels, map[FUNCTION_LABEL := service] + labels, FUNCTION_LABEL)
  {
    assert FUNCTION_LABEL in map[FUNCTION_LABEL := service] + labels;
  }

  lemma AnnotationsSurvive(p: MapPointer)
    requires BuildAnnotations(p).Ok? && !p.NilPointer?
    ensures var built := BuildAnnotations(p).value;
            && Extends(Entries(p), built, SCRAPE)
            && (Allocated(built) == p <==> SCRAPE in Entries(p))
  {
    AnnotationsUnchangedIff(p);
  }

  lemma CopyOfNormal(st: FunctionStatus, env: seq<EnvVar>, site: Site, copy: Spec)
    requires Normal(st) && BuiltFrom(env, st.envProcess, st.envVars)
    requires Made(AsRequest(st), env, site) == Ok(copy)
    ensures Listable(copy)
    ensures Copies(st, Status(copy), site.namespace)
  {
    MadeStatus(AsRequest(st), env, site);
    EnvSurvives(st, env);
    LabelsSurvive(st.labels, st.name);
    AnnotationsSurvive(st.annotations);
  }

  /**
   Status, redeployment, status: name, image, environment, process and secrets always come back as they were; the
   namespace does exactly when the copying peer works in it, the labels exactly when they named the function, and the
   annotations exactly when they had the default scrape annotation. The replica count does not: it is the labels'
   minimum, or one, and none is available yet. Nor does a read-only root file system, which a status does not carry.
   */
  lemma RedeployRoundTrip(item: Spec, env: seq<EnvVar>, site: Site, copy: Spec)
    requires Listable(item)
    requires BuiltFrom(env, Status(item).envProcess, Status(item).envVars)
    requires Made(AsRequest(Status(item)), env, site) == Ok(copy)
    ensures Listable(copy)
    ensures Copies(Status(item), Status(copy), site.namespace)
    ensures copy.containers[0].readOnlyRoot == Some(false)
  {
    MadeFields(AsRequest(Status(item)), env, site);
    StatusIsNormal(item);
    CopyOfNormal(Status(item), env, site, copy);
  }

  // ---------- when copying fails ----------

  /**
   Copying a function ends the process exactly if its annotations are a nil map and nothing was refused before
   that; it is refused exactly for a missing secret, a failed check, forbidden annotations, or one function too many.
   */
  lemma CopyOutcome(st: FunctionStatus, env: seq<EnvVar>, site: Site)
    ensures var allowed := AllExist(st.secrets, site.existing) && site.imageOk && site.resourcesOk;
            && (Made(AsRequest(st), env, site) == Err(Crash) <==> allowed && st.annotations.NilMap?)
            && (Made(AsRequest(st), env, site) == Err(Refusal) <==>
                !allowed || Forbidden(Entries(st.annotations)) || (!site.roomLeft && !st.annotations.NilMap?))
  {
    AnnotationsOutcome(st.annotations);
  }

  /** A status as another peer has it, after JSON. */
  function Received(st: FunctionStatus): FunctionStatus {
    st.(annotations := ThroughJson(st.annotations))
  }

  /**
   For a deployment in a cluster: the crash is exactly for a template without an annotation map, copied by the
   peer whose own cluster it is in.
   */
  lemma CopyCrashesIff(item: Spec, env: seq<EnvVar>, site: Site, own: bool)
    requires Listable(item)
    requires AllExist(Status(item).secrets, site.existing) && site.imageOk && site.resourcesOk
    ensures var st := if own then Status(item) else Received(Status(item));
            Made(AsRequest(st), env, site) == Err(Crash) <==> own && !item.annotations.Allocated?
  {
    CopyOutcome(Status(item), env, site);
    CopyOutcome(Received(Status(item)), env, site);
  }

  // ---------- copying again, and the replica count of a copy ----------

  /** The catalog's entry after a copy was made from it: the scrape annotation is added to its own map. */
  function AfterCopy(st: FunctionStatus): FunctionStatus {
    st.(annotations := WrittenBack(st.annotations))
  }

  /** So from then on a copy has exactly the entry's annotations, and the entry does not change again. */
  lemma SecondCopyIsIdentity(st: FunctionStatus, env: seq<EnvVar>, site: Site)
    requires st.annotations.Allocated? && Made(AsRequest(st), env, site).Ok?
    ensures Made(AsRequest(AfterCopy(st)), env, site) == Made(AsRequest(st), env, site)
    ensures Made(AsRequest(st), env, site).value.annotations == AfterCopy(st).annotations
    ensures AfterCopy(AfterCopy(st)) == AfterCopy(st)
  {
    AnnotationsSecondTime(st.annotations);
  }

  /** A copy skips the label check, so its count is the label's number converted to 32 bits, or one. */
  lemma CopyReplicasByLabel(st: FunctionStatus, env: seq<EnvVar>, site: Site, n: nat)
    requires Made(AsRequest(st), env, site).Ok?
    requires MIN_LABEL in st.labels && st.labels[MIN_LABEL] == Decimal(n)
    ensures Made(AsRequest(st), env, site).value.replicas == if 0 < n < INT64_LIMIT then ToInt32(n) else INITIAL_REPLICAS
  {
    MinReplicasOfLabel(st.labels, n);
  }

  /** A label of 2^32, which the handlers refuse, makes a copy with no replica at all. */
  lemma CopyCanHaveNoReplica(st: FunctionStatus, env: seq<EnvVar>, site: Site)
    requires Made(AsRequest(st), env, site).Ok?
    requires MIN_LABEL in st.labels && st.labels[MIN_LABEL] == Decimal(INT32_MODULUS)
    ensures Made(AsRequest(st), env, site).value.replicas == 0
    ensures Deployed(AsRequest(st), env, site) == Err(Refusal)
  {
    MinReplicasWraps(st.labels);
    AllowedNumbers(st.labels, INT32_MODULUS);
  }

  // ---------- whole lives, from creation on ----------

  /** A deployment made for a request and then updated any number of times. */
  ghost predicate CreatedLife(trace: seq<Spec>, attempts: seq<Attempt>, req: FunctionDeployment, env: seq<EnvVar>,
                              site: Site) {
    Life(trace, attempts) && Made(req, env, site) == Ok(trace[0])
  }

  /** The last request that took effect before `i`, creation included, and the secrets it found. */
  function LastRequest(req: FunctionDeployment, existing: map<string, Secret>, attempts: seq<Attempt>, i: nat)
    : (FunctionDeployment, map<string, Secret>)
    requires i <= |attempts|
  {
    var last := LastSuccess(attempts, i);
    if last.None? then (req, existing) else (attempts[last.value].req, attempts[last.value].existing)
  }

  lemma NoRest<T>(temp: seq<T>, sec: seq<T>, nameOf: T -> string, service: string)
    requires |temp| <= 1 && (temp != [] ==> nameOf(temp[0]) == TEMP)
    requires |sec| <= 1 && (sec != [] ==> nameOf(sec[0]) == SecretsVolume(service))
    ensures Rest([] + temp + sec, nameOf, service) == []
  {
    assert Rest([], nameOf, service) == [];
    RestOfArranged([], temp, sec, nameOf, service);
  }

  lemma ArrangedHasNoRest(d: Spec, service: string, readOnly: bool, projections: seq<Projection>)
    requires Arranged(d, service, [], [], readOnly, projections)
    ensures Rest(d.volumes, VolumeName, service) == []
    ensures Rest(d.containers[0].mounts, MountName, service) == []
  {
    NoRest(TempVolumes(readOnly), SecretVolumes(service, projections), VolumeName, service);
    NoRest(TempMounts(readOnly), SecretMounts(service, projections), MountName, service);
  }

  lemma CreatedRest(req: FunctionDeployment, env: seq<EnvVar>, site: Site)
    requires Made(req, env, site).Ok?
    ensures var d := Made(req, env, site).value;
            && |d.containers| == 1 && d.name == req.service
            && Rest(d.volumes, VolumeName, req.service) == []
            && Rest(d.containers[0].mounts, MountName, req.service) == []
  {
    CreateArranges(req, env, site);
    MadeFields(req, env, site);
    ArrangedHasNoRest(Made(req, env, site).value, req.service, req.readOnlyRoot, Projections(req.secrets, site.existing));
  }

  /**
   Over the whole life of a deployment, from its creation and through updates that succeed or fail, its volumes and
   mounts are exactly those the last request in effect asks for, in this order.
   */
  lemma CreatedLifeArranged(trace: seq<Spec>, attempts: seq<Attempt>, req: FunctionDeployment, env: seq<EnvVar>,
                            site: Site, i: nat)
    requires CreatedLife(trace, attempts, req, env, site) && i < |trace|
    ensures var (last, existing) := LastRequest(req, site.existing, attempts, i);
            Arranged(trace[i], req.service, [], [], last.readOnlyRoot, Projections(last.secrets, existing))
  {
    CreatedRest(req, env, site);
    LifeArranged(trace, attempts, i);
    if LastSuccess(attempts, i).None? {
      CreateArranges(req, env, site);
    }
  }

  lemma ArrangedCounts(d: Spec, service: string, readOnly: bool, projections: seq<Projection>)
    requires Arranged(d, service, [], [], readOnly, projections)
    ensures var ro, sec := if readOnly then 1 else 0, if projections != [] then 1 else 0;
            && CountNamed(d.volumes, VolumeName, TEMP) == CountNamed(d.containers[0].mounts, MountName, TEMP) == ro
            && CountNamed(d.volumes, VolumeName, SecretsVolume(service)) ==
               CountNamed(d.containers[0].mounts, MountName, SecretsVolume(service)) == sec
            && |d.volumes| == |d.containers[0].mounts| == ro + sec
  {
    assert Rest<Volume>([], VolumeName, service) == [];
    assert Rest<VolumeMount>([], MountName, service) == [];
    CountArranged([], TempVolumes(readOnly), SecretVolumes(service, projections), VolumeName, service);
    CountArranged([], TempMounts(readOnly), SecretMounts(service, projections), MountName, service);
  }

  /** So there is one temporary volume and mount exactly if that request is read-only, likewise for secrets. */
  lemma CreatedLifeCounts(trace: seq<Spec>, attempts: seq<Attempt>, req: FunctionDeployment, env: seq<EnvVar>,
                          site: Site, i: nat)
    requires CreatedLife(trace, attempts, req, env, site) && i < |trace|
    ensures |trace[i].containers| == 1
    ensures var (last, existing) := LastRequest(req, site.existing, attempts, i);
            var ro := if last.readOnlyRoot then 1 else 0;
            var sec := if Projections(last.secrets, existing) != [] then 1 else 0;
            var volumes, mounts := trace[i].volumes, trace[i].containers[0].mounts;
            && CountNamed(volumes, VolumeName, TEMP) == CountNamed(mounts, MountName, TEMP) == ro
            && CountNamed(volumes, VolumeName, SecretsVolume(req.service)) ==
               CountNamed(mounts, MountName, SecretsVolume(req.service)) == sec
            && |volumes| == |mounts| == ro + sec
  {
    var (last, existing) := LastRequest(req, site.existing, attempts, i);
    CreatedLifeArranged(trace, attempts, req, env, site, i);
    ArrangedCounts(trace[i], req.service, last.readOnlyRoot, Projections(last.secrets, existing));
  }

  /** And every mount resolves, always. */
  lemma CreatedLifeResolves(trace: seq<Spec>, attempts: seq<Attempt>, req: FunctionDeployment, env: seq<EnvVar>,
                            site: Site, i: nat)
    requires CreatedLife(trace, attempts, req, env, site) && i < |trace|
    ensures |trace[i].containers| == 1 && Resolves(trace[i].containers[0].mounts, trace[i].volumes)
  {
    var (last, existing) := LastRequest(req, site.existing, attempts, i);
    CreatedLifeArranged(trace, attempts, req, env, site, i);
    ArrangedResolves([], [], req.service, last.readOnlyRoot, Projections(last.secrets, existing));
  }

  /** A deployment that was made and updated here never makes a copy crash. */
  lemma {:induction false} CreatedLifeCopies(trace: seq<Spec>, attempts: seq<Attempt>, req: FunctionDeployment,
                                             env: seq<EnvVar>, site: Site, i: nat)
    requires CreatedLife(trace, attempts, req, env, site) && i < |trace|
    ensures trace[i].annotations.Allocated?
  {
    if i == 0 {
    } else {
      CreatedLifeCopies(trace, attempts, req, env, site, i - 1);
    }
  }

  /** A deployment made by the deploy handler asks for one to the licensed number of replicas, always. */
  lemma {:induction false} DeployedLifeReplicas(trace: seq<Spec>, attempts: seq<Attempt>, req: FunctionDeployment,
                                                env: seq<EnvVar>, site: Site, i: nat)
    requires Life(trace, attempts) && Deployed(req, env, site) == Ok(trace[0]) && i < |trace|
    ensures 1 <= trace[i].replicas <= MAX_REPLICAS
  {
    if i == 0 {
      MadeFields(req, env, site);
      if MinReplicas(RequestLabels(req)).Some? {
        AllowedMinimum(RequestLabels(req));
      }
    } else {
      DeployedLifeReplicas(trace, attempts, req, env, site, i - 1);
      assert LifeStep(trace[0].name, trace[i - 1], attempts[i - 1], trace[i]);
      UpdateReplicasWithin(trace[i - 1], attempts[i - 1]);
    }
  }
}
