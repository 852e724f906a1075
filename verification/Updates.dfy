/** A deployment over its whole life: created once, then updated any number of times. */
module Updates {
  import opened FaasTypes
  import opened Sorting
  import opened Volumes
  import opened Deployments
  import opened Builders

  const FUNCTION_LABEL := "faas_function"
  const UID_LABEL := "uid"

  /** Everything an update meets besides the request: the clock, the cluster's secrets, the checks by other parts. */
  datatype Attempt = Attempt(req: FunctionDeployment, uid: string, env: seq<EnvVar>, existing: map<string, Secret>,
                             checksPass: bool)

  function RequestLabels(req: FunctionDeployment): map<string, string> {
    if req.labels.Some? then req.labels.value else map[]
  }

  /** The replica count the request's labels ask for, or else `otherwise`. */
  function Replicas(req: FunctionDeployment, otherwise: int): int {
    var min := MinReplicas(RequestLabels(req));
    if min.Some? then min.value else otherwise
  }

  /** The fields written before the secrets. */
  function Rewritten(d: Spec, a: Attempt): Spec
    requires d.containers != [] && BuildAnnotations(a.req.annotations).Ok?
  {
    var c := d.containers[0].(image := a.req.image, env := a.env);
    var rooted := ReadOnlyRoot(d.(containers := [c] + d.containers[1..]), a.req.readOnlyRoot);
    rooted.(labels := map[FUNCTION_LABEL := a.req.service, UID_LABEL := a.uid] + RequestLabels(a.req),
            annotations := Allocated(BuildAnnotations(a.req.annotations).value), replicas := Replicas(a.req, d.replicas))
  }

  /** What the handler checks before it fetches the deployment. */
  predicate Admitted(req: FunctionDeployment) {
    LabelsAllowed(RequestLabels(req)) && BuildAnnotations(req.annotations).Ok?
  }

  predicate Succeeds(a: Attempt) {
    Admitted(a.req) && a.checksPass && AllExist(a.req.secrets, a.existing)
  }

  /** The stored deployment after an update; a failed one is not written back. */
  function Updated(d: Spec, a: Attempt): Spec {
    if !Succeeds(a) then d
    else if d.containers == [] then d
    else Secured(Rewritten(d, a), a.req, a.existing).0
  }

  /** The fields written before the secrets, one after the other. */
  method RewriteFields(deployment: Deployment, a: Attempt, annotations: map<string, string>)
    requires deployment.spec.containers != [] && BuildAnnotations(a.req.annotations) == Ok(annotations)
    modifies deployment
    ensures deployment.spec == Rewritten(old(deployment.spec), a)
  {
    var c := deployment.spec.containers[0].(image := a.req.image, env := a.env);
    deployment.spec := deployment.spec.(containers := [c] + deployment.spec.containers[1..]);
    deployment.ConfigureReadOnlyRootFilesystem(a.req);
    var labels := map[FUNCTION_LABEL := a.req.service, UID_LABEL := a.uid];
    if a.req.labels.Some? {
      var min := MinReplicas(a.req.labels.value);
      if min.Some? {
        deployment.spec := deployment.spec.(replicas := min.value);
      }
      labels := labels + a.req.labels.value;
    } else {
      assert labels + map[] == labels;
    }
    deployment.spec := deployment.spec.(labels := labels, annotations := Allocated(annotations));
  }

  /** Fetch the deployment, rewrite it field by field, write it back if nothing failed on the way. */
  method UpdateDeploymentSpec(stored: Deployment, req: FunctionDeployment, uid: string,
                              annotations: map<string, string>, existing: map<string, Secret>, checksPass: bool)
    returns (env: seq<EnvVar>)
    requires LabelsAllowed(RequestLabels(req)) && BuildAnnotations(req.annotations) == Ok(annotations)
    modifies stored
    ensures BuiltFrom(env, req.envProcess, req.envVars)
    ensures stored.spec == Updated(old(stored.spec), Attempt(req, uid, env, existing, checksPass))
  {
    var deployment := new Deployment(stored.spec);
    env := BuildEnvVars(req.envProcess, req.envVars);
    if |deployment.spec.containers| > 0 {
      RewriteFields(deployment, Attempt(req, uid, env, existing, checksPass), annotations);
      var ok := deployment.ConfigureSecrets(req, existing);
      if !ok || !checksPass {
        return;
      }
    }
    stored.spec := deployment.spec;
  }

  /** The update handler: check the labels, build the annotations, then update. */
  method UpdateFunction(stored: Deployment, req: FunctionDeployment, uid: string, existing: map<string, Secret>,
                        checksPass: bool)
    returns (env: seq<EnvVar>)
    modifies stored
    ensures BuiltFrom(env, req.envProcess, req.envVars)
    ensures stored.spec == Updated(old(stored.spec), Attempt(req, uid, env, existing, checksPass))
  {
    var labels := if req.labels.Some? then req.labels.value else map[];
    var annotations := BuildAnnotations(req.annotations);
    if !LabelsAllowed(labels) || annotations.Err? {
      env := BuildEnvVars(req.envProcess, req.envVars);
      return;
    }
    env := UpdateDeploymentSpec(stored, req, uid, annotations.value, existing, checksPass);
  }

  // ---------- what one update leaves ----------

  /** The items that belong to neither the temporary directory nor the secrets. */
  function Rest<T>(s: seq<T>, nameOf: T -> string, service: string): seq<T> {
    Without(Without(s, nameOf, TEMP), nameOf, SecretsVolume(service))
  }

  /** Exactly one temporary volume and mount if asked for, one secrets volume and mount if needed, the rest as it was. */
  ghost predicate Arranged(d: Spec, service: string, volumes: seq<Volume>, mounts: seq<VolumeMount>,
                           readOnly: bool, projections: seq<Projection>) {
    && |d.containers| == 1
    && d.volumes == volumes + TempVolumes(readOnly) + SecretVolumes(service, projections)
    && d.containers[0].mounts == mounts + TempMounts(readOnly) + SecretMounts(service, projections)
  }

  lemma SecretsVolumeIsNotTemp(service: string)
    ensures SecretsVolume(service) != TEMP
  {
    assert |SecretsVolume(service)| >= |SECRETS_SUFFIX| > |TEMP|;
  }

  /** Filtering, adding the temporary item, and filtering again is filtering twice and adding it. */
  lemma RearrangeOnce<T>(s: seq<T>, temp: seq<T>, nameOf: T -> string, service: string)
    requires |temp| <= 1 && (temp != [] ==> nameOf(temp[0]) == TEMP)
    ensures Without(Without(s, nameOf, TEMP) + temp, nameOf, SecretsVolume(service)) == Rest(s, nameOf, service) + temp
  {
    SecretsVolumeIsNotTemp(service);
    WithoutConcat(Without(s, nameOf, TEMP), temp, nameOf, SecretsVolume(service));
    WithoutFew(temp, nameOf, SecretsVolume(service));
  }

  /** A successful update of a single-container deployment leaves it arranged. */
  lemma UpdateArranges(d: Spec, a: Attempt)
    requires |d.containers| == 1 && Succeeds(a)
    ensures Arranged(Updated(d, a), a.req.service,
                     Rest(d.volumes, VolumeName, a.req.service), Rest(d.containers[0].mounts, MountName, a.req.service),
                     a.req.readOnlyRoot, Projections(a.req.secrets, a.existing))
    ensures Updated(d, a).name == d.name
  {
    RearrangeOnce(d.volumes, TempVolumes(a.req.readOnlyRoot), VolumeName, a.req.service);
    RearrangeOnce(d.containers[0].mounts, TempMounts(a.req.readOnlyRoot), MountName, a.req.service);
  }

  lemma RestTwice<T>(s: seq<T>, nameOf: T -> string, service: string)
    ensures Rest(Rest(s, nameOf, service), nameOf, service) == Rest(s, nameOf, service)
  {
    var vol := SecretsVolume(service);
    var once := Without(s, nameOf, TEMP);
    WithoutCommutes(once, nameOf, vol, TEMP);
    WithoutTwice(s, nameOf, TEMP);
    WithoutTwice(once, nameOf, vol);
  }

  /** Adding the items again does not change the rest. */
  lemma RestOfArranged<T>(s: seq<T>, temp: seq<T>, sec: seq<T>, nameOf: T -> string, service: string)
    requires |temp| <= 1 && (temp != [] ==> nameOf(temp[0]) == TEMP)
    requires |sec| <= 1 && (sec != [] ==> nameOf(sec[0]) == SecretsVolume(service))
    ensures Rest(Rest(s, nameOf, service) + temp + sec, nameOf, service) == Rest(s, nameOf, service)
  {
    var vol, r := SecretsVolume(service), Rest(s, nameOf, service);
    SecretsVolumeIsNotTemp(service);
    WithoutConcat(r + temp, sec, nameOf, TEMP);
    WithoutConcat(r, temp, nameOf, TEMP);
    WithoutFew(temp, nameOf, TEMP);
    WithoutFew(sec, nameOf, TEMP);
    assert Without(r, nameOf, TEMP) + [] == Without(r, nameOf, TEMP);
    assert Without(r + temp + sec, nameOf, TEMP) == Without(r, nameOf, TEMP) + sec;
    WithoutConcat(Without(r, nameOf, TEMP), sec, nameOf, vol);
    WithoutFew(sec, nameOf, vol);
    assert Rest(r, nameOf, service) + [] == Rest(r, nameOf, service);
    RestTwice(s, nameOf, service);
  }

  // ---------- whole lives ----------

  /** One update, fetched by the deployment's own name. */
  ghost predicate LifeStep(name: string, before: Spec, a: Attempt, after: Spec) {
    a.req.service == name && after == Updated(before, a)
  }

  /** Updates to one deployment. */
  ghost predicate Life(trace: seq<Spec>, attempts: seq<Attempt>) {
    && |trace| == |attempts| + 1
    && |trace[0].containers| == 1
    && forall i :: 0 <= i < |attempts| ==> LifeStep(trace[0].name, trace[i], attempts[i], trace[i + 1])
  }

  /** The last successful attempt before `i`, if any. */
  function LastSuccess(attempts: seq<Attempt>, i: nat): (r: Option<nat>)
    requires i <= |attempts|
    ensures r.Some? ==> r.value < i && Succeeds(attempts[r.value]) && forall k :: r.value < k < i ==> !Succeeds(attempts[k])
    ensures r.None? ==> forall k :: 0 <= k < i ==> !Succeeds(attempts[k])
  {
    if i == 0 then None
    else if Succeeds(attempts[i - 1]) then Some(i - 1)
    else LastSuccess(attempts, i - 1)
  }

  /** Until an update succeeds the deployment is as it was. */
  lemma {:induction false} LifeUnchanged(trace: seq<Spec>, attempts: seq<Attempt>, i: nat)
    requires Life(trace, attempts) && i < |trace| && LastSuccess(attempts, i).None?
    ensures trace[i] == trace[0]
  {
    if i == 0 {
    } else {
      LifeUnchanged(trace, attempts, i - 1);
      assert !Succeeds(attempts[i - 1]);
    }
  }

  /** What is neither temporary nor secret never changes, and the name stays. */
  lemma {:induction false} LifeKeepsRest(trace: seq<Spec>, attempts: seq<Attempt>, i: nat)
    requires Life(trace, attempts) && i < |trace|
    ensures |trace[i].containers| == 1 && trace[i].name == trace[0].name
    ensures Rest(trace[i].volumes, VolumeName, trace[0].name) == Rest(trace[0].volumes, VolumeName, trace[0].name)
    ensures Rest(trace[i].containers[0].mounts, MountName, trace[0].name) ==
            Rest(trace[0].containers[0].mounts, MountName, trace[0].name)
  {
    if i == 0 {
    } else {
      LifeKeepsRest(trace, attempts, i - 1);
      var d, a := trace[i - 1], attempts[i - 1];
      if Succeeds(a) {
        UpdateArranges(d, a);
        var projections := Projections(a.req.secrets, a.existing);
        RestOfArranged(d.volumes, TempVolumes(a.req.readOnlyRoot), SecretVolumes(a.req.service, projections),
                       VolumeName, a.req.service);
        RestOfArranged(d.containers[0].mounts, TempMounts(a.req.readOnlyRoot), SecretMounts(a.req.service, projections),
                       MountName, a.req.service);
      }
    }
  }

  /** Arranged as attempt `a` asks, around what was in `start`. */
  ghost predicate ArrangedBy(start: Spec, a: Attempt, d: Spec) {
    && |start.containers| == 1
    && Arranged(d, start.name, Rest(start.volumes, VolumeName, start.name),
                Rest(start.containers[0].mounts, MountName, start.name),
                a.req.readOnlyRoot, Projections(a.req.secrets, a.existing))
  }

  lemma UpdateArrangesFrom(start: Spec, d: Spec, a: Attempt)
    requires |start.containers| == 1 && |d.containers| == 1 && Succeeds(a) && a.req.service == start.name
    requires Rest(d.volumes, VolumeName, start.name) == Rest(start.volumes, VolumeName, start.name)
    requires Rest(d.containers[0].mounts, MountName, start.name) == Rest(start.containers[0].mounts, MountName, start.name)
    ensures ArrangedBy(start, a, Updated(d, a))
  {
    UpdateArranges(d, a);
  }

  lemma LifeStepArranged(trace: seq<Spec>, attempts: seq<Attempt>, i: nat)
    requires Life(trace, attempts) && 0 < i < |trace| && Succeeds(attempts[i - 1])
    ensures ArrangedBy(trace[0], attempts[i - 1], trace[i])
  {
    LifeKeepsRest(trace, attempts, i - 1);
    assert LifeStep(trace[0].name, trace[i - 1], attempts[i - 1], trace[i]);
    UpdateArrangesFrom(trace[0], trace[i - 1], attempts[i - 1]);
  }

  /** Since the last success nothing has changed. */
  lemma {:induction false} LifeSinceSuccess(trace: seq<Spec>, attempts: seq<Attempt>, i: nat, k: nat)
    requires Life(trace, attempts) && i < |trace| && LastSuccess(attempts, i) == Some(k)
    ensures trace[i] == trace[k + 1]
  {
    if k == i - 1 {
    } else {
      LifeSinceSuccess(trace, attempts, i - 1, k);
      assert LifeStep(trace[0].name, trace[i - 1], attempts[i - 1], trace[i]);
    }
  }

  /**
   After any sequence of updates the deployment is as it was if none succeeded; otherwise the volumes and mounts
   are those of the start, in their order, followed by the temporary ones if the last successful request was
   read-only and the secrets ones if it had a secret to mount.
   */
  lemma LifeArranged(trace: seq<Spec>, attempts: seq<Attempt>, i: nat)
    requires Life(trace, attempts) && i < |trace|
    ensures match LastSuccess(attempts, i)
            case None => trace[i] == trace[0]
            case Some(k) => ArrangedBy(trace[0], attempts[k], trace[i])
  {
    match LastSuccess(attempts, i)
    case None => LifeUnchanged(trace, attempts, i);
    case Some(k) =>
      LifeSinceSuccess(trace, attempts, i, k);
      LifeStepArranged(trace, attempts, k + 1);
  }

  /** The pull secrets of every successful attempt before `i`. */
  function PullsSoFar(attempts: seq<Attempt>, i: nat): seq<string>
    requires i <= |attempts|
  {
    if i == 0 then [] else
      PullsSoFar(attempts, i - 1) +
      (if Succeeds(attempts[i - 1]) then PullNames(attempts[i - 1].req.secrets, attempts[i - 1].existing) else [])
  }

  /** Registry secrets pile up: an update adds its own to those of every update before it and removes none. */
  lemma {:induction false} LifeAccumulatesPulls(trace: seq<Spec>, attempts: seq<Attempt>, i: nat)
    requires Life(trace, attempts) && i < |trace|
    ensures trace[i].pullSecrets == trace[0].pullSecrets + PullsSoFar(attempts, i)
  {
    if i == 0 {
      assert trace[0].pullSecrets + [] == trace[0].pullSecrets;
    } else {
      LifeAccumulatesPulls(trace, attempts, i - 1);
      LifeKeepsRest(trace, attempts, i - 1);
      UpdateAppendsPulls(trace[i - 1], attempts[i - 1]);
      var before := PullsSoFar(attempts, i - 1);
      assert forall x :: trace[0].pullSecrets + before + x == trace[0].pullSecrets + (before + x);
    }
  }

  lemma UpdateAppendsPulls(d: Spec, a: Attempt)
    requires d.containers != []
    ensures Updated(d, a).pullSecrets ==
            d.pullSecrets + if Succeeds(a) then PullNames(a.req.secrets, a.existing) else []
  {
    assert d.pullSecrets + [] == d.pullSecrets;
  }

  /** So what is read back after a successful update is the request exactly if no pull secret was there before it. */
  lemma UpdateReadsBackIff(d: Spec, a: Attempt)
    requires d.containers != [] && Succeeds(a) && a.req.service == d.name
    ensures Readable(Updated(d, a))
    ensures ReadSecrets(Updated(d, a)) == SortStrings(d.pullSecrets + a.req.secrets)
    ensures ReadSecrets(Updated(d, a)) == SortStrings(a.req.secrets) <==> d.pullSecrets == []
  {
    ReadInvertsConfigure(Rewritten(d, a), a.req, a.existing);
    ReadsRequestIff(Rewritten(d, a), a.req, a.existing);
  }

  lemma RewrittenFields(d: Spec, a: Attempt)
    requires d.containers != [] && Succeeds(a)
    ensures var w := Rewritten(d, a);
            && |w.containers| == |d.containers| && w.containers[1..] == d.containers[1..]
            && w.name == d.name && w.namespace == d.namespace && w.available == d.available
            && w.containers[0].image == a.req.image && w.containers[0].env == a.env
            && w.containers[0].readOnlyRoot == Some(a.req.readOnlyRoot)
            && w.annotations == Allocated(BuildAnnotations(a.req.annotations).value)
  {
  }

  lemma OnlyMountsTail(before: seq<Container>, after: seq<Container>)
    requires OnlyMounts(before, after) && before != []
    ensures OnlyMounts(before[1..], after[1..])
  {
  }

  /**
   The other fields after a successful update: image, flag, environment and annotations are the request's; name,
   namespace, available replicas and every other container stay, mounts apart.
   */
  lemma UpdateSetsFields(d: Spec, a: Attempt)
    requires d.containers != [] && Succeeds(a)
    ensures var u := Updated(d, a);
            && |u.containers| == |d.containers| && OnlyMounts(d.containers[1..], u.containers[1..])
            && u.name == d.name && u.namespace == d.namespace && u.available == d.available
            && u.containers[0].image == a.req.image && u.containers[0].env == a.env
            && u.containers[0].readOnlyRoot == Some(a.req.readOnlyRoot)
            && BuildAnnotations(a.req.annotations) == Ok(Entries(u.annotations)) && u.annotations.Allocated?
  {
    var w, u := Rewritten(d, a), Updated(d, a);
    RewrittenFields(d, a);
    SecuredLeavesRest(w, a.req, a.existing);
    assert OnlyMounts(w.containers, u.containers);
    OnlyMountsTail(w.containers, u.containers);
  }

  /** Reading the environment back gives the request's variables, with the process only where they do not name it. */
  lemma UpdateSetsEnvironment(d: Spec, a: Attempt)
    requires d.containers != [] && Succeeds(a) && BuiltFrom(a.env, a.req.envProcess, a.req.envVars)
    ensures Updated(d, a).containers != []
    ensures var env, vars := Updated(d, a).containers[0].env, a.req.envVars;
            && ReadProcess(env) == (if "fprocess" in vars then vars["fprocess"] else a.req.envProcess)
            && ReadEnv(env) == (if a.req.envProcess != "" then map["fprocess" := a.req.envProcess] else map[]) + vars
  {
    UpdateSetsFields(d, a);
    ReadBuiltEnv(a.env, a.req.envProcess, a.req.envVars);
  }

  /** The labels are the request's, with the function's name and a fresh number where the request has none. */
  lemma UpdateSetsLabels(d: Spec, a: Attempt)
    requires d.containers != [] && Succeeds(a)
    ensures var labels, asked := Updated(d, a).labels, RequestLabels(a.req);
            && labels.Keys == asked.Keys + {"faas_function", "uid"}
            && (forall k :: k in asked ==> labels[k] == asked[k])
            && ("faas_function" !in asked ==> labels["faas_function"] == a.req.service)
            && ("uid" !in asked ==> labels["uid"] == a.uid)
  {
  }

  /**
   The count an update is asked for through the label, for every number that can be written there: it is taken
   as it is if it is from one to the licensed count, and otherwise nothing changes.
   */
  lemma UpdateReplicasByLabel(d: Spec, a: Attempt, n: nat)
    requires d.containers != [] && Succeeds(a)
    requires MIN_LABEL in RequestLabels(a.req) && RequestLabels(a.req)[MIN_LABEL] == Decimal(n)
    ensures Updated(d, a).replicas == if 1 <= n <= MAX_REPLICAS then n else d.replicas
  {
    AllowedNumbers(RequestLabels(a.req), n);
  }

  /** An update leaves the count alone or sets it within the licence. */
  lemma UpdateReplicasWithin(d: Spec, a: Attempt)
    ensures Updated(d, a).replicas == d.replicas || 1 <= Updated(d, a).replicas <= MAX_REPLICAS
  {
    if Succeeds(a) && MinReplicas(RequestLabels(a.req)).Some? {
      AllowedMinimum(RequestLabels(a.req));
    }
  }

  lemma CountArranged<T>(s: seq<T>, temp: seq<T>, sec: seq<T>, nameOf: T -> string, service: string)
    requires |temp| <= 1 && (temp != [] ==> nameOf(temp[0]) == TEMP)
    requires |sec| <= 1 && (sec != [] ==> nameOf(sec[0]) == SecretsVolume(service))
    ensures CountNamed(Rest(s, nameOf, service) + temp + sec, nameOf, TEMP) == |temp|
    ensures CountNamed(Rest(s, nameOf, service) + temp + sec, nameOf, SecretsVolume(service)) == |sec|
  {
    var vol, r := SecretsVolume(service), Rest(s, nameOf, service);
    SecretsVolumeIsNotTemp(service);
    WithoutConcat(r + temp, sec, nameOf, TEMP);
    WithoutConcat(r, temp, nameOf, TEMP);
    WithoutConcat(r + temp, sec, nameOf, vol);
    WithoutConcat(r, temp, nameOf, vol);
    WithoutFew(temp, nameOf, TEMP);
    WithoutFew(sec, nameOf, TEMP);
    WithoutFew(temp, nameOf, vol);
    WithoutFew(sec, nameOf, vol);
    WithoutTwice(Without(s, nameOf, TEMP), nameOf, vol);
    WithoutCommutes(Without(s, nameOf, TEMP), nameOf, vol, TEMP);
    WithoutTwice(s, nameOf, TEMP);
  }

  /** One temporary volume and mount exactly if attempt `a` was read-only, one secrets one exactly if it mounts a secret. */
  ghost predicate CountedBy(a: Attempt, service: string, d: Spec) {
    && |d.containers| == 1
    && var ro := if a.req.readOnlyRoot then 1 else 0;
       var sec := if Projections(a.req.secrets, a.existing) != [] then 1 else 0;
       && CountNamed(d.volumes, VolumeName, TEMP) == CountNamed(d.containers[0].mounts, MountName, TEMP) == ro
       && CountNamed(d.volumes, VolumeName, SecretsVolume(service)) ==
          CountNamed(d.containers[0].mounts, MountName, SecretsVolume(service)) == sec
  }

  lemma ArrangedIsCounted(start: Spec, a: Attempt, d: Spec)
    requires ArrangedBy(start, a, d)
    ensures CountedBy(a, start.name, d)
  {
    var service, projections := start.name, Projections(a.req.secrets, a.existing);
    CountArranged(start.volumes, TempVolumes(a.req.readOnlyRoot), SecretVolumes(service, projections),
                  VolumeName, service);
    CountArranged(start.containers[0].mounts, TempMounts(a.req.readOnlyRoot), SecretMounts(service, projections),
                  MountName, service);
  }

  /** From any start: what the last success asks for is there once, or nothing has changed. */
  lemma LifeCounts(trace: seq<Spec>, attempts: seq<Attempt>, i: nat)
    requires Life(trace, attempts) && i < |trace|
    ensures match LastSuccess(attempts, i)
            case None => trace[i] == trace[0]
            case Some(k) => CountedBy(attempts[k], trace[0].name, trace[i])
  {
    LifeArranged(trace, attempts, i);
    match LastSuccess(attempts, i)
    case None =>
    case Some(k) => ArrangedIsCounted(trace[0], attempts[k], trace[i]);
  }

  /** Every mount names a volume that is there. */
  ghost predicate Resolves(mounts: seq<VolumeMount>, volumes: seq<Volume>) {
    forall i :: 0 <= i < |mounts| ==> HasVolume(volumes, mounts[i].name)
  }

  ghost predicate HasVolume(volumes: seq<Volume>, name: string) {
    exists j :: 0 <= j < |volumes| && volumes[j].name == name
  }

  lemma HasVolumeIn(v: seq<Volume>, w: seq<Volume>, name: string)
    requires HasVolume(v, name) || HasVolume(w, name)
    ensures HasVolume(v + w, name)
  {
    if j :| 0 <= j < |v| && v[j].name == name {
      assert (v + w)[j] == v[j];
    } else {
      var j :| 0 <= j < |w| && w[j].name == name;
      assert (v + w)[|v| + j] == w[j];
    }
  }

  lemma ResolvesTogether(m: seq<VolumeMount>, n: seq<VolumeMount>, v: seq<Volume>, w: seq<Volume>)
    requires Resolves(m, v) && Resolves(n, w)
    ensures Resolves(m + n, v + w)
  {
    forall i | 0 <= i < |m + n|
      ensures HasVolume(v + w, (m + n)[i].name)
    {
      assert if i < |m| then HasVolume(v, m[i].name) else HasVolume(w, n[i - |m|].name);
      HasVolumeIn(v, w, (m + n)[i].name);
    }
  }

  lemma AddedResolve(service: string, readOnly: bool, projections: seq<Projection>)
    ensures Resolves(TempMounts(readOnly), TempVolumes(readOnly))
    ensures Resolves(SecretMounts(service, projections), SecretVolumes(service, projections))
  {
    assert readOnly ==> TempVolumes(readOnly)[0].name == TEMP;
    assert projections != [] ==> SecretVolumes(service, projections)[0].name == SecretsVolume(service);
  }

  lemma ArrangedResolves(volumes: seq<Volume>, mounts: seq<VolumeMount>, service: string,
                         readOnly: bool, projections: seq<Projection>)
    requires Resolves(mounts, volumes)
    ensures Resolves(mounts + TempMounts(readOnly) + SecretMounts(service, projections),
                     volumes + TempVolumes(readOnly) + SecretVolumes(service, projections))
  {
    AddedResolve(service, readOnly, projections);
    ResolvesTogether(mounts, TempMounts(readOnly), volumes, TempVolumes(readOnly));
    ResolvesTogether(mounts + TempMounts(readOnly), SecretMounts(service, projections),
                     volumes + TempVolumes(readOnly), SecretVolumes(service, projections));
  }

  lemma ArrangedByResolves(start: Spec, a: Attempt, d: Spec)
    requires ArrangedBy(start, a, d)
    requires Resolves(Rest(start.containers[0].mounts, MountName, start.name), Rest(start.volumes, VolumeName, start.name))
    ensures Resolves(d.containers[0].mounts, d.volumes)
  {
    ArrangedResolves(Rest(start.volumes, VolumeName, start.name), Rest(start.containers[0].mounts, MountName, start.name),
                     start.name, a.req.readOnlyRoot, Projections(a.req.secrets, a.existing));
  }

  /** If the mounts of the start resolved, with and without what updates replace, every mount always resolves. */
  lemma LifeResolves(trace: seq<Spec>, attempts: seq<Attempt>, i: nat)
    requires Life(trace, attempts) && i < |trace|
    requires Resolves(trace[0].containers[0].mounts, trace[0].volumes)
    requires Resolves(Rest(trace[0].containers[0].mounts, MountName, trace[0].name),
                      Rest(trace[0].volumes, VolumeName, trace[0].name))
    ensures |trace[i].containers| == 1 && Resolves(trace[i].containers[0].mounts, trace[i].volumes)
  {
    LifeArranged(trace, attempts, i);
    match LastSuccess(attempts, i)
    case None =>
    case Some(k) => ArrangedByResolves(trace[0], attempts[k], trace[i]);
  }
}
