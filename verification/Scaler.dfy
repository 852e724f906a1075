/** Scaling one function across clusters: the request handler, `scaleUp` and `scaleDown`. */
module Scaler {
  import opened FaasTypes
  import opened MapSums
  import opened CatalogState
  import opened Ranking

  datatype DeployAnswer = Created | CreatedNoService | Refused

  /** What one cluster's API answers while a request is handled. */
  datatype Cluster = Cluster(
    nodes: nat, deploy: DeployAnswer, listOk: bool, getOk: bool, updateOk: bool, deleteOk: bool, serviceOk: bool)

  /**
   Everything a request meets: the catalog, the function, the ranking, the clusters, and the replica
   count that a fresh deployment is created with.
   */
  datatype Scene = Scene(
    c: State, f: string, sorted: seq<string>, clusters: map<string, Cluster>, initial: nat)

  /** The replica count in each cluster's deployment object; a missing key is a missing deployment. */
  type Deployed = map<string, int>

  function At(deployed: Deployed, p: string): int {
    if p in deployed then deployed[p] else 0
  }

  function Min(a: int, b: int): int {
    if a < b then a else b
  }

  function Max(a: int, b: int): int {
    if a < b then b else a
  }

  /** The ranking is not empty and every ranked cluster is filed and reachable. */
  predicate Staged(sc: Scene) {
    && 0 < |sc.sorted|
    && forall j :: 0 <= j < |sc.sorted| ==> sc.sorted[j] in sc.c.nodes && sc.sorted[j] in sc.clusters
  }

  function Available(sc: Scene, p: string): int
    requires p in sc.c.nodes
  {
    ToInt32(Count(sc.c.nodes[p], sc.f))
  }

  // ---------- scale up ----------

  datatype Visited = Visited(deployed: Deployed, cnt: int, failed: bool)

  /** One cluster of the loop, after the overload test: deploy if there is nothing yet, then grow. */
  function Visit(p: string, available: int, cl: Cluster, initial: nat, cnt: int, deployed: Deployed): Visited {
    if available == 0 then
      if cl.deploy == Refused || p in deployed then Visited(deployed, cnt, true)
      else if cl.deploy == CreatedNoService then Visited(deployed[p := initial], cnt, true)
      else Grow(p, 1, cl, cnt - 1, deployed[p := initial])
    else
      Grow(p, available, cl, cnt, deployed)
  }

  function Grow(p: string, available: int, cl: Cluster, cnt: int, deployed: Deployed): Visited {
    if cnt <= 0 then Visited(deployed, cnt, false)
    else if !cl.listOk || !cl.getOk || p !in deployed || !cl.updateOk then Visited(deployed, cnt, true)
    else
      var cap := Min(cnt, cl.nodes - available);
      Visited(deployed[p := cap + available], cnt - cap, false)
  }

  /** The loop from position `i` on. */
  function FillFrom(sc: Scene, i: nat, n: nat, cnt: int, deployed: Deployed): Visited
    requires Staged(sc) && n <= |sc.sorted|
    decreases n - i
  {
    if n <= i || cnt <= 0 then Visited(deployed, cnt, false) else
      var p := sc.sorted[i];
      if sc.c.nodes[p].overload then FillFrom(sc, i + 1, n, cnt, deployed) else
        var v := Visit(p, Available(sc, p), sc.clusters[p], sc.initial, cnt, deployed);
        if v.failed then v else FillFrom(sc, i + 1, n, v.cnt, v.deployed)
  }

  // ---------- scale down ----------

  /** The loop body on the one cluster it visits. */
  function Shrink(sc: Scene, cnt: int, deployed: Deployed): Visited
    requires Staged(sc)
  {
    var p := sc.sorted[0];
    var cl, available := sc.clusters[p], Available(sc, p);
    if cnt <= 0 || available <= 0 then Visited(deployed, cnt, false)
    else if cnt < available then
      if !cl.getOk || p !in deployed || !cl.updateOk then Visited(deployed, cnt, true)
      else Visited(deployed[p := available - cnt], 0, false)
    else if !cl.deleteOk || p !in deployed then Visited(deployed, cnt, true)
    else if !cl.serviceOk then Visited(deployed - {p}, cnt, true)
    else Visited(deployed - {p}, cnt - available, false)
  }

  // ---------- the handler ----------

  datatype Request = Request(replicas: nat, offload: bool)

  datatype Answer = BadRequest | NotFound | NoContent | Accepted | Failed | NothingWritten

  /** The replica count a request asks for, after the conversion and the licence limit. */
  function Desired(replicas: nat): int {
    Min(ToInt32(replicas), MAX_REPLICAS)
  }

  /** How many clusters `scaleUp` may visit. */
  function Reach(sc: Scene, offloadEnabled: bool): nat {
    if offloadEnabled then |sc.sorted| else 1
  }

  function OldReplicas(sc: Scene): int
    requires sc.f in sc.c.functions
  {
    ToInt32(sc.c.functions[sc.f].replicas)
  }

  function Handle(sc: Scene, req: Request, offloadEnabled: bool, deployed: Deployed): (Deployed, Answer)
    requires Staged(sc) && SELF in sc.clusters
  {
    if req.replicas <= 0 then (deployed, BadRequest)
    else if sc.f !in sc.c.functions then (deployed, NotFound)
    else
      var old', wanted := OldReplicas(sc), Desired(req.replicas);
      if old' == wanted then (deployed, NoContent)
      else if req.offload then
        var cl := sc.clusters[SELF];
        if !cl.getOk || SELF !in deployed then (deployed, Failed)
        else if !cl.updateOk then (deployed, NothingWritten)
        else (deployed[SELF := wanted], Accepted)
      else
        var v := if old' < wanted then FillFrom(sc, 0, Reach(sc, offloadEnabled), wanted - old', deployed)
                 else Shrink(sc, old' - wanted, deployed);
        (v.deployed, if v.failed then Failed else Accepted)
  }

  // ---------- what the catalog says about the deployments ----------

  /** The catalog's count at `p` is what is deployed there, and only a positive count is deployed. */
  predicate AccurateAt(sc: Scene, deployed: Deployed, p: string) {
    && p in sc.c.nodes
    && Count(sc.c.nodes[p], sc.f) == At(deployed, p)
    && (p in deployed ==> 0 < deployed[p] < INT32_LIMIT)
  }

  /** The catalog is accurate about every cluster, and within the range of the conversions. */
  ghost predicate Accurate(sc: Scene, deployed: Deployed) {
    && TotalsAgree(sc.c)
    && (forall p :: p in sc.c.nodes ==> AccurateAt(sc, deployed, p))
    && (forall p :: p in deployed ==> p in sc.c.nodes)
    && Sum(deployed) < INT32_LIMIT
  }

  lemma {:induction false} SumDropZeros(m: map<string, int>, n: map<string, int>)
    requires n.Keys <= m.Keys
    requires forall k :: k in m ==> m[k] == At(n, k)
    ensures Sum(m) == Sum(n)
    decreases |m|
  {
    if m == map[] {
      assert n == map[];
    } else {
      var k :| k in m;
      SumRemove(m, k);
      SumDropZeros(m - {k}, n - {k});
      if k in n {
        SumRemove(n, k);
      } else {
        assert n - {k} == n;
      }
    }
  }

  /** With an accurate catalog the cached total is the number of replicas really deployed. */
  lemma AccurateTotal(sc: Scene, deployed: Deployed)
    requires Accurate(sc, deployed) && sc.f in sc.c.functions
    ensures OldReplicas(sc) == Sum(deployed)
  {
    var counts := CountsOf(sc.c.nodes, sc.f);
    forall p | p in counts
      ensures counts[p] == At(deployed, p)
    {
      assert AccurateAt(sc, deployed, p);
    }
    SumDropZeros(counts, deployed);
  }

  // ---------- scale up when no API call fails ----------

  predicate NoFailure(cl: Cluster) {
    cl.deploy == Created && cl.listOk && cl.getOk && cl.updateOk && cl.deleteOk && cl.serviceOk
  }

  /** From position `i` on the catalog is accurate, every cluster has a node, and the APIs answer. */
  predicate Sound(sc: Scene, i: nat, n: nat, deployed: Deployed)
    requires Staged(sc) && n <= |sc.sorted|
  {
    forall j :: i <= j < n ==>
      var p := sc.sorted[j];
      AccurateAt(sc, deployed, p) && 1 <= sc.clusters[p].nodes && NoFailure(sc.clusters[p])
  }

  /** Nodes without a replica in the cluster at position `j`, negative if it has too many; none if it is overloaded. */
  function Spare(sc: Scene, j: nat): int
    requires Staged(sc) && j < |sc.sorted|
  {
    var p := sc.sorted[j];
    if sc.c.nodes[p].overload then 0 else sc.clusters[p].nodes - Available(sc, p)
  }

  function SpareSum(sc: Scene, i: nat, n: nat): int
    requires Staged(sc) && n <= |sc.sorted|
    decreases n - i
  {
    if n <= i then 0 else Spare(sc, i) + SpareSum(sc, i + 1, n)
  }

  /** A call the visit needs fails: the deployment of a first replica, or the growth beyond it. */
  predicate Trouble(cl: Cluster, available: int, cnt: int) {
    || (available == 0 && cl.deploy != Created)
    || ((available != 0 || 1 < cnt) && !(cl.listOk && cl.getOk && cl.updateOk))
  }

  /**
   One visit adds what is wanted or what fits, whichever is less, and that may be negative; unless a call it needs
   fails, and then it leaves everything alone but a first replica just deployed.
   */
  lemma VisitOutcome(sc: Scene, p: string, cnt: int, deployed: Deployed)
    requires AccurateAt(sc, deployed, p) && p in sc.clusters && 1 <= sc.clusters[p].nodes
    requires 0 < cnt && sc.initial == 1
    ensures var a, cl := Available(sc, p), sc.clusters[p];
            var v, gain := Visit(p, a, cl, 1, cnt, deployed), Min(cnt, cl.nodes - a);
            && a == At(deployed, p)
            && (v.failed <==> Trouble(cl, a, cnt))
            && (!v.failed ==> v == Visited(deployed[p := a + gain], cnt - gain, false))
            && (v.failed ==> v.deployed == if a == 0 && cl.deploy != Refused then deployed[p := 1] else deployed)
  {
    var a, cl := Available(sc, p), sc.clusters[p];
    if a == 0 && cnt > 1 {
      assert deployed[p := 1][p := Min(cnt - 1, cl.nodes - 1) + 1] == deployed[p := Min(cnt, cl.nodes)];
    }
  }

  /** Without failures: what is wanted or what fits. */
  lemma VisitFills(sc: Scene, p: string, cnt: int, deployed: Deployed)
    requires AccurateAt(sc, deployed, p) && p in sc.clusters && 1 <= sc.clusters[p].nodes && NoFailure(sc.clusters[p])
    requires 0 < cnt && sc.initial == 1
    ensures var a := Available(sc, p);
            var gain := Min(cnt, sc.clusters[p].nodes - a);
            a == At(deployed, p) &&
            Visit(p, a, sc.clusters[p], 1, cnt, deployed) == Visited(deployed[p := a + gain], cnt - gain, false)
  {
    VisitOutcome(sc, p, cnt, deployed);
  }

  lemma SoundAfter(sc: Scene, i: nat, n: nat, deployed: Deployed, v: int)
    requires Staged(sc) && i < n <= |sc.sorted| && Distinct(sc.sorted) && Sound(sc, i, n, deployed)
    ensures Sound(sc, i + 1, n, deployed[sc.sorted[i] := v])
    ensures Sound(sc, i + 1, n, deployed)
  {
    forall j | i + 1 <= j < n
      ensures AccurateAt(sc, deployed[sc.sorted[i] := v], sc.sorted[j])
    {
      assert AccurateAt(sc, deployed, sc.sorted[j]);
    }
  }

  /** Clusters outside the visited range are not touched. */
  lemma {:induction false} FillLeavesOthers(sc: Scene, i: nat, n: nat, cnt: int, deployed: Deployed, p: string)
    requires Staged(sc) && n <= |sc.sorted|
    requires forall j :: i <= j < n ==> sc.sorted[j] != p
    ensures At(FillFrom(sc, i, n, cnt, deployed).deployed, p) == At(deployed, p)
    decreases n - i
  {
    if n <= i || cnt <= 0 {
    } else {
      var q := sc.sorted[i];
      if sc.c.nodes[q].overload {
        FillLeavesOthers(sc, i + 1, n, cnt, deployed, p);
      } else {
        var v := Visit(q, Available(sc, q), sc.clusters[q], sc.initial, cnt, deployed);
        if !v.failed {
          FillLeavesOthers(sc, i + 1, n, v.cnt, v.deployed, p);
        }
      }
    }
  }

  /** The deployments after the cluster at position `i` took its share. */
  function AfterShare(sc: Scene, i: nat, cnt: int, deployed: Deployed): Deployed
    requires Staged(sc) && i < |sc.sorted|
  {
    var p := sc.sorted[i];
    if sc.c.nodes[p].overload then deployed else deployed[p := At(deployed, p) + Min(cnt, Spare(sc, i))]
  }

  lemma FillStepAt(sc: Scene, i: nat, n: nat, cnt: int, deployed: Deployed)
    requires Staged(sc) && i < n <= |sc.sorted| && Sound(sc, i, i + 1, deployed) && sc.initial == 1 && 0 < cnt
    ensures FillFrom(sc, i, n, cnt, deployed) ==
            FillFrom(sc, i + 1, n, cnt - Min(cnt, Spare(sc, i)), AfterShare(sc, i, cnt, deployed))
  {
    var p := sc.sorted[i];
    assert AccurateAt(sc, deployed, p);
    if !sc.c.nodes[p].overload {
      VisitFills(sc, p, cnt, deployed);
    }
  }

  /** One turn of the loop: the cluster takes its share and the rest goes on. */
  lemma FillStep(sc: Scene, i: nat, n: nat, cnt: int, deployed: Deployed)
    requires Staged(sc) && i < n <= |sc.sorted| && Distinct(sc.sorted)
    requires Sound(sc, i, n, deployed) && sc.initial == 1 && 0 < cnt
    ensures FillFrom(sc, i, n, cnt, deployed) ==
            FillFrom(sc, i + 1, n, cnt - Min(cnt, Spare(sc, i)), AfterShare(sc, i, cnt, deployed))
    ensures Sound(sc, i + 1, n, AfterShare(sc, i, cnt, deployed))
  {
    var p := sc.sorted[i];
    assert AccurateAt(sc, deployed, p);
    SoundAfter(sc, i, n, deployed, At(deployed, p) + Min(cnt, Spare(sc, i)));
    if !sc.c.nodes[p].overload {
      VisitFills(sc, p, cnt, deployed);
    }
  }

  lemma ShareTotal(sc: Scene, i: nat, cnt: int, deployed: Deployed)
    requires Staged(sc) && i < |sc.sorted| && 0 < cnt
    ensures Sum(AfterShare(sc, i, cnt, deployed)) == Sum(deployed) + Min(cnt, Spare(sc, i))
  {
    var p := sc.sorted[i];
    SumUpdate(deployed, p, At(deployed, p) + Min(cnt, Spare(sc, i)));
  }

  /** Conservation: replicas deployed plus replicas still wanted stay the same over the whole loop. */
  lemma {:induction false} FillConserves(sc: Scene, i: nat, n: nat, cnt: int, deployed: Deployed)
    requires Staged(sc) && n <= |sc.sorted| && Distinct(sc.sorted)
    requires Sound(sc, i, n, deployed) && sc.initial == 1
    ensures var v := FillFrom(sc, i, n, cnt, deployed);
            !v.failed && Sum(v.deployed) + v.cnt == Sum(deployed) + cnt
    decreases n - i
  {
    if n <= i || cnt <= 0 {
    } else {
      FillStep(sc, i, n, cnt, deployed);
      ShareTotal(sc, i, cnt, deployed);
      FillConserves(sc, i + 1, n, cnt - Min(cnt, Spare(sc, i)), AfterShare(sc, i, cnt, deployed));
    }
  }

  /** The loop gets as far as position `j`: at no position before or at it are enough replicas placed. */
  predicate Reached(sc: Scene, i: nat, j: nat, cnt: int)
    requires Staged(sc) && j < |sc.sorted|
  {
    forall k :: i <= k <= j ==> SpareSum(sc, i, k) < cnt
  }

  /** What the loop adds at position `j`: what the positions before it left over, up to its own spare nodes. */
  function Share(sc: Scene, i: nat, j: nat, cnt: int): int
    requires Staged(sc) && i <= j < |sc.sorted|
  {
    if Reached(sc, i, j, cnt) then Min(cnt - SpareSum(sc, i, j), Spare(sc, j)) else 0
  }

  /** What a nearer cluster takes (or gives back) is what is missing (or left) further out. */
  lemma ShareShift(sc: Scene, i: nat, j: nat, cnt: int)
    requires Staged(sc) && i < j < |sc.sorted| && 0 < cnt
    ensures Share(sc, i, j, cnt) == Share(sc, i + 1, j, cnt - Min(cnt, Spare(sc, i)))
  {
    var left := cnt - Min(cnt, Spare(sc, i));
    assert forall k :: i + 1 <= k <= j ==> SpareSum(sc, i, k) == Spare(sc, i) + SpareSum(sc, i + 1, k);
    assert SpareSum(sc, i, i) == 0 && SpareSum(sc, i + 1, i + 1) == 0;
    if left == 0 {
      assert !Reached(sc, i + 1, j, 0);
      assert SpareSum(sc, i, i + 1) >= cnt;
    } else if Reached(sc, i + 1, j, left) {
      assert forall k :: i <= k <= j ==> SpareSum(sc, i, k) < cnt;
    } else {
      var k :| i + 1 <= k <= j && SpareSum(sc, i + 1, k) >= left;
      assert SpareSum(sc, i, k) >= cnt;
    }
  }

  /** The greedy loop has a closed form, cluster by cluster, even where a cluster has more replicas than nodes. */
  lemma {:induction false} ScaleUpClosedForm(sc: Scene, i: nat, n: nat, cnt: int, deployed: Deployed, j: nat)
    requires Staged(sc) && i <= j < n <= |sc.sorted| && Distinct(sc.sorted)
    requires Sound(sc, i, n, deployed) && sc.initial == 1 && 0 <= cnt
    ensures At(FillFrom(sc, i, n, cnt, deployed).deployed, sc.sorted[j]) ==
            At(deployed, sc.sorted[j]) + Share(sc, i, j, cnt)
    decreases n - i
  {
    if cnt == 0 {
      assert SpareSum(sc, i, i) == 0;
    } else {
      FillStep(sc, i, n, cnt, deployed);
      var left, after := cnt - Min(cnt, Spare(sc, i)), AfterShare(sc, i, cnt, deployed);
      if i < j {
        ScaleUpClosedForm(sc, i + 1, n, left, after, j);
        ShareShift(sc, i, j, cnt);
      } else {
        FillLeavesOthers(sc, i + 1, n, left, after, sc.sorted[i]);
        assert SpareSum(sc, i, i) == 0;
      }
    }
  }

  lemma ReachedFurther(sc: Scene, i: nat, j: nat, cnt: int)
    requires Staged(sc) && i < j < |sc.sorted| && Reached(sc, i, j, cnt)
    ensures 0 < cnt && Spare(sc, i) < cnt && Reached(sc, i + 1, j, cnt - Spare(sc, i))
    ensures SpareSum(sc, i, j) == Spare(sc, i) + SpareSum(sc, i + 1, j)
  {
    assert SpareSum(sc, i, i) < cnt;
    assert SpareSum(sc, i, i + 1) == Spare(sc, i) + SpareSum(sc, i + 1, i + 1) < cnt;
    var next, left := i + 1, cnt - Spare(sc, i);
    forall k | next <= k <= j
      ensures SpareSum(sc, next, k) < left
    {
      assert SpareSum(sc, i, k) < cnt;
    }
  }

  /** What the failing cluster at position `j` is left with, over what it had. */
  function AtFailure(sc: Scene, j: nat): int
    requires Staged(sc) && j < |sc.sorted|
  {
    var p := sc.sorted[j];
    if Available(sc, p) == 0 && sc.clusters[p].deploy != Refused then 1 else 0
  }

  lemma FillStopsHere(sc: Scene, j: nat, n: nat, cnt: int, deployed: Deployed, k: nat)
    requires Staged(sc) && j < n <= |sc.sorted| && Distinct(sc.sorted) && sc.initial == 1 && 0 < cnt && k < n
    requires var p := sc.sorted[j];
             && !sc.c.nodes[p].overload && AccurateAt(sc, deployed, p) && 1 <= sc.clusters[p].nodes
             && Trouble(sc.clusters[p], Available(sc, p), cnt)
    ensures FillFrom(sc, j, n, cnt, deployed).failed
    ensures At(FillFrom(sc, j, n, cnt, deployed).deployed, sc.sorted[k]) ==
            At(deployed, sc.sorted[k]) + if k == j then AtFailure(sc, j) else 0
  {
    VisitOutcome(sc, sc.sorted[j], cnt, deployed);
  }

  /** A call that the visit of position `j` needs fails when the loop gets there from position `i`. */
  predicate TroubleAt(sc: Scene, i: nat, j: nat, cnt: int, deployed: Deployed)
    requires Staged(sc) && i <= j < |sc.sorted|
  {
    var p := sc.sorted[j];
    && Reached(sc, i, j, cnt) && !sc.c.nodes[p].overload
    && AccurateAt(sc, deployed, p) && 1 <= sc.clusters[p].nodes
    && Trouble(sc.clusters[p], Available(sc, p), cnt - SpareSum(sc, i, j))
  }

  lemma TroubleLater(sc: Scene, i: nat, j: nat, cnt: int, deployed: Deployed)
    requires Staged(sc) && i < j < |sc.sorted| && Distinct(sc.sorted) && TroubleAt(sc, i, j, cnt, deployed)
    ensures 0 < cnt && Min(cnt, Spare(sc, i)) == Spare(sc, i)
    ensures TroubleAt(sc, i + 1, j, cnt - Spare(sc, i), AfterShare(sc, i, cnt, deployed))
  {
    ReachedFurther(sc, i, j, cnt);
  }

  /** What the loop that stops at position `j` has added at position `k`. */
  function ShareUpTo(sc: Scene, i: nat, j: nat, cnt: int, k: nat): int
    requires Staged(sc) && i <= k < |sc.sorted| && j < |sc.sorted|
  {
    if k < j then Share(sc, i, k, cnt) else if k == j then AtFailure(sc, j) else 0
  }

  lemma ShareUpToShift(sc: Scene, i: nat, j: nat, cnt: int, k: nat)
    requires Staged(sc) && i < k < |sc.sorted| && i < j < |sc.sorted| && 0 < cnt && Min(cnt, Spare(sc, i)) == Spare(sc, i)
    ensures ShareUpTo(sc, i, j, cnt, k) == ShareUpTo(sc, i + 1, j, cnt - Spare(sc, i), k)
  {
    if k < j {
      ShareShift(sc, i, k, cnt);
    }
  }

  lemma FirstShareStays(sc: Scene, i: nat, j: nat, n: nat, cnt: int, left: int, deployed: Deployed)
    requires Staged(sc) && i < j < n <= |sc.sorted| && Distinct(sc.sorted) && 0 < cnt
    ensures At(FillFrom(sc, i + 1, n, left, AfterShare(sc, i, cnt, deployed)).deployed, sc.sorted[i]) ==
            At(deployed, sc.sorted[i]) + ShareUpTo(sc, i, j, cnt, i)
  {
    FillLeavesOthers(sc, i + 1, n, left, AfterShare(sc, i, cnt, deployed), sc.sorted[i]);
    assert SpareSum(sc, i, i) == 0;
  }

  /**
   The loop stops at the first cluster where a call it needs fails: nearer clusters have taken their share, that
   one has at most a first replica, and none further out is touched.
   */
  lemma {:induction false} FillStopsAt(sc: Scene, i: nat, j: nat, n: nat, cnt: int, deployed: Deployed, k: nat)
    requires Staged(sc) && i <= j < n <= |sc.sorted| && Distinct(sc.sorted) && i <= k < n
    requires Sound(sc, i, j, deployed) && sc.initial == 1 && TroubleAt(sc, i, j, cnt, deployed)
    ensures FillFrom(sc, i, n, cnt, deployed).failed
    ensures At(FillFrom(sc, i, n, cnt, deployed).deployed, sc.sorted[k]) ==
            At(deployed, sc.sorted[k]) + ShareUpTo(sc, i, j, cnt, k)
    decreases j - i
  {
    if i == j {
      assert SpareSum(sc, i, i) == 0;
      FillStopsHere(sc, j, n, cnt, deployed, k);
    } else {
      TroubleLater(sc, i, j, cnt, deployed);
      var left, after := cnt - Spare(sc, i), AfterShare(sc, i, cnt, deployed);
      FillStepAt(sc, i, n, cnt, deployed);
      SoundAfter(sc, i, j, deployed, At(deployed, sc.sorted[i]) + Spare(sc, i));
      FillStopsAt(sc, i + 1, j, n, left, after, if k == i then j else k);
      if k == i {
        FirstShareStays(sc, i, j, n, cnt, left, deployed);
      } else {
        ShareUpToShift(sc, i, j, cnt, k);
      }
    }
  }

  /**
   A cluster shrinks during scaling up if and only if it is not overloaded, has more replicas than nodes,
   and is reached before enough replicas are placed.
   */
  lemma ScaleUpShrinksIff(sc: Scene, n: nat, cnt: int, deployed: Deployed, j: nat)
    requires Staged(sc) && j < n <= |sc.sorted| && Distinct(sc.sorted)
    requires Sound(sc, 0, n, deployed) && sc.initial == 1 && 0 <= cnt
    ensures At(FillFrom(sc, 0, n, cnt, deployed).deployed, sc.sorted[j]) < At(deployed, sc.sorted[j]) <==>
            && !sc.c.nodes[sc.sorted[j]].overload
            && sc.clusters[sc.sorted[j]].nodes < Available(sc, sc.sorted[j])
            && Reached(sc, 0, j, cnt)
  {
    ScaleUpClosedForm(sc, 0, n, cnt, deployed, j);
    assert Reached(sc, 0, j, cnt) ==> SpareSum(sc, 0, j) < cnt;
  }

  /** One cluster with two nodes and three replicas: asked for one more, the loop leaves two. */
  lemma ScaleUpCanShrink()
    ensures var node := NodeInfo(map["f" := 1], map["f" := 3], false);
            var sc := Scene(State(map[SELF := node], map[]), "f", [SELF],
                            map[SELF := Cluster(2, Created, true, true, true, true, true)], 1);
            Staged(sc) && Sound(sc, 0, 1, map[SELF := 3]) &&
            At(FillFrom(sc, 0, 1, 1, map[SELF := 3]).deployed, SELF) == 2
  {
    var node := NodeInfo(map["f" := 1], map["f" := 3], false);
    var sc := Scene(State(map[SELF := node], map[]), "f", [SELF],
                    map[SELF := Cluster(2, Created, true, true, true, true, true)], 1);
    assert AccurateAt(sc, map[SELF := 3], SELF);
    ScaleUpClosedForm(sc, 0, 1, 1, map[SELF := 3], 0);
    assert SpareSum(sc, 0, 0) == 0;
  }

  // ---------- scale up when every cluster has room for its replicas ----------

  /** Cluster `p` has at least one node and one for every replica. */
  predicate Roomy(sc: Scene, p: string) {
    p in sc.clusters && p in sc.c.nodes && 1 <= sc.clusters[p].nodes && Available(sc, p) <= sc.clusters[p].nodes
  }

  predicate RoomyFrom(sc: Scene, i: nat, n: nat)
    requires n <= |sc.sorted|
  {
    forall j :: i <= j < n ==> Roomy(sc, sc.sorted[j])
  }

  lemma {:induction false} SpareSumBounds(sc: Scene, i: nat, j: nat, n: nat)
    requires Staged(sc) && i <= j <= n <= |sc.sorted| && RoomyFrom(sc, i, n)
    ensures 0 <= SpareSum(sc, i, j) <= SpareSum(sc, i, n)
    ensures j < n ==> SpareSum(sc, i, j + 1) == SpareSum(sc, i, j) + Spare(sc, j)
    decreases n - i
  {
    if i == n {
    } else {
      assert Roomy(sc, sc.sorted[i]);
      if i < j {
        SpareSumBounds(sc, i + 1, j, n);
      } else {
        SpareSumBounds(sc, i + 1, n, n);
      }
    }
  }

  lemma SpareSumMonotone(sc: Scene, j: nat)
    requires Staged(sc) && j < |sc.sorted| && RoomyFrom(sc, 0, j)
    ensures forall k :: 0 <= k <= j ==> SpareSum(sc, 0, k) <= SpareSum(sc, 0, j)
  {
    forall k | 0 <= k <= j
      ensures SpareSum(sc, 0, k) <= SpareSum(sc, 0, j)
    {
      SpareSumBounds(sc, 0, k, j);
    }
  }

  /** With room everywhere a share is what is left over, capped by the spare nodes and never negative. */
  lemma ShareWhenRoomy(sc: Scene, j: nat, cnt: int)
    requires Staged(sc) && j < |sc.sorted| && RoomyFrom(sc, 0, j + 1)
    ensures Share(sc, 0, j, cnt) == Max(0, Min(cnt - SpareSum(sc, 0, j), Spare(sc, j)))
  {
    assert Roomy(sc, sc.sorted[j]);
    SpareSumMonotone(sc, j);
    assert Reached(sc, 0, j, cnt) <==> SpareSum(sc, 0, j) < cnt;
  }

  /** The loop adds exactly what is wanted, or all the spare nodes if that is less. */
  lemma {:induction false} FillTotal(sc: Scene, i: nat, n: nat, cnt: int, deployed: Deployed)
    requires Staged(sc) && i <= n <= |sc.sorted| && Distinct(sc.sorted) && RoomyFrom(sc, i, n)
    requires Sound(sc, i, n, deployed) && sc.initial == 1 && 0 <= cnt
    ensures Sum(FillFrom(sc, i, n, cnt, deployed).deployed) == Sum(deployed) + Min(cnt, SpareSum(sc, i, n))
    decreases n - i
  {
    SpareSumBounds(sc, i, n, n);
    if i == n || cnt == 0 {
    } else {
      FillStep(sc, i, n, cnt, deployed);
      var left, after := cnt - Min(cnt, Spare(sc, i)), AfterShare(sc, i, cnt, deployed);
      ShareTotal(sc, i, cnt, deployed);
      assert Roomy(sc, sc.sorted[i]);
      FillTotal(sc, i + 1, n, left, after);
      SpareSumBounds(sc, i + 1, n, n);
    }
  }

  /** The total that scaling up to `desired` reaches when `n` clusters may be visited. */
  ghost predicate Reaches(sc: Scene, desired: int, n: nat, deployed: Deployed)
    requires Staged(sc) && n <= |sc.sorted| && sc.f in sc.c.functions
  {
    var v := FillFrom(sc, 0, n, desired - OldReplicas(sc), deployed);
    !v.failed && Sum(v.deployed) == Min(desired, Sum(deployed) + SpareSum(sc, 0, n))
  }

  lemma FillReaches(sc: Scene, desired: int, n: nat, deployed: Deployed)
    requires Staged(sc) && Distinct(sc.sorted) && n <= |sc.sorted| && sc.f in sc.c.functions
    requires OldReplicas(sc) == Sum(deployed) && RoomyFrom(sc, 0, n) && Sound(sc, 0, n, deployed) && sc.initial == 1
    requires Sum(deployed) <= desired
    ensures Reaches(sc, desired, n, deployed)
  {
    FillTotal(sc, 0, n, desired - OldReplicas(sc), deployed);
    FillConserves(sc, 0, n, desired - OldReplicas(sc), deployed);
  }

  /**
   Scaling up on an accurate catalog reaches exactly the wanted total, or as much of it as the visited,
   not overloaded clusters have nodes for.
   */
  lemma ScaleUpExactTotal(sc: Scene, desired: int, n: nat, deployed: Deployed)
    requires Staged(sc) && Distinct(sc.sorted) && n <= |sc.sorted| && sc.f in sc.c.functions
    requires Accurate(sc, deployed) && RoomyFrom(sc, 0, n) && Sound(sc, 0, n, deployed) && sc.initial == 1
    requires Sum(deployed) <= desired
    ensures Reaches(sc, desired, n, deployed)
  {
    AccurateTotal(sc, deployed);
    FillReaches(sc, desired, n, deployed);
  }

  /** No cluster shrinks, and a cluster only gains once every nearer, not overloaded one has a replica on each node. */
  lemma ScaleUpNearestFirst(sc: Scene, n: nat, cnt: int, deployed: Deployed, j: nat, k: nat)
    requires Staged(sc) && k < j < n <= |sc.sorted| && Distinct(sc.sorted)
    requires RoomyFrom(sc, 0, n) && Sound(sc, 0, n, deployed) && sc.initial == 1 && 0 <= cnt
    ensures var after := FillFrom(sc, 0, n, cnt, deployed).deployed;
            && At(deployed, sc.sorted[j]) <= At(after, sc.sorted[j])
            && (At(deployed, sc.sorted[j]) < At(after, sc.sorted[j]) && !sc.c.nodes[sc.sorted[k]].overload ==>
                  At(after, sc.sorted[k]) == sc.clusters[sc.sorted[k]].nodes)
  {
    ScaleUpClosedForm(sc, 0, n, cnt, deployed, j);
    ScaleUpClosedForm(sc, 0, n, cnt, deployed, k);
    ShareWhenRoomy(sc, j, cnt);
    ShareWhenRoomy(sc, k, cnt);
    SpareSumBounds(sc, 0, k, n);
    SpareSumBounds(sc, 0, k + 1, j);
    assert AccurateAt(sc, deployed, sc.sorted[k]) && Roomy(sc, sc.sorted[k]);
  }

  // ---------- scale up without those conditions ----------

  /** Every count that is new is at most the cluster's node count, as one replica per host needs. */
  ghost predicate WritesFit(sc: Scene, before: Deployed, after: Deployed) {
    forall p :: p in after && !(p in before && before[p] == after[p]) ==>
      p in sc.clusters && after[p] <= sc.clusters[p].nodes
  }

  lemma VisitFits(sc: Scene, p: string, available: int, cnt: int, start: Deployed, deployed: Deployed)
    requires p in sc.clusters && sc.initial <= sc.clusters[p].nodes && WritesFit(sc, start, deployed)
    ensures WritesFit(sc, start, Visit(p, available, sc.clusters[p], sc.initial, cnt, deployed).deployed)
  {
  }

  /**
   Whatever the catalog says and whatever fails: as long as a fresh deployment fits, so does every count
   the loop writes.
   */
  lemma {:induction false} ScaleUpFitsNodes(sc: Scene, i: nat, n: nat, cnt: int, start: Deployed, deployed: Deployed)
    requires Staged(sc) && n <= |sc.sorted| && WritesFit(sc, start, deployed)
    requires forall j :: i <= j < n ==> sc.initial <= sc.clusters[sc.sorted[j]].nodes
    ensures WritesFit(sc, start, FillFrom(sc, i, n, cnt, deployed).deployed)
    decreases n - i
  {
    if n <= i || cnt <= 0 {
    } else {
      var p := sc.sorted[i];
      if sc.c.nodes[p].overload {
        ScaleUpFitsNodes(sc, i + 1, n, cnt, start, deployed);
      } else {
        var v := Visit(p, Available(sc, p), sc.clusters[p], sc.initial, cnt, deployed);
        VisitFits(sc, p, Available(sc, p), cnt, start, deployed);
        if !v.failed {
          ScaleUpFitsNodes(sc, i + 1, n, v.cnt, start, v.deployed);
        }
      }
    }
  }

  /** In a cluster without the function only the last missing replica keeps the count it was created with. */
  lemma FreshVisit(p: string, cl: Cluster, initial: nat, cnt: int, deployed: Deployed)
    requires p !in deployed && NoFailure(cl) && 0 < cnt && 1 <= cl.nodes
    ensures At(Visit(p, 0, cl, initial, cnt, deployed).deployed, p) == if cnt == 1 then initial else Min(cnt, cl.nodes)
    ensures At(Visit(p, 0, cl, initial, cnt, deployed).deployed, p) == Min(cnt, cl.nodes) <==> cnt != 1 || initial == 1
  {
  }

  /** Nothing is lost on the way from `before` to `after`. */
  ghost predicate Grown(before: Deployed, after: Deployed) {
    && before.Keys <= after.Keys
    && (forall p :: p in before ==> before[p] <= after[p])
    && (forall p :: p in after ==> 0 <= after[p])
  }

  lemma VisitGrows(sc: Scene, p: string, cnt: int, start: Deployed, deployed: Deployed)
    requires AccurateAt(sc, start, p) && Roomy(sc, p)
    requires Grown(start, deployed) && At(deployed, p) == At(start, p) && 0 < cnt
    ensures Grown(start, Visit(p, Available(sc, p), sc.clusters[p], sc.initial, cnt, deployed).deployed)
    ensures forall q :: q != p ==>
              At(Visit(p, Available(sc, p), sc.clusters[p], sc.initial, cnt, deployed).deployed, q) == At(deployed, q)
  {
  }

  /** Even if some API call fails on the way, scaling up never takes a replica away. */
  lemma {:induction false} FillGrows(sc: Scene, i: nat, n: nat, cnt: int, start: Deployed, deployed: Deployed)
    requires Staged(sc) && n <= |sc.sorted| && Distinct(sc.sorted)
    requires forall j :: i <= j < n ==> AccurateAt(sc, start, sc.sorted[j]) && Roomy(sc, sc.sorted[j])
    requires Grown(start, deployed)
    requires forall j :: i <= j < n ==> At(deployed, sc.sorted[j]) == At(start, sc.sorted[j])
    ensures Grown(start, FillFrom(sc, i, n, cnt, deployed).deployed)
    decreases n - i
  {
    if n <= i || cnt <= 0 {
    } else {
      var p := sc.sorted[i];
      if sc.c.nodes[p].overload {
        FillGrows(sc, i + 1, n, cnt, start, deployed);
      } else {
        var v := Visit(p, Available(sc, p), sc.clusters[p], sc.initial, cnt, deployed);
        VisitGrows(sc, p, cnt, start, deployed);
        if !v.failed {
          FillGrows(sc, i + 1, n, v.cnt, start, v.deployed);
        }
      }
    }
  }

  lemma {:induction false} GrownTotal(before: Deployed, after: Deployed)
    requires Grown(before, after)
    ensures Sum(before) <= Sum(after)
    decreases |after|
  {
    if after == map[] {
      assert before == map[];
    } else {
      var k :| k in after;
      SumRemove(after, k);
      if k in before {
        SumRemove(before, k);
      } else {
        assert before - {k} == before;
      }
      GrownTotal(before - {k}, after - {k});
    }
  }

  // ---------- scale down ----------

  /** Scaling down changes only the nearest cluster, which is this one when it ranks first. */
  lemma ScaleDownTouchesOne(sc: Scene, cnt: int, deployed: Deployed, p: string)
    requires Staged(sc) && p != sc.sorted[0]
    ensures At(Shrink(sc, cnt, deployed).deployed, p) == At(deployed, p)
  {
  }

  /** A call that scaling down needs fails: the update, or the deletion of the deployment or its service. */
  predicate ShrinkTrouble(cl: Cluster, available: int, cnt: int) {
    0 < cnt && 0 < available && if cnt < available then !(cl.getOk && cl.updateOk) else !(cl.deleteOk && cl.serviceOk)
  }

  /** It fails exactly then, and leaves everything alone unless only the service could not be deleted. */
  lemma ShrinkFailsIff(sc: Scene, cnt: int, deployed: Deployed)
    requires Staged(sc) && AccurateAt(sc, deployed, sc.sorted[0])
    ensures var p := sc.sorted[0];
            var v, cl := Shrink(sc, cnt, deployed), sc.clusters[p];
            && (v.failed <==> ShrinkTrouble(cl, At(deployed, p), cnt))
            && (v.failed ==> v.deployed == if At(deployed, p) <= cnt && cl.deleteOk then deployed - {p} else deployed)
  {
  }

  /** The exact total after scaling down: the wanted one, unless this cluster alone cannot give that much up. */
  lemma ScaleDownTotal(sc: Scene, desired: int, deployed: Deployed)
    requires Staged(sc) && AccurateAt(sc, deployed, sc.sorted[0])
    requires desired <= Sum(deployed) && !Shrink(sc, Sum(deployed) - desired, deployed).failed
    ensures Sum(Shrink(sc, Sum(deployed) - desired, deployed).deployed) ==
            Max(desired, Sum(deployed) - At(deployed, sc.sorted[0]))
  {
    var p := sc.sorted[0];
    var cnt := Sum(deployed) - desired;
    if 0 < cnt && p in deployed {
      if cnt < deployed[p] {
        SumUpdate(deployed, p, deployed[p] - cnt);
      } else {
        SumRemove(deployed, p);
      }
    }
  }

  /** Even if some API call fails, scaling down to `desired` leaves at least `desired`. */
  lemma ScaleDownLeaves(sc: Scene, desired: int, deployed: Deployed)
    requires Staged(sc) && AccurateAt(sc, deployed, sc.sorted[0])
    requires desired <= Sum(deployed)
    ensures desired <= Sum(Shrink(sc, Sum(deployed) - desired, deployed).deployed)
  {
    var p := sc.sorted[0];
    var cnt := Sum(deployed) - desired;
    if 0 < cnt && p in deployed {
      if cnt < deployed[p] {
        SumUpdate(deployed, p, deployed[p] - cnt);
      } else {
        SumRemove(deployed, p);
      }
    }
  }
}
