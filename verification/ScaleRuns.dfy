/** What the scale handler keeps over whole runs of requests, and what it loses when its conditions fail. */
module ScaleRuns {
  import opened FaasTypes
  import opened MapSums
  import opened CatalogState
  import opened Ranking
  import opened Scaler
  import opened Runs

  /** The ranking lists reachable clusters with this one first. */
  predicate SelfFirst(sc: Scene) {
    Staged(sc) && SELF in sc.clusters && sc.sorted[0] == SELF
  }

  /** Besides, each of them has room for its replicas. */
  predicate RankedScene(sc: Scene) {
    && SelfFirst(sc)
    && (forall j :: 0 <= j < |sc.sorted| ==> Roomy(sc, sc.sorted[j]))
  }

  /** Distinct, positive round-trip times are all the ranking needs to supply that. */
  lemma RankingSuppliesScene(sc: Scene, measured: map<string, int>)
    requires SELF in sc.c.nodes && Measured(sc.c.nodes.Keys, measured)
    requires IsRanking(sc.c.nodes.Keys, measured, sc.sorted)
    requires DistinctTimes(sc.c.nodes.Keys, measured)
    requires forall p :: p in sc.c.nodes && p != SELF ==> 0 < Rtt(measured, p)
    requires forall p :: p in sc.c.nodes ==> Roomy(sc, p)
    ensures RankedScene(sc) && Distinct(sc.sorted)
  {
    SelfRanksFirst(sc.c.nodes.Keys, measured, sc.sorted);
    RankingIsPermutation(sc.c.nodes.Keys, measured, sc.sorted);
  }

  lemma OffloadLeavesOne(deployed: Deployed, wanted: int)
    requires forall p :: p in deployed ==> 0 < deployed[p]
    requires 1 <= wanted
    ensures 1 <= Sum(deployed[SELF := wanted])
  {
    SumAtLeast(deployed[SELF := wanted]);
    assert deployed[SELF := wanted][SELF] == wanted;
  }

  lemma ScaleUpLeavesOne(sc: Scene, n: nat, cnt: int, deployed: Deployed)
    requires RankedScene(sc) && Distinct(sc.sorted) && n <= |sc.sorted|
    requires forall p :: p in sc.c.nodes ==> AccurateAt(sc, deployed, p)
    requires forall p :: p in deployed ==> p in sc.c.nodes
    ensures Sum(deployed) <= Sum(FillFrom(sc, 0, n, cnt, deployed).deployed)
  {
    forall p | p in deployed
      ensures 0 <= deployed[p]
    {
      assert AccurateAt(sc, deployed, p);
    }
    FillGrows(sc, 0, n, cnt, deployed, deployed);
    GrownTotal(deployed, FillFrom(sc, 0, n, cnt, deployed).deployed);
  }

  /** Which of the two loops a local request ends in. */
  lemma HandleBranches(sc: Scene, req: Request, offloadEnabled: bool, deployed: Deployed)
    requires Staged(sc) && SELF in sc.clusters && sc.f in sc.c.functions && 0 < req.replicas && !req.offload
    ensures var old', wanted := OldReplicas(sc), Desired(req.replicas);
            Handle(sc, req, offloadEnabled, deployed).0 ==
            if old' < wanted then FillFrom(sc, 0, Reach(sc, offloadEnabled), wanted - old', deployed).deployed
            else Shrink(sc, old' - wanted, deployed).deployed
  {
  }

  lemma OffloadRequestLeavesOne(sc: Scene, req: Request, offloadEnabled: bool, deployed: Deployed)
    requires Staged(sc) && SELF in sc.clusters && req.offload
    requires forall p :: p in deployed ==> 0 < deployed[p]
    requires 1 <= Sum(deployed) && 1 <= Desired(req.replicas)
    ensures 1 <= Sum(Handle(sc, req, offloadEnabled, deployed).0)
  {
    OffloadLeavesOne(deployed, Desired(req.replicas));
  }

  lemma LocalRequestLeavesOne(sc: Scene, req: Request, offloadEnabled: bool, deployed: Deployed)
    requires RankedScene(sc) && Distinct(sc.sorted) && !req.offload
    requires forall p :: p in sc.c.nodes ==> AccurateAt(sc, deployed, p)
    requires forall p :: p in deployed ==> p in sc.c.nodes
    requires sc.f in sc.c.functions ==> OldReplicas(sc) == Sum(deployed)
    requires 1 <= Sum(deployed) && 1 <= Desired(req.replicas)
    ensures 1 <= Sum(Handle(sc, req, offloadEnabled, deployed).0)
  {
    if 0 < req.replicas && sc.f in sc.c.functions {
      HandleBranches(sc, req, offloadEnabled, deployed);
      var wanted := Desired(req.replicas);
      if Sum(deployed) < wanted {
        ScaleUpLeavesOne(sc, Reach(sc, offloadEnabled), wanted - Sum(deployed), deployed);
      } else {
        assert AccurateAt(sc, deployed, SELF);
        ScaleDownLeaves(sc, wanted, deployed);
      }
    }
  }

  /** One request, whatever API calls fail: if it asks for at least one replica, one is left. */
  lemma RequestLeavesOne(sc: Scene, req: Request, offloadEnabled: bool, deployed: Deployed)
    requires RankedScene(sc) && Distinct(sc.sorted) && Accurate(sc, deployed)
    requires 1 <= Sum(deployed) && 1 <= Desired(req.replicas)
    ensures 1 <= Sum(Handle(sc, req, offloadEnabled, deployed).0)
  {
    if req.offload {
      forall p | p in deployed
        ensures 0 < deployed[p]
      {
        assert AccurateAt(sc, deployed, p);
      }
      OffloadRequestLeavesOne(sc, req, offloadEnabled, deployed);
    } else {
      if sc.f in sc.c.functions {
        AccurateTotal(sc, deployed);
      }
      LocalRequestLeavesOne(sc, req, offloadEnabled, deployed);
    }
  }

  // ---------- whole runs, handled by any peers ----------

  /** The deployments as peer `p` keys them: its own under SELF. */
  function SeenBy(deployed: Deployed, p: string): Deployed {
    if p in deployed then (deployed - {p})[SELF := deployed[p]] else deployed
  }

  lemma SeenByTotal(deployed: Deployed, p: string)
    requires SELF !in deployed
    ensures Sum(SeenBy(deployed, p)) == Sum(deployed)
  {
    if p in deployed {
      SumRename(SeenBy(deployed, p), deployed, SELF, p);
    }
  }

  /** Peer `p`'s keys turned back into identifiers. */
  function AsWritten(seen: Deployed, p: string): Deployed {
    if SELF in seen then (seen - {SELF})[p := seen[SELF]] else seen
  }

  lemma AsWrittenTotal(seen: Deployed, p: string)
    requires p !in seen
    ensures Sum(AsWritten(seen, p)) == Sum(seen)
  {
    if SELF in seen {
      SumRename(AsWritten(seen, p), seen, p, SELF);
    }
  }

  /** Scaling up creates deployments in ranked clusters only. */
  lemma {:induction false} FillCreatesRanked(sc: Scene, i: nat, n: nat, cnt: int, deployed: Deployed, p: string)
    requires Staged(sc) && n <= |sc.sorted| && p !in sc.c.nodes && p !in deployed
    ensures p !in FillFrom(sc, i, n, cnt, deployed).deployed
    decreases n - i
  {
    if n <= i || cnt <= 0 {
    } else {
      var q := sc.sorted[i];
      if sc.c.nodes[q].overload {
        FillCreatesRanked(sc, i + 1, n, cnt, deployed, p);
      } else {
        var v := Visit(q, Available(sc, q), sc.clusters[q], sc.initial, cnt, deployed);
        if !v.failed {
          FillCreatesRanked(sc, i + 1, n, v.cnt, v.deployed, p);
        }
      }
    }
  }

  lemma HandleCreatesFiled(sc: Scene, req: Request, offloadEnabled: bool, deployed: Deployed, p: string)
    requires Staged(sc) && SELF in sc.clusters && p != SELF && p !in sc.c.nodes && p !in deployed
    ensures p !in Handle(sc, req, offloadEnabled, deployed).0
  {
    if sc.f in sc.c.functions {
      FillCreatesRanked(sc, 0, Reach(sc, offloadEnabled), Desired(req.replicas) - OldReplicas(sc), deployed, p);
    }
  }

  /** One request, the peer that handles it, and the scene that peer sees. */
  datatype Turn = Turn(peer: string, sc: Scene, req: Request, offloadEnabled: bool)

  /** A peer handles a request for 1 to 2^31 - 1 replicas on a catalog that has caught up with `before`. */
  ghost predicate TurnStep(before: Deployed, t: Turn, after: Deployed) {
    && t.peer != SELF && t.peer !in t.sc.c.nodes && 1 <= t.req.replicas < INT32_LIMIT
    && RankedScene(t.sc) && Distinct(t.sc.sorted) && Accurate(t.sc, SeenBy(before, t.peer))
    && after == AsWritten(Handle(t.sc, t.req, t.offloadEnabled, SeenBy(before, t.peer)).0, t.peer)
  }

  /** Something is running, and every cluster is keyed by its identifier. */
  ghost predicate Running(deployed: Deployed) {
    SELF !in deployed && 1 <= Sum(deployed)
  }

  lemma TurnLeavesOne(before: Deployed, t: Turn, after: Deployed)
    requires TurnStep(before, t, after) && Running(before)
    ensures Running(after)
  {
    var seen := SeenBy(before, t.peer);
    SeenByTotal(before, t.peer);
    RequestLeavesOne(t.sc, t.req, t.offloadEnabled, seen);
    HandleCreatesFiled(t.sc, t.req, t.offloadEnabled, seen, t.peer);
    AsWrittenTotal(Handle(t.sc, t.req, t.offloadEnabled, seen).0, t.peer);
  }

  lemma TurnsLeaveOne()
    ensures forall s, t, s' :: TurnStep(s, t, s') && Running(s) ==> Running(s')
  {
    forall s, t, s' | TurnStep(s, t, s') && Running(s)
      ensures Running(s')
    {
      TurnLeavesOne(s, t, s');
    }
  }

  /** Over any run of such requests, handled by any peers in any order, the network never loses its last replica. */
  lemma RunsKeepLastReplica(trace: seq<Deployed>, turns: seq<Turn>, i: nat)
    requires IsRun(trace, turns, TurnStep) && i < |trace| && Running(trace[0])
    ensures Running(trace[i])
  {
    TurnsLeaveOne();
    RunKeeps(trace, turns, TurnStep, Running, i);
  }

  /** The total is the wanted one, or what runs elsewhere if that is more; and nothing changed there. */
  ghost predicate OnlyHere(before: Deployed, desired: int, after: Deployed) {
    && Sum(after) == Max(desired, Sum(before) - At(before, SELF))
    && (forall p :: p != SELF ==> At(after, p) == At(before, p))
  }

  lemma ShrinkExactly(sc: Scene, desired: int, deployed: Deployed)
    requires SelfFirst(sc) && AccurateAt(sc, deployed, SELF)
    requires desired <= Sum(deployed) && !Shrink(sc, Sum(deployed) - desired, deployed).failed
    ensures OnlyHere(deployed, desired, Shrink(sc, Sum(deployed) - desired, deployed).deployed)
  {
    ScaleDownTotal(sc, desired, deployed);
    forall p | p != SELF
      ensures At(Shrink(sc, Sum(deployed) - desired, deployed).deployed, p) == At(deployed, p)
    {
      ScaleDownTouchesOne(sc, Sum(deployed) - desired, deployed, p);
    }
  }

  lemma DeployedNonNegative(sc: Scene, deployed: Deployed)
    requires Accurate(sc, deployed)
    ensures 0 <= Sum(deployed)
  {
    forall p | p in deployed
      ensures 0 <= deployed[p]
    {
      assert AccurateAt(sc, deployed, p);
    }
    SumAtLeast(deployed);
  }

  lemma DownBranch(sc: Scene, req: Request, offloadEnabled: bool, deployed: Deployed)
    requires Staged(sc) && SELF in sc.clusters && sc.f in sc.c.functions && 0 < req.replicas && !req.offload
    requires Desired(req.replicas) < OldReplicas(sc) == Sum(deployed)
    ensures var v := Shrink(sc, Sum(deployed) - Desired(req.replicas), deployed);
            Handle(sc, req, offloadEnabled, deployed) == (v.deployed, if v.failed then Failed else Accepted)
  {
  }

  lemma DownBranchTotal(sc: Scene, req: Request, offloadEnabled: bool, deployed: Deployed)
    requires SelfFirst(sc) && AccurateAt(sc, deployed, SELF)
    requires sc.f in sc.c.functions && 0 < req.replicas && !req.offload
    requires Desired(req.replicas) < OldReplicas(sc) == Sum(deployed)
    ensures var (after, answer) := Handle(sc, req, offloadEnabled, deployed);
            && (answer == Accepted || answer == Failed)
            && (answer == Accepted ==> OnlyHere(deployed, Desired(req.replicas), after))
            && (NoFailure(sc.clusters[SELF]) ==> answer == Accepted)
  {
    DownBranch(sc, req, offloadEnabled, deployed);
    var cnt := Sum(deployed) - Desired(req.replicas);
    ShrinkFailsIff(sc, cnt, deployed);
    if !Shrink(sc, cnt, deployed).failed {
      ShrinkExactly(sc, Desired(req.replicas), deployed);
    }
  }

  /**
   A local request to scale down: it is accepted or fails, and not the latter if the API answers. Accepted, only this
   cluster changes, and the total is exact.
   */
  lemma LocalScaleDown(sc: Scene, req: Request, offloadEnabled: bool, deployed: Deployed)
    requires SelfFirst(sc) && Accurate(sc, deployed)
    requires sc.f in sc.c.functions && 0 < req.replicas && !req.offload && Desired(req.replicas) < Sum(deployed)
    ensures var (after, answer) := Handle(sc, req, offloadEnabled, deployed);
            && (answer == Accepted || answer == Failed)
            && (answer == Accepted ==> OnlyHere(deployed, Desired(req.replicas), after))
            && (NoFailure(sc.clusters[SELF]) ==> answer == Accepted)
  {
    AccurateTotal(sc, deployed);
    assert AccurateAt(sc, deployed, SELF);
    DownBranchTotal(sc, req, offloadEnabled, deployed);
  }

  lemma UpBranch(sc: Scene, req: Request, offloadEnabled: bool, deployed: Deployed)
    requires Staged(sc) && SELF in sc.clusters && sc.f in sc.c.functions && 0 < req.replicas && !req.offload
    requires OldReplicas(sc) < Desired(req.replicas)
    ensures var v := FillFrom(sc, 0, Reach(sc, offloadEnabled), Desired(req.replicas) - OldReplicas(sc), deployed);
            Handle(sc, req, offloadEnabled, deployed) == (v.deployed, if v.failed then Failed else Accepted)
  {
  }

  lemma UpBranchTotal(sc: Scene, req: Request, offloadEnabled: bool, deployed: Deployed)
    requires Staged(sc) && SELF in sc.clusters && sc.f in sc.c.functions && 0 < req.replicas && !req.offload
    requires OldReplicas(sc) < Desired(req.replicas)
    requires Reaches(sc, Desired(req.replicas), Reach(sc, offloadEnabled), deployed)
    ensures var (after, answer) := Handle(sc, req, offloadEnabled, deployed);
            && answer == Accepted
            && Sum(after) == Min(Desired(req.replicas), Sum(deployed) + SpareSum(sc, 0, Reach(sc, offloadEnabled)))
  {
    UpBranch(sc, req, offloadEnabled, deployed);
  }

  /** A local request to scale up: the total is exact, short of the wanted one only by what no node has room for. */
  lemma LocalScaleUp(sc: Scene, req: Request, offloadEnabled: bool, deployed: Deployed)
    requires Staged(sc) && SELF in sc.clusters && Distinct(sc.sorted) && Accurate(sc, deployed) && sc.initial == 1
    requires RoomyFrom(sc, 0, Reach(sc, offloadEnabled)) && Sound(sc, 0, Reach(sc, offloadEnabled), deployed)
    requires sc.f in sc.c.functions && !req.offload && Sum(deployed) < Desired(req.replicas)
    ensures var (after, answer) := Handle(sc, req, offloadEnabled, deployed);
            && answer == Accepted
            && Sum(after) == Min(Desired(req.replicas), Sum(deployed) + SpareSum(sc, 0, Reach(sc, offloadEnabled)))
  {
    AccurateTotal(sc, deployed);
    DeployedNonNegative(sc, deployed);
    ScaleUpExactTotal(sc, Desired(req.replicas), Reach(sc, offloadEnabled), deployed);
    UpBranchTotal(sc, req, offloadEnabled, deployed);
  }

  // ---------- the 32-bit conversion ----------

  /** A request for one to ten replicas is taken at its word; one for more, below 2^31, as one for ten. */
  lemma DesiredInRange(replicas: nat)
    ensures replicas <= 10 ==> Desired(replicas) == replicas
    ensures 10 <= replicas < 0x8000_0000 ==> Desired(replicas) == 10
  {
  }

  /** The request is taken as one for at least one replica exactly when its low 32 bits say so. */
  lemma DesiredPositiveIff(replicas: nat)
    ensures 1 <= Desired(replicas) <==> 1 <= replicas % INT32_MODULUS < INT32_LIMIT
  {
  }

  /**
   A request beyond the conversion gets past the check for zero and is then taken as zero or less. If
   everything ran here, a local request removes the last replica; an offloaded one writes that count.
   */
  lemma WrappedRequestRemovesLast(sc: Scene, req: Request, offloadEnabled: bool, deployed: Deployed)
    requires SelfFirst(sc) && Accurate(sc, deployed) && NoFailure(sc.clusters[SELF])
    requires sc.f in sc.c.functions && 1 <= Sum(deployed) == At(deployed, SELF)
    requires 0 < req.replicas && !(1 <= req.replicas % INT32_MODULUS < INT32_LIMIT)
    ensures var after := Handle(sc, req, offloadEnabled, deployed).0;
            Sum(after) <= 0 && Sum(after) == if req.offload then ToInt32(req.replicas) else 0
  {
    DesiredPositiveIff(req.replicas);
    if req.offload {
      AccurateTotal(sc, deployed);
      SumUpdate(deployed, SELF, Desired(req.replicas));
    } else {
      LocalScaleDown(sc, req, offloadEnabled, deployed);
    }
  }

  // ---------- scaling down everywhere at once ----------

  /** Peer `p` ranks itself first, knows its own count and the network's total, and its API answers. */
  ghost predicate Ready(sc: Scene, deployed: Deployed, p: string) {
    && SelfFirst(sc) && sc.f in sc.c.functions && NoFailure(sc.clusters[SELF])
    && AccurateAt(sc, SeenBy(deployed, p), SELF) && OldReplicas(sc) == Sum(deployed)
  }

  ghost predicate AllReady(scenes: map<string, Scene>, deployed: Deployed) {
    forall p {:trigger Ready(scenes[p], deployed, p)} :: p in scenes ==> Ready(scenes[p], deployed, p)
  }

  /** An accurate catalog is enough for that. */
  lemma AccurateIsReady(sc: Scene, deployed: Deployed, p: string)
    requires SELF !in deployed && SelfFirst(sc) && sc.f in sc.c.functions && NoFailure(sc.clusters[SELF])
    requires Accurate(sc, SeenBy(deployed, p))
    ensures Ready(sc, deployed, p)
  {
    SeenByTotal(deployed, p);
    AccurateTotal(sc, SeenBy(deployed, p));
    assert AccurateAt(sc, SeenBy(deployed, p), SELF);
  }

  /** In `after`, cluster `p` has what its own peer leaves there when it handles the request. */
  predicate LeftBy(sc: Scene, req: Request, offloadEnabled: bool, before: Deployed, p: string, after: Deployed) {
    && SelfFirst(sc)
    && var mine := Handle(sc, req, offloadEnabled, SeenBy(before, p)).0;
       if p in after then SELF in mine && mine[SELF] == after[p] else SELF !in mine
  }

  /** All peers handle the same request at the same time, each on the scene it sees. */
  ghost predicate Simultaneously(
    scenes: map<string, Scene>, req: Request, offloadEnabled: bool, before: Deployed, after: Deployed)
  {
    && after.Keys <= scenes.Keys
    && forall p {:trigger LeftBy(scenes[p], req, offloadEnabled, before, p, after)} ::
         p in scenes ==> LeftBy(scenes[p], req, offloadEnabled, before, p, after)
  }

  /** Cluster `p` gives up `cnt` replicas, or its deployment if it has no more than that. */
  predicate ShrunkAt(before: Deployed, cnt: int, after: Deployed, p: string) {
    && (p in after <==> p in before && cnt < before[p])
    && (p in after ==> after[p] == before[p] - cnt)
  }

  /** Every cluster does. */
  ghost predicate AllShrunk(before: Deployed, cnt: int, after: Deployed) {
    && after.Keys <= before.Keys
    && forall p {:trigger ShrunkAt(before, cnt, after, p)} :: p in before ==> ShrunkAt(before, cnt, after, p)
  }

  lemma ShrinkOwn(sc: Scene, cnt: int, seen: Deployed)
    requires SelfFirst(sc) && AccurateAt(sc, seen, SELF) && NoFailure(sc.clusters[SELF]) && 0 < cnt
    ensures var after := Shrink(sc, cnt, seen).deployed;
            && (SELF in after <==> SELF in seen && cnt < seen[SELF])
            && (SELF in after ==> after[SELF] == seen[SELF] - cnt)
  {
  }

  /** A peer scaling down gives up in its own cluster what the whole network should. */
  lemma OwnShare(
    sc: Scene, req: Request, offloadEnabled: bool, deployed: Deployed, p: string, after: Deployed)
    requires SELF !in deployed && Ready(sc, deployed, p)
    requires 0 < req.replicas && !req.offload && Desired(req.replicas) < Sum(deployed)
    ensures LeftBy(sc, req, offloadEnabled, deployed, p, after) <==>
            ShrunkAt(deployed, Sum(deployed) - Desired(req.replicas), after, p)
  {
    var seen := SeenBy(deployed, p);
    SeenByTotal(deployed, p);
    DownBranch(sc, req, offloadEnabled, seen);
    ShrinkOwn(sc, Sum(deployed) - Desired(req.replicas), seen);
  }

  /** Together they give it up once per cluster. */
  lemma SimultaneousIsAllShrunk(
    scenes: map<string, Scene>, req: Request, offloadEnabled: bool, deployed: Deployed, after: Deployed)
    requires SELF !in deployed && deployed.Keys <= scenes.Keys
    requires AllReady(scenes, deployed)
    requires 0 < req.replicas && !req.offload && Desired(req.replicas) < Sum(deployed)
    ensures Simultaneously(scenes, req, offloadEnabled, deployed, after) <==>
            AllShrunk(deployed, Sum(deployed) - Desired(req.replicas), after)
  {
    forall p | p in scenes
      ensures LeftBy(scenes[p], req, offloadEnabled, deployed, p, after) <==>
              ShrunkAt(deployed, Sum(deployed) - Desired(req.replicas), after, p)
    {
      assert Ready(scenes[p], deployed, p);
      OwnShare(scenes[p], req, offloadEnabled, deployed, p, after);
    }
  }

  lemma AllShrunkLeaves(before: Deployed, cnt: int, after: Deployed)
    requires 0 < cnt && AllShrunk(before, cnt, after)
    ensures 1 <= Sum(after) <==> exists p :: p in before && cnt < before[p]
  {
    assert forall p :: p in after ==> ShrunkAt(before, cnt, after, p);
    SumAtLeast(after);
    if p :| p in before && cnt < before[p] {
      assert ShrunkAt(before, cnt, after, p);
      assert after[p] <= Sum(after);
    } else {
      assert after == map[];
    }
  }

  /**
   If every peer scales down at the same time, a replica survives exactly when some cluster had more
   replicas than the whole network was to give up.
   */
  lemma SimultaneousScaleDown(
    scenes: map<string, Scene>, req: Request, offloadEnabled: bool, deployed: Deployed, after: Deployed)
    requires SELF !in deployed && deployed.Keys <= scenes.Keys
    requires AllReady(scenes, deployed)
    requires 0 < req.replicas && !req.offload && Desired(req.replicas) < Sum(deployed)
    requires Simultaneously(scenes, req, offloadEnabled, deployed, after)
    ensures 1 <= Sum(after) <==>
            exists p :: p in deployed && Sum(deployed) - Desired(req.replicas) < deployed[p]
  {
    SimultaneousIsAllShrunk(scenes, req, offloadEnabled, deployed, after);
    AllShrunkLeaves(deployed, Sum(deployed) - Desired(req.replicas), after);
  }

  /** What each cluster gives up. */
  function GivenUp(before: Deployed, cnt: int): Deployed {
    map p | p in before :: Min(before[p], cnt)
  }

  lemma {:induction false} AllShrunkTotal(before: Deployed, cnt: int, after: Deployed)
    requires AllShrunk(before, cnt, after)
    ensures Sum(after) == Sum(before) - Sum(GivenUp(before, cnt))
    decreases |before|
  {
    if before == map[] {
      assert after == map[] && GivenUp(before, cnt) == map[];
    } else {
      var p :| p in before;
      assert ShrunkAt(before, cnt, after, p);
      forall q | q in before - {p}
        ensures ShrunkAt(before - {p}, cnt, after - {p}, q)
      {
        assert ShrunkAt(before, cnt, after, q);
      }
      AllShrunkTotal(before - {p}, cnt, after - {p});
      SumRemove(before, p);
      SumRemove(GivenUp(before, cnt), p);
      assert GivenUp(before, cnt) - {p} == GivenUp(before - {p}, cnt);
      if p in after {
        SumRemove(after, p);
      } else {
        assert after - {p} == after;
      }
    }
  }

  /** Two clusters or more give up too much, one alone does not. */
  lemma GivenUpTooMuch(before: Deployed, cnt: int)
    requires 0 < cnt < Sum(before) && forall p :: p in before ==> 0 < before[p]
    ensures cnt < Sum(GivenUp(before, cnt)) <==> 2 <= |before|
  {
    var given := GivenUp(before, cnt);
    if p :| p in before && cnt <= before[p] {
      SumRemove(given, p);
      RestPositiveIff(given, p);
      assert given.Keys == before.Keys;
    } else {
      assert given == before;
      AtLeastTwo(before, cnt);
    }
  }

  lemma RestPositiveIff(m: map<string, int>, p: string)
    requires p in m && forall q :: q in m ==> 0 < m[q]
    ensures 0 < Sum(m - {p}) <==> 2 <= |m.Keys|
  {
    SumAtLeast(m - {p});
    assert |m.Keys - {p}| == |m.Keys| - 1;
    assert (m - {p}).Keys == m.Keys - {p};
    if q :| q in m - {p} {
      assert (m - {p})[q] <= Sum(m - {p});
      assert q in m.Keys - {p};
    } else {
      assert m - {p} == map[];
      assert m.Keys - {p} == {};
    }
  }

  lemma AtLeastTwo(m: map<string, int>, cnt: int)
    requires 0 < cnt < Sum(m) && forall p :: p in m ==> m[p] < cnt
    ensures 2 <= |m|
  {
    if m == map[] {
    } else {
      var p :| p in m;
      SumRemove(m, p);
      assert m - {p} != map[];
      var q :| q in m - {p};
      assert {p, q} <= m.Keys;
      SmallerSet({p, q}, m.Keys);
    }
  }

  lemma SmallerSet(a: set<string>, b: set<string>)
    requires a <= b
    ensures |a| <= |b|
  {
    assert |b - a| == |b| - |a|;
  }

  /**
   The exact total after all peers scaled down at once: every cluster gives up what the network should, as far as
   it can. With something wanted, the total falls below it exactly when the function ran in two clusters or more.
   */
  lemma SimultaneousTotal(
    scenes: map<string, Scene>, req: Request, offloadEnabled: bool, deployed: Deployed, after: Deployed)
    requires SELF !in deployed && deployed.Keys <= scenes.Keys
    requires AllReady(scenes, deployed)
    requires 0 < req.replicas && !req.offload && Desired(req.replicas) < Sum(deployed)
    requires Simultaneously(scenes, req, offloadEnabled, deployed, after)
    requires forall p :: p in deployed ==> 0 < deployed[p]
    ensures Sum(after) == Sum(deployed) - Sum(GivenUp(deployed, Sum(deployed) - Desired(req.replicas)))
    ensures 1 <= Desired(req.replicas) ==> (Sum(after) < Desired(req.replicas) <==> 2 <= |deployed|)
  {
    SimultaneousIsAllShrunk(scenes, req, offloadEnabled, deployed, after);
    AllShrunkTotal(deployed, Sum(deployed) - Desired(req.replicas), after);
    if 1 <= Desired(req.replicas) {
      GivenUpTooMuch(deployed, Sum(deployed) - Desired(req.replicas));
    }
  }

  /** What one of two peers sees when each runs one replica of "f". */
  function HalfScene(other: string): Scene {
    var node := NodeInfo(map["f" := 1], map["f" := 1], false);
    var status := FunctionStatus("f", "", "", "", map[], [], map[], NilPointer, 2, 2);
    Scene(State(map[SELF := node, other := node], map["f" := status]), "f", [SELF],
          map[SELF := Cluster(1, Created, true, true, true, true, true)], 1)
  }

  lemma SumTwo(m: map<string, int>, p: string, q: string)
    requires p != q && m.Keys == {p, q}
    ensures Sum(m) == m[p] + m[q]
  {
    SumRemove(m, p);
    SumRemove(m - {p}, q);
    assert m - {p} - {q} == map[];
  }

  lemma HalfSceneReady(p: string, other: string, deployed: Deployed)
    requires p != other && p != SELF && other != SELF
    requires deployed.Keys == {p, other} && deployed[p] == deployed[other] == 1
    ensures Ready(HalfScene(other), deployed, p)
  {
    SumTwo(deployed, p, other);
  }

  lemma HalfScenesReady(p: string, q: string, deployed: Deployed, scenes: map<string, Scene>)
    requires p != q && p != SELF && q != SELF
    requires deployed.Keys == {p, q} && deployed[p] == deployed[q] == 1
    requires scenes.Keys == {p, q} && scenes[p] == HalfScene(q) && scenes[q] == HalfScene(p)
    ensures AllReady(scenes, deployed)
  {
    HalfSceneReady(p, q, deployed);
    HalfSceneReady(q, p, deployed);
  }

  lemma OnesShrunk(p: string, q: string, deployed: Deployed)
    requires p != q && deployed.Keys == {p, q} && deployed[p] == deployed[q] == 1
    ensures Sum(deployed) == 2 && AllShrunk(deployed, 1, map[])
  {
    SumTwo(deployed, p, q);
  }

  /** One replica in each of two clusters, both told to keep one: both delete theirs. */
  lemma SimultaneousScaleDownLosesAll(
    p: string, q: string, deployed: Deployed, scenes: map<string, Scene>, req: Request)
    requires p != q && p != SELF && q != SELF && req.replicas == 1 && !req.offload
    requires deployed.Keys == {p, q} && deployed[p] == deployed[q] == 1
    requires scenes.Keys == {p, q} && scenes[p] == HalfScene(q) && scenes[q] == HalfScene(p)
    ensures Simultaneously(scenes, req, true, deployed, map[])
  {
    HalfScenesReady(p, q, deployed, scenes);
    OnesShrunk(p, q, deployed);
    SimultaneousIsAllShrunk(scenes, req, true, deployed, map[]);
  }
}
