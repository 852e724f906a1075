/** The scale handler at work on the deployments of one function. */
module Fleets {
  import opened FaasTypes
  import opened MapSums
  import opened CatalogState
  import opened Ranking
  import opened Scaler
  import opened ScaleRuns

  /** Accurate, ranked, something is running and something is asked for: the last replica is safe. */
  ghost predicate Protected(sc: Scene, req: Request, deployed: Deployed) {
    && RankedScene(sc) && Distinct(sc.sorted) && Accurate(sc, deployed) && 1 <= Sum(deployed)
    && 1 <= req.replicas < 0x8000_0000
  }

  /** An accurate catalog, and a local request for `wanted` replicas, less than are running. */
  ghost predicate ShrinksHere(sc: Scene, req: Request, wanted: int, deployed: Deployed) {
    SelfFirst(sc) && Accurate(sc, deployed) && sc.f in sc.c.functions && !req.offload && wanted < Sum(deployed)
  }

  /** The same with room everywhere, APIs that answer, and more wanted than are running. */
  ghost predicate GrowsHere(sc: Scene, req: Request, wanted: int, reach: nat, deployed: Deployed) {
    && Staged(sc) && Distinct(sc.sorted) && Accurate(sc, deployed) && sc.initial == 1 && sc.f in sc.c.functions
    && reach <= |sc.sorted| && RoomyFrom(sc, 0, reach) && Sound(sc, 0, reach, deployed)
    && !req.offload && Sum(deployed) < wanted
  }

  /**
   What a caller of the handler may count on, when `wanted` replicas are meant and `reach` clusters may be used: the
   last replica stays, the total is exact, and an offloaded request writes that count here.
   */
  ghost predicate Kept(sc: Scene, req: Request, wanted: int, reach: nat, before: Deployed, after: Deployed, answer: Answer)
    requires Staged(sc) && reach <= |sc.sorted|
  {
    && (Protected(sc, req, before) ==> 1 <= Sum(after))
    && (ShrinksHere(sc, req, wanted, before) && answer == Accepted ==>
          Sum(after) == Max(wanted, Sum(before) - At(before, SELF)))
    && (GrowsHere(sc, req, wanted, reach, before) ==>
          answer == Accepted && Sum(after) == Min(wanted, Sum(before) + SpareSum(sc, 0, reach)))
    && (req.offload && answer == Accepted ==> after == before[SELF := wanted])
  }

  lemma OffloadWrites(sc: Scene, req: Request, offloadEnabled: bool, deployed: Deployed)
    requires Staged(sc) && SELF in sc.clusters && req.offload
    ensures var (after, answer) := Handle(sc, req, offloadEnabled, deployed);
            answer == Accepted ==> after == deployed[SELF := Desired(req.replicas)]
  {
  }

  lemma KeepsOne(sc: Scene, req: Request, offloadEnabled: bool, deployed: Deployed)
    requires SELF in sc.clusters && Protected(sc, req, deployed)
    ensures 1 <= Sum(Handle(sc, req, offloadEnabled, deployed).0)
  {
    DesiredInRange(req.replicas);
    RequestLeavesOne(sc, req, offloadEnabled, deployed);
  }

  lemma HandleKeeps(sc: Scene, req: Request, offloadEnabled: bool, deployed: Deployed, after: Deployed, answer: Answer)
    requires Staged(sc) && SELF in sc.clusters && 0 < req.replicas
    requires (after, answer) == Handle(sc, req, offloadEnabled, deployed)
    ensures Kept(sc, req, Desired(req.replicas), Reach(sc, offloadEnabled), deployed, after, answer)
  {
    if Protected(sc, req, deployed) {
      KeepsOne(sc, req, offloadEnabled, deployed);
    }
    if ShrinksHere(sc, req, Desired(req.replicas), deployed) {
      LocalScaleDown(sc, req, offloadEnabled, deployed);
    }
    if GrowsHere(sc, req, Desired(req.replicas), Reach(sc, offloadEnabled), deployed) {
      LocalScaleUp(sc, req, offloadEnabled, deployed);
    }
    if req.offload {
      OffloadWrites(sc, req, offloadEnabled, deployed);
    }
  }

  /** When nothing was asked for, found, changed or written; every other answer is Accepted or Failed. */
  ghost predicate Answered(sc: Scene, req: Request, before: Deployed, after: Deployed, answer: Answer)
    requires SELF in sc.clusters
  {
    var cl := sc.clusters[SELF];
    && (answer == BadRequest <==> req.replicas == 0)
    && (answer == NotFound <==> req.replicas != 0 && sc.f !in sc.c.functions)
    && (answer == NothingWritten ==> req.offload && SELF in before && cl.getOk && !cl.updateOk)
    && (req.offload && answer == Failed ==> SELF !in before || !cl.getOk)
    && (req.offload && answer == Accepted ==> SELF in before && cl.getOk && cl.updateOk)
    && (answer != Accepted && answer != Failed ==> after == before)
  }

  lemma HandleAnswers(sc: Scene, req: Request, offloadEnabled: bool, deployed: Deployed)
    requires Staged(sc) && SELF in sc.clusters
    ensures var (after, answer) := Handle(sc, req, offloadEnabled, deployed);
            Answered(sc, req, deployed, after, answer)
  {
  }

  /** Nothing is to be done exactly if that many replicas run already. */
  lemma NoContentIff(sc: Scene, req: Request, offloadEnabled: bool, deployed: Deployed)
    requires Staged(sc) && SELF in sc.clusters && Accurate(sc, deployed) && sc.f in sc.c.functions
    requires 1 <= req.replicas < 0x8000_0000
    ensures Handle(sc, req, offloadEnabled, deployed).1 == NoContent <==>
            Sum(deployed) == if req.replicas <= 10 then req.replicas else 10
  {
    DesiredInRange(req.replicas);
    AccurateTotal(sc, deployed);
  }

  /** The deployments of one function in all clusters, written through their APIs. */
  class Fleet {
    var deployed: Deployed

    method ScaleUp(sc: Scene, desired: int, offloadEnabled: bool) returns (failed: bool)
      requires Staged(sc) && sc.f in sc.c.functions
      modifies this
      ensures var v := FillFrom(sc, 0, Reach(sc, offloadEnabled), desired - OldReplicas(sc), old(deployed));
              deployed == v.deployed && failed == v.failed
    {
      var scaleUpCnt := desired - ToInt32(sc.c.functions[sc.f].replicas);
      var numNode := 1;
      if offloadEnabled {
        numNode := |sc.sorted|;
      }
      ghost var result := FillFrom(sc, 0, numNode, scaleUpCnt, deployed);
      var i := 0;
      while i < numNode && scaleUpCnt > 0
        invariant 0 <= i <= numNode
        invariant FillFrom(sc, i, numNode, scaleUpCnt, deployed) == result
        decreases numNode - i
      {
        var p2pID := sc.sorted[i];
        i := i + 1;
        if sc.c.nodes[p2pID].overload {
          continue;
        }
        scaleUpCnt, failed := VisitCluster(p2pID, ToInt32(Count(sc.c.nodes[p2pID], sc.f)), sc.clusters[p2pID],
                                           sc.initial, scaleUpCnt);
        if failed {
          return;
        }
      }
      return false;
    }

    /** The loop body on one cluster. */
    method VisitCluster(p2pID: string, count: int, cl: Cluster, initial: nat, wanted: int)
      returns (scaleUpCnt: int, failed: bool)
      modifies this
      ensures Visited(deployed, scaleUpCnt, failed) == Visit(p2pID, count, cl, initial, wanted, old(deployed))
    {
      scaleUpCnt, failed := wanted, true;
      var available := count;
      if available == 0 {
        if cl.deploy == Refused || p2pID in deployed {
          return;
        }
        deployed := deployed[p2pID := initial];
        if cl.deploy == CreatedNoService {
          return;
        }
        scaleUpCnt := scaleUpCnt - 1;
        available := available + 1;
      }
      if scaleUpCnt > 0 {
        if !cl.listOk || !cl.getOk || p2pID !in deployed || !cl.updateOk {
          return;
        }
        var scaleUpCap := cl.nodes - available;
        if scaleUpCnt < scaleUpCap {
          scaleUpCap := scaleUpCnt;
        }
        deployed := deployed[p2pID := scaleUpCap + available];
        scaleUpCnt := scaleUpCnt - scaleUpCap;
      }
      failed := false;
    }

    method ScaleDown(sc: Scene, desired: int) returns (failed: bool)
      requires Staged(sc) && sc.f in sc.c.functions
      modifies this
      ensures var v := Shrink(sc, OldReplicas(sc) - desired, old(deployed));
              deployed == v.deployed && failed == v.failed
    {
      var scaleDownCnt := ToInt32(sc.c.functions[sc.f].replicas) - desired;
      var numNode := 1;
      var i := 0;
      ghost var result := Shrink(sc, scaleDownCnt, deployed);
      while i < numNode && scaleDownCnt > 0
        invariant 0 <= i <= numNode == 1
        invariant i == 0 ==> deployed == old(deployed) && Shrink(sc, scaleDownCnt, deployed) == result
        invariant i == 1 ==> deployed == result.deployed && !result.failed
        decreases numNode - i
      {
        var p2pID := sc.sorted[i];
        i := i + 1;
        var cl := sc.clusters[p2pID];
        var available := ToInt32(Count(sc.c.nodes[p2pID], sc.f));
        if available > 0 {
          if available > scaleDownCnt {
            if !cl.getOk || p2pID !in deployed || !cl.updateOk {
              return true;
            }
            deployed := deployed[p2pID := available - scaleDownCnt];
            scaleDownCnt := 0;
          } else {
            if !cl.deleteOk || p2pID !in deployed {
              return true;
            }
            deployed := deployed - {p2pID};
            if !cl.serviceOk {
              return true;
            }
            scaleDownCnt := scaleDownCnt - available;
          }
        }
      }
      return false;
    }

    /** The handler's branches. */
    method Respond(sc: Scene, req: Request, offloadEnabled: bool) returns (answer: Answer)
      requires Staged(sc) && SELF in sc.clusters
      modifies this
      ensures (deployed, answer) == Handle(sc, req, offloadEnabled, old(deployed))
    {
      if req.replicas <= 0 {
        return BadRequest;
      }
      if sc.f !in sc.c.functions {
        return NotFound;
      }
      var oldReplicas := ToInt32(sc.c.functions[sc.f].replicas);
      var replicas := ToInt32(req.replicas);
      if replicas >= MAX_REPLICAS {
        replicas := MAX_REPLICAS;
      }
      var failed := false;
      if oldReplicas == replicas {
        return NoContent;
      } else if req.offload {
        var cl := sc.clusters[SELF];
        if !cl.getOk || SELF !in deployed {
          return Failed;
        }
        if !cl.updateOk {
          return NothingWritten;
        }
        deployed := deployed[SELF := replicas];
      } else if oldReplicas < replicas {
        failed := ScaleUp(sc, replicas, offloadEnabled);
      } else {
        failed := ScaleDown(sc, replicas);
      }
      return if failed then Failed else Accepted;
    }

    /** Of a request from 1 to 2^31 - 1 at most ten replicas are meant; without offloading only this cluster is used. */
    method UpdateReplicas(sc: Scene, req: Request, offloadEnabled: bool) returns (answer: Answer)
      requires Staged(sc) && SELF in sc.clusters
      modifies this
      ensures (deployed, answer) == Handle(sc, req, offloadEnabled, old(deployed))
      ensures Answered(sc, req, old(deployed), deployed, answer)
      ensures 1 <= req.replicas < 0x8000_0000 ==>
                Kept(sc, req, if req.replicas <= 10 then req.replicas else 10,
                     if offloadEnabled then |sc.sorted| else 1, old(deployed), deployed, answer)
    {
      answer := Respond(sc, req, offloadEnabled);
      HandleAnswers(sc, req, offloadEnabled, old(deployed));
      DesiredInRange(req.replicas);
      if 1 <= req.replicas < 0x8000_0000 {
        HandleKeeps(sc, req, offloadEnabled, old(deployed), deployed, answer);
      }
    }
  }
}
