/** The mutable catalog of one peer. Its methods carry out the steps of `CatalogState`. */
module Catalog {
  import opened FaasTypes
  import opened MapSums
  import opened CatalogState
  import opened Ranking

  class Catalog {
    var nodeCatalog: map<string, NodeInfo>
    var functionCatalog: map<string, FunctionStatus>
    /** Everything published in this peer's own room, oldest first. */
    var published: seq<NodeInfoMsg>
    /** The ranked identifiers: a slice of fixed capacity and its current length. */
    const sortedP2PID: array<string>
    var ranked: nat

    constructor (capacity: nat)
      ensures nodeCatalog == map[] && functionCatalog == map[] && published == [] && ranked == 0
      ensures fresh(sortedP2PID) && sortedP2PID.Length == capacity
    {
      nodeCatalog, functionCatalog, published, ranked := map[], map[], [], 0;
      sortedP2PID := new string[capacity](_ => "");
    }

    /** The abstract state. */
    function View(): State
      reads this`nodeCatalog, this`functionCatalog
    {
      State(nodeCatalog, functionCatalog)
    }

    /** What every operation finds and leaves behind. */
    ghost predicate Valid()
      reads this`nodeCatalog, this`functionCatalog
    {
      KeysIncluded(View())
    }

    // ---------- totals ----------

    /** The running sum of one function's replicas over all nodes, visited in any order. */
    method CountReplicas(f: string) returns (total: nat)
      ensures total == Total(nodeCatalog, f)
    {
      total := 0;
      ghost var counts := CountsOf(nodeCatalog, f);
      var rest := nodeCatalog.Keys;
      ghost var done: set<string> := {};
      assert counts - done == counts;
      while rest != {}
        invariant rest + done == nodeCatalog.Keys && rest !! done
        invariant total + Sum(counts - done) == Sum(counts)
        decreases rest
      {
        var p :| p in rest;
        SumRemove(counts - done, p);
        assert counts - done - {p} == counts - (done + {p});
        if f in nodeCatalog[p].replicas {
          total := total + nodeCatalog[p].replicas[f];
        }
        rest, done := rest - {p}, done + {p};
      }
      assert counts - done == map[];
    }

    method UpdatetReplicasWithFunctionName(f: string)
      requires f in functionCatalog
      modifies this`functionCatalog
      ensures View() == Recount(old(View()), f)
      ensures f in functionCatalog && functionCatalog[f].replicas == Total(nodeCatalog, f)
      ensures SameButTotal(old(functionCatalog)[f], functionCatalog[f])
    {
      var replicas := CountReplicas(f);
      functionCatalog := functionCatalog[f := functionCatalog[f].(replicas := replicas)];
    }

    method UpdatetReplicas()
      modifies this`functionCatalog
      ensures View() == RecountAll(old(View()))
      ensures functionCatalog.Keys == old(functionCatalog).Keys
      ensures forall f :: f in functionCatalog ==>
                functionCatalog[f].replicas == Total(nodeCatalog, f) &&
                SameButTotal(old(functionCatalog)[f], functionCatalog[f])
    {
      var rest := functionCatalog.Keys;
      while rest != {}
        invariant rest <= functionCatalog.Keys == old(functionCatalog).Keys
        invariant forall f :: f in rest ==> functionCatalog[f] == old(functionCatalog)[f]
        invariant forall f :: f in functionCatalog && f !in rest ==>
                    functionCatalog[f] == old(functionCatalog)[f].(replicas := Total(nodeCatalog, f))
        decreases rest
      {
        var f :| f in rest;
        var replicas := CountReplicas(f);
        functionCatalog := functionCatalog[f := functionCatalog[f].(replicas := replicas)];
        rest := rest - {f};
      }
    }

    // ---------- publishing ----------

    /** One entry per own function, in any order. */
    method PackNodeInfoMsg() returns (msg: NodeInfoMsg)
      requires OwnFiled(View())
      ensures Packs(View(), nodeCatalog[SELF], msg)
    {
      var info := nodeCatalog[SELF];
      var fns: seq<FunctionStatus> := [];
      var rest := info.replicas.Keys;
      while rest != {}
        invariant rest <= info.replicas.Keys
        invariant |fns| + |rest| == |info.replicas|
        invariant forall i :: 0 <= i < |fns| ==>
                    PacksEntry(functionCatalog, info.replicas, fns[i]) && fns[i].name !in rest
        invariant DistinctNames(fns)
        decreases rest
      {
        var f :| f in rest;
        assert f in functionCatalog;
        fns := fns + [functionCatalog[f].(availableReplicas := info.replicas[f])];
        rest := rest - {f};
      }
      msg := NodeInfoMsg(fns, info.overload);
    }

    /** One message has been published since `before`: a packing of the present own record. */
    ghost predicate PublishedOne(before: seq<NodeInfoMsg>)
      reads this
    {
      && SELF in nodeCatalog
      && |published| == |before| + 1 && before < published
      && Packs(View(), nodeCatalog[SELF], published[|published| - 1])
    }

    method PublishInfo()
      requires OwnFiled(View())
      modifies this`published
      ensures PublishedOne(old(published))
    {
      var msg := PackNodeInfoMsg();
      published := published + [msg];
    }

    // ---------- this peer's own functions ----------

    method AddAvailableFunctions(fn: FunctionStatus)
      requires Valid()
      modifies this`nodeCatalog, this`functionCatalog, this`published
      ensures Valid() && View() == AddStep(old(View()), fn)
      ensures PublishedOne(old(published))
    {
      AddKeeps(View(), fn);
      RecordAdd(fn);
      PublishInfo();
    }

    method RecordAdd(fn: FunctionStatus)
      requires SELF in nodeCatalog
      modifies this`nodeCatalog, this`functionCatalog
      ensures View() == AddStep(old(View()), fn)
    {
      var self := nodeCatalog[SELF];
      self := self.(execTime := self.execTime[fn.name := 1]);
      self := self.(replicas := self.replicas[fn.name := fn.availableReplicas]);
      nodeCatalog := nodeCatalog[SELF := self];
      if fn.name !in functionCatalog {
        functionCatalog := functionCatalog[fn.name := fn];
      }
      UpdatetReplicasWithFunctionName(fn.name);
    }

    method UpdateAvailableFunctions(fn: FunctionStatus)
      requires Valid()
      requires fn.name in functionCatalog
      modifies this`nodeCatalog, this`functionCatalog, this`published
      ensures View() == UpdateStep(old(View()), fn) && OwnFiled(View())
      ensures Valid() <==> (0 < fn.availableReplicas ==> fn.name in old(nodeCatalog)[SELF].execTime)
      ensures PublishedOne(old(published))
    {
      UpdateKeeps(View(), fn);
      RecordUpdate(fn);
      PublishInfo();
    }

    method RecordUpdate(fn: FunctionStatus)
      requires SELF in nodeCatalog && fn.name in functionCatalog
      modifies this`nodeCatalog, this`functionCatalog
      ensures View() == UpdateStep(old(View()), fn)
    {
      var self := nodeCatalog[SELF];
      nodeCatalog := nodeCatalog[SELF := self.(replicas := self.replicas[fn.name := fn.availableReplicas])];
      UpdatetReplicasWithFunctionName(fn.name);
    }

    method DeleteAvailableFunctions(f: string)
      requires Valid()
      requires f in functionCatalog
      modifies this`nodeCatalog, this`functionCatalog, this`published
      ensures Valid() && View() == DeleteStep(old(View()), f)
      ensures PublishedOne(old(published))
    {
      DeleteKeeps(View(), f);
      RecordDelete(f);
      PublishInfo();
    }

    method RecordDelete(f: string)
      requires SELF in nodeCatalog && f in functionCatalog
      modifies this`nodeCatalog, this`functionCatalog
      ensures View() == DeleteStep(old(View()), f)
    {
      var self := nodeCatalog[SELF];
      nodeCatalog := nodeCatalog[SELF := self.(replicas := self.replicas - {f})];
      UpdatetReplicasWithFunctionName(f);
      if functionCatalog[f].replicas == 0 {
        functionCatalog := functionCatalog - {f};
      }
    }

    /** The informer's update event: report a replica count that changed, or one that fell to zero. */
    method OnDeploymentUpdate(change: DeployChange)
      requires Valid()
      modifies this`nodeCatalog, this`functionCatalog, this`published
      ensures Valid()
      ensures var report := Reported(old(View()), change);
              if report.Some? then View() == UpdateStep(old(View()), report.value) else View() == old(View())
      ensures FollowsChange(old(View()), change, View())
      ensures var n := Count(old(nodeCatalog)[SELF], change.fn.name);
              if n != 0 && ((1 <= change.oldStatus && change.newStatus == 0) || change.fn.replicas != ToInt32(n))
              then PublishedOne(old(published)) else published == old(published)
    {
      ReportedEffect(View(), change);
      var f := change.fn.name;
      var replicas := nodeCatalog[SELF].replicas;
      if f in replicas && replicas[f] > 0 {
        assert Covered(nodeCatalog[SELF], functionCatalog.Keys);
        if change.oldStatus >= 1 && change.newStatus == 0 {
          UpdateAvailableFunctions(change.fn.(availableReplicas := 0, replicas := 0));
        } else if change.fn.replicas != ToInt32(replicas[f]) {
          UpdateAvailableFunctions(change.fn.(availableReplicas := change.fn.replicas));
        }
      }
    }

    /** A new pressure reading: publish if the overload flag flips. */
    method UpdatePressure(overload: bool)
      requires Valid()
      modifies this`nodeCatalog, this`published
      ensures Valid() && View() == PressureStep(old(View()), overload)
      ensures nodeCatalog[SELF].overload == overload
      ensures if overload != old(nodeCatalog)[SELF].overload then PublishedOne(old(published))
              else published == old(published)
    {
      var self := nodeCatalog[SELF];
      if overload != self.overload {
        PressureKeeps(View(), overload);
        nodeCatalog := nodeCatalog[SELF := self.(overload := overload)];
        PublishInfo();
      }
    }

    // ---------- other peers ----------

    /** File a new peer and rank all nodes again; a peer already filed is left alone. */
    method NewNodeCatalogEntry(peer: string, measured: map<string, int>)
      requires Valid()
      requires Measured(nodeCatalog.Keys + {peer}, measured)
      requires |nodeCatalog.Keys + {peer}| <= sortedP2PID.Length
      modifies this`nodeCatalog, this`ranked, sortedP2PID
      ensures Valid() && View() == JoinStep(old(View()), peer)
      ensures peer !in old(nodeCatalog) ==>
                Ranked(measured) && nodeCatalog[peer] == NodeInfo(map[], map[], false)
      ensures forall p :: p in old(nodeCatalog) ==> p in nodeCatalog && nodeCatalog[p] == old(nodeCatalog)[p]
      ensures peer in old(nodeCatalog) ==> ranked == old(ranked) && sortedP2PID[..] == old(sortedP2PID[..])
    {
      if peer !in nodeCatalog {
        JoinKeeps(View(), peer);
        nodeCatalog := nodeCatalog[peer := EMPTY_NODE];
        assert nodeCatalog.Keys == old(nodeCatalog).Keys + {peer};
        ranked := RankNodeByRTT(nodeCatalog.Keys, measured, sortedP2PID);
      }
    }

    /** The slice ranks exactly the filed nodes. */
    ghost predicate Ranked(measured: map<string, int>)
      reads this, sortedP2PID
    {
      && Measured(nodeCatalog.Keys, measured)
      && ranked == |nodeCatalog.Keys| <= sortedP2PID.Length
      && IsRanking(nodeCatalog.Keys, measured, sortedP2PID[..ranked])
    }

    /** Take in a peer's message: its record is replaced, new functions are filed, all totals are recomputed. */
    method UnpackNodeInfoMsg(msg: NodeInfoMsg, peer: string)
      requires Valid() && peer in nodeCatalog
      modifies this`nodeCatalog, this`functionCatalog
      ensures Valid() && View() == UnpackStep(old(View()), msg, peer)
      ensures TakenIn(old(View()), msg, peer, View())
    {
      UnpackEstablishes(View(), msg, peer);
      UnpackEffect(View(), msg, peer);
      ReplaceRecord(msg, peer);
      UpdatetReplicas();
    }

    /** The loop over a message's entries, and the replacement of the sender's record. */
    method ReplaceRecord(msg: NodeInfoMsg, peer: string)
      requires peer in nodeCatalog
      modifies this`nodeCatalog, this`functionCatalog
      ensures functionCatalog == ReadFunctions(old(functionCatalog), msg.functions)
      ensures nodeCatalog ==
              old(nodeCatalog)[peer := NodeInfo(ReadTimes(old(nodeCatalog)[peer], msg.functions),
                                                Announced(msg.functions), msg.overload)]
    {
      var node := nodeCatalog[peer];
      var execTime := node.execTime;
      var updateReplicas: map<string, nat> := map[];
      var fns := msg.functions;
      for i := 0 to |fns|
        invariant execTime == ReadTimes(node, fns[..i])
        invariant functionCatalog == ReadFunctions(old(functionCatalog), fns[..i])
        invariant updateReplicas == Announced(fns[..i])
        invariant nodeCatalog == old(nodeCatalog)
      {
        var fn := fns[i];
        ReadOneMore(node, old(functionCatalog), fns, i);
        if fn.name !in execTime && fn.availableReplicas > 0 {
          execTime := execTime[fn.name := 1];
        }
        if (fn.name !in node.replicas && fn.availableReplicas > 0) ||
           (fn.name in node.replicas && node.replicas[fn.name] < fn.availableReplicas) {
          // The entry to reset is there: it was, or the step above has just made it.
          assert fn.name in execTime;
          execTime := execTime[fn.name := 1];
        }
        if fn.name !in functionCatalog {
          functionCatalog := functionCatalog[fn.name := fn];
        }
        updateReplicas := updateReplicas[fn.name := fn.availableReplicas];
      }
      assert fns[..|fns|] == fns;
      nodeCatalog := nodeCatalog[peer := NodeInfo(execTime, updateReplicas, msg.overload)];
    }
  }
}
