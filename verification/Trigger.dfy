/** One invocation: the choice of a target, whatever happens meanwhile, and the loads of its time at the end. */
module Trigger {
  import opened FaasTypes
  import opened CatalogState
  import opened Catalog
  import opened Scheduler
  import opened Dispatch
  import Gossip

  /**
   What the handler is called with, and what it meets: `odd` if weights that are not numbers make the random
   choice fail, `ready` if a deployment it had to make comes up in time, `proxied` if the method is allowed,
   the lookup finds an endpoint and a request is sent there.
   */
  datatype Call = Call(f: string, offloaded: bool, offloadEnabled: bool, sorted: seq<string>,
                       odd: bool, ready: bool, proxied: bool)

  /** The request stays here: it was offloaded to this peer, or offloading is off. */
  predicate StaysHere(call: Call) {
    call.offloaded || !call.offloadEnabled
  }

  /** The ranking lists filed nodes, and the times of the nodes that run the function are 64-bit values. */
  predicate Callable(nodes: map<string, NodeInfo>, call: Call) {
    && SELF in nodes && Timed(nodes, call.f)
    && forall i :: 0 <= i < |call.sorted| ==> call.sorted[i] in nodes
  }

  // ---------- the choice ----------

  /** The target, and whether the function must first be deployed there. */
  datatype Choice = Choice(target: string, mustDeploy: bool)

  /** Everything the choice may do: the choice itself, and the catalog afterwards. */
  ghost predicate Targets(nodes: map<string, NodeInfo>, call: Call, choice: Choice, after: map<string, NodeInfo>)
    requires Callable(nodes, call)
  {
    if StaysHere(call) then choice == Choice(SELF, false) && after == nodes
    else if SomeEligible(nodes, call.f) then
      !choice.mustDeploy && Scheduled(nodes, call.f, call.odd, Some(choice.target), after)
    else
      var k := FirstIdle(nodes, call.sorted, 0);
      after == nodes && choice == if k < |call.sorted| then Choice(call.sorted[k], true) else Choice("", false)
  }

  /** The catalog before the call decides whether the target runs the function. */
  ghost predicate WillRun(nodes: map<string, NodeInfo>, call: Call)
    requires Callable(nodes, call)
  {
    if StaysHere(call) then Eligible(nodes, call.f, SELF)
    else
      && SomeEligible(nodes, call.f)
      && (SomeFresh(nodes, call.f) || !ChooserFails(nodes, call.f, call.odd) || Eligible(nodes, call.f, SELF))
  }

  /** The target runs the function exactly when it was found by the scheduler proper, or the fallback happens to. */
  lemma TargetRunsIff(nodes: map<string, NodeInfo>, call: Call, choice: Choice, after: map<string, NodeInfo>)
    requires Callable(nodes, call) && Targets(nodes, call, choice, after)
    ensures Eligible(nodes, call.f, choice.target) <==> WillRun(nodes, call)
  {
    if !StaysHere(call) && SomeEligible(nodes, call.f) {
      SchedulerOutcome(nodes, call.f, call.odd, Some(choice.target), after);
    } else if !StaysHere(call) {
      assert !Eligible(nodes, call.f, choice.target);
    }
  }

  /** Resetting a time keeps what a node covers and which times it has. */
  lemma ResetKeeps(info: NodeInfo, f: string, known: set<string>)
    requires Covered(info, known)
    ensures Covered(ResetNode(info, f), known)
    ensures ResetNode(info, f).execTime.Keys == info.execTime.Keys && ResetNode(info, f).replicas == info.replicas
  {
  }

  lemma ResetTimesKeep(st: State, f: string)
    requires KeysIncluded(st)
    ensures KeysIncluded(st.(nodes := ResetTimes(st.nodes, f)))
    ensures forall p :: HasTime(ResetTimes(st.nodes, f), p, f) <==> HasTime(st.nodes, p, f)
  {
    forall p | p in st.nodes
      ensures Covered(ResetNode(st.nodes[p], f), st.functions.Keys)
      ensures ResetNode(st.nodes[p], f).execTime.Keys == st.nodes[p].execTime.Keys
      ensures ResetNode(st.nodes[p], f).replicas == st.nodes[p].replicas
    {
      ResetKeeps(st.nodes[p], f, st.functions.Keys);
    }
  }

  lemma TargetsChange(nodes: map<string, NodeInfo>, call: Call, choice: Choice, after: map<string, NodeInfo>)
    requires Callable(nodes, call) && Targets(nodes, call, choice, after)
    ensures after == nodes || after == ResetTimes(nodes, call.f)
  {
  }

  /** Choosing changes no node, no count, and not whether a time is recorded. */
  lemma TargetsKeep(st: State, call: Call, choice: Choice, after: map<string, NodeInfo>)
    requires Callable(st.nodes, call) && KeysIncluded(st) && Targets(st.nodes, call, choice, after)
    ensures after.Keys == st.nodes.Keys && KeysIncluded(st.(nodes := after))
    ensures forall p :: HasTime(after, p, call.f) <==> HasTime(st.nodes, p, call.f)
  {
    TargetsChange(st.nodes, call, choice, after);
    ResetTimesKeep(st, call.f);
  }

  // ---------- the loads ----------

  /** The handler returns early, before any load, when the deployment it waits for does not come up. */
  predicate GivesUp(call: Call, choice: Choice) {
    choice.mustDeploy && !call.ready
  }

  /**
   With these nodes at the end of the call, a time is loaded that is not there. A call that stays here loads
   it only to record a measurement; any other does so in any case, to look for a better node.
   */
  predicate LoadMisses(nodes: map<string, NodeInfo>, call: Call, choice: Choice) {
    && !GivesUp(call, choice)
    && (StaysHere(call) ==> call.proxied)
    && !HasTime(nodes, choice.target, call.f)
  }

  /**
   The exact condition, from the catalog before the choice and what is filed meanwhile. `filed` are the nodes
   whose time of the function is filed between the choice and the loads.
   */
  ghost predicate WillMiss(nodes: map<string, NodeInfo>, call: Call, filed: set<string>)
    requires Callable(nodes, call)
  {
    if StaysHere(call) then call.proxied && Unfiled(nodes, call.f, SELF, filed)
    else if SomeEligible(nodes, call.f) then
      && !SomeFresh(nodes, call.f) && ChooserFails(nodes, call.f, call.odd)
      && Unfiled(nodes, call.f, SELF, filed)
    else
      var k := FirstIdle(nodes, call.sorted, 0);
      k < |call.sorted| ==> call.ready && Unfiled(nodes, call.f, call.sorted[k], filed)
  }

  /** Neither there before nor filed meanwhile. */
  predicate Unfiled(nodes: map<string, NodeInfo>, f: string, p: string, filed: set<string>) {
    !HasTime(nodes, p, f) && p !in filed
  }

  /** `later` has the times of `nodes`, those of `filed`, and no other; the empty identifier names no node. */
  ghost predicate FiledMeanwhile(
    nodes: map<string, NodeInfo>, later: map<string, NodeInfo>, f: string, filed: set<string>)
  {
    && "" !in later
    && forall p :: HasTime(later, p, f) <==> HasTime(nodes, p, f) || p in filed
  }

  /** Whatever the random choice, and whatever happens meanwhile, that is when a load misses. */
  lemma MissingEntryIff(st: State, call: Call, choice: Choice, after: map<string, NodeInfo>,
                        later: map<string, NodeInfo>, filed: set<string>)
    requires Callable(st.nodes, call) && KeysIncluded(st) && Targets(st.nodes, call, choice, after)
    requires FiledMeanwhile(st.nodes, later, call.f, filed)
    ensures LoadMisses(later, call, choice) <==> WillMiss(st.nodes, call, filed)
  {
    if !StaysHere(call) && SomeEligible(st.nodes, call.f) {
      if SomeFresh(st.nodes, call.f) || !ChooserFails(st.nodes, call.f, call.odd) {
        EligibleHasTime(st, call.f, choice.target);
      }
    }
  }

  /** The nodes whose time is filed in the catalog of `p` from position `i` to `j` of a run. */
  ghost function FiledNodes(
    trace: seq<Gossip.System>, events: seq<Gossip.Event>, i: nat, j: nat, p: string, f: string): set<string>
    requires j <= |events| <= |trace| && j < |trace| && p in trace[j].peers
  {
    set q | q in trace[j].peers[p].nodes && Gossip.FiledBetween(trace, events, i, j, p, q, f)
  }

  /** What happens between two states of a run files exactly those times. */
  lemma RunFilesMeanwhile(
    trace: seq<Gossip.System>, events: seq<Gossip.Event>, i: nat, j: nat, p: string, f: string)
    requires Gossip.Run(trace, events) && i <= j < |trace|
    requires p in trace[i].peers && p in trace[j].peers && "" !in trace[j].peers
    ensures FiledMeanwhile(trace[i].peers[p].nodes, trace[j].peers[p].nodes, f, FiledNodes(trace, events, i, j, p, f))
  {
    Gossip.RunInv(trace, events, j);
    assert Gossip.CatalogOk(trace[j], p);
    forall q
      ensures HasTime(trace[j].peers[p].nodes, q, f) <==>
              HasTime(trace[i].peers[p].nodes, q, f) || q in FiledNodes(trace, events, i, j, p, f)
    {
      Gossip.RunTimes(trace, events, i, j, p, q, f);
    }
  }

  /**
   In every run of the network, for a call that chooses in one state and loads in any later one: the catalog at
   the choice and the times filed in between decide whether a load misses, and the catalog at the choice
   decides whether the target runs the function.
   */
  lemma RunsMissEntryIff(trace: seq<Gossip.System>, events: seq<Gossip.Event>, i: nat, j: nat, p: string,
                         call: Call, choice: Choice, after: map<string, NodeInfo>)
    requires Gossip.Run(trace, events) && i <= j < |trace|
    requires p in trace[i].peers && p in trace[j].peers && "" !in trace[j].peers
    requires Callable(trace[i].peers[p].nodes, call) && Targets(trace[i].peers[p].nodes, call, choice, after)
    ensures LoadMisses(trace[j].peers[p].nodes, call, choice) <==>
            WillMiss(trace[i].peers[p].nodes, call, FiledNodes(trace, events, i, j, p, call.f))
    ensures Eligible(trace[i].peers[p].nodes, call.f, choice.target) <==> WillRun(trace[i].peers[p].nodes, call)
  {
    Gossip.RunInv(trace, events, i);
    assert Gossip.CatalogOk(trace[i], p);
    RunFilesMeanwhile(trace, events, i, j, p, call.f);
    MissingEntryIff(trace[i].peers[p], call, choice, after, trace[j].peers[p].nodes,
                    FiledNodes(trace, events, i, j, p, call.f));
    TargetRunsIff(trace[i].peers[p].nodes, call, choice, after);
  }

  // ---------- two calls that miss ----------

  lemma MillionFold(info: NodeInfo)
    requires !info.overload
    ensures MAX_INT as real <= Rated(info, 2_000_000.0, 2.0) * 10.0
  {
    var x := 2_000_000.0 / 2.0;
    assert Power(x, 0) == 1.0 && Power(x, 1) == x * Power(x, 0) && Power(x, 2) == x * Power(x, 1);
    assert Power(x, 3) == x * Power(x, 2) && Power(x, 4) == x * Power(x, 3);
    assert Rated(info, 2_000_000.0, 2.0) == Power(x, 4);
  }

  /** Two other clusters run `f`, one a million times slower than the other, and this one never did. */
  predicate FarApart(nodes: map<string, NodeInfo>, f: string, near: string, far: string) {
    && near != far && near != SELF && far != SELF && nodes.Keys == {SELF, near, far}
    && nodes[SELF] == EMPTY_NODE
    && nodes[near] == NodeInfo(map[f := 2], map[f := 1], false)
    && nodes[far] == NodeInfo(map[f := 2_000_000], map[f := 1], false)
  }

  lemma FarApartTimes(nodes: map<string, NodeInfo>, f: string, near: string, far: string)
    requires FarApart(nodes, f, near, far)
    ensures Timed(nodes, f) && RawTimes(nodes, f).Keys == {near, far}
    ensures RawTimes(nodes, f)[near] == 2.0 && RawTimes(nodes, f)[far] == 2_000_000.0
    ensures Eligible(nodes, f, near) && forall p :: !Fresh(nodes, f, p)
  {
    var raw := RawTimes(nodes, f);
    assert forall p :: p in raw <==> p == near || p == far;
  }

  lemma FarApartFails(nodes: map<string, NodeInfo>, f: string, near: string, far: string, odd: bool)
    requires FarApart(nodes, f, near, far) && Timed(nodes, f)
    ensures ChooserFails(nodes, f, odd)
  {
    FarApartTimes(nodes, f, near, far);
    MillionFold(nodes[far]);
    SlowNodeOverflows(nodes, RawTimes(nodes, f), 2.0, near, far);
  }

  /** The weights overflow, the chooser fails, the fallback sends the call here, and no time is here. */
  lemma FallbackCanMiss(nodes: map<string, NodeInfo>, call: Call, near: string, far: string)
    requires FarApart(nodes, call.f, near, far) && !StaysHere(call) && call.sorted == [SELF]
    ensures Callable(nodes, call) && Targets(nodes, call, Choice(SELF, false), ResetTimes(nodes, call.f))
    ensures LoadMisses(ResetTimes(nodes, call.f), call, Choice(SELF, false))
  {
    FarApartTimes(nodes, call.f, near, far);
    FarApartFails(nodes, call.f, near, far, call.odd);
  }

  /**
   Offloading is off and another cluster runs the function. Its endpoints here have just come up, but the informer
   has not filed it yet: the request is sent, and there is no time to record it in.
   */
  lemma EndpointBeforeTimeMisses(nodes: map<string, NodeInfo>, call: Call)
    requires SELF in nodes && nodes[SELF] == EMPTY_NODE && Timed(nodes, call.f)
    requires !call.offloadEnabled && call.sorted == [SELF] && call.proxied
    ensures Callable(nodes, call) && Targets(nodes, call, Choice(SELF, false), nodes)
    ensures LoadMisses(nodes, call, Choice(SELF, false))
  {
  }

  // ---------- the handler ----------

  method ChooseTarget(c: Catalog, call: Call) returns (choice: Choice)
    requires Callable(c.nodeCatalog, call)
    modifies c`nodeCatalog
    ensures Targets(old(c.nodeCatalog), call, choice, c.nodeCatalog)
  {
    if StaysHere(call) {
      return Choice(SELF, false);
    }
    var target, mustDeploy := FindSuitableNode(c, call.f, call.sorted, call.odd);
    return Choice(target, mustDeploy);
  }

  datatype Outcome = NotCatalogued | NotReady | MissingEntry | Done(explored: Exploration)

  /** The rest of the call, on whatever catalog it then finds. */
  method FinishCall(c: Catalog, call: Call, choice: Choice, sample: nat) returns (r: Outcome)
    requires c.Valid() && (StaysHere(call) ==> choice == Choice(SELF, false))
    requires forall i :: 0 <= i < |call.sorted| ==> call.sorted[i] in c.nodeCatalog && call.sorted[i] != ""
    modifies c`nodeCatalog
    ensures c.Valid()
    ensures r == NotReady <==> choice.mustDeploy && !call.ready
    ensures r == MissingEntry <==> LoadMisses(old(c.nodeCatalog), call, choice)
    ensures r == MissingEntry <==>
            && !(choice.mustDeploy && !call.ready)
            && !HasTime(old(c.nodeCatalog), choice.target, call.f)
            && (call.proxied || (!call.offloaded && call.offloadEnabled))
    ensures r.Done? ==> r.explored != MissingTime
    ensures r != NotCatalogued
  {
    if choice.mustDeploy && !call.ready {
      return NotReady;
    }
    ghost var before := c.View();
    if call.proxied {
      var ok := RecordTime(c, choice.target, call.f, sample);
      if !ok {
        return MissingEntry;
      }
      StoreTimeKeeps(before, choice.target, call.f, c.nodeCatalog[choice.target].execTime[call.f]);
    }
    if StaysHere(call) {
      return Done(NoPotential);
    }
    var explored := ExplorePotentialNode(c.nodeCatalog, call.sorted, choice.target, call.f);
    return if explored == MissingTime then MissingEntry else Done(explored);
  }

  /** The whole call when nothing is filed meanwhile. */
  method TriggerFunction(c: Catalog, call: Call, sample: nat) returns (r: Outcome)
    requires c.Valid() && Callable(c.nodeCatalog, call) && "" !in c.nodeCatalog
    modifies c`nodeCatalog
    ensures c.Valid()
    ensures r == NotCatalogued <==> call.f !in c.functionCatalog
    ensures r == MissingEntry <==> call.f in c.functionCatalog && WillMiss(old(c.nodeCatalog), call, {})
    ensures r.Done? ==> r.explored != MissingTime
  {
    if call.f !in c.functionCatalog {
      return NotCatalogued;
    }
    ghost var before := c.View();
    var choice := ChooseTarget(c, call);
    TargetsKeep(before, call, choice, c.nodeCatalog);
    MissingEntryIff(before, call, choice, c.nodeCatalog, c.nodeCatalog, {});
    r := FinishCall(c, call, choice, sample);
  }
}
