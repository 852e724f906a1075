/** The invocation path: the scheduler itself, its fallbacks, the exploration of new nodes, the time filter. */
module Dispatch {
  import opened FaasTypes
  import opened MapSums
  import opened CatalogState
  import opened Catalog
  import opened Scheduler

  // ---------- the scheduler ----------

  /** Some eligible node has never been measured since its last restart: its time is the sentinel 1. */
  ghost predicate SomeFresh(nodes: map<string, NodeInfo>, f: string) {
    exists p :: Fresh(nodes, f, p)
  }

  predicate Fresh(nodes: map<string, NodeInfo>, f: string, p: string) {
    Eligible(nodes, f, p) && f in nodes[p].execTime && nodes[p].execTime[f] == 1
  }

  ghost predicate SomeEligible(nodes: map<string, NodeInfo>, f: string) {
    exists p :: Eligible(nodes, f, p)
  }

  /** The fallback's reset: every eligible node's time back to 1. */
  function ResetNode(info: NodeInfo, f: string): NodeInfo {
    if 0 < Count(info, f) then info.(execTime := info.execTime[f := 1]) else info
  }

  function ResetTimes(nodes: map<string, NodeInfo>, f: string): map<string, NodeInfo> {
    map p | p in nodes :: ResetNode(nodes[p], f)
  }

  /** Everything the scheduler may do, over all visiting orders and random choices. */
  ghost predicate Scheduled(nodes: map<string, NodeInfo>, f: string, odd: bool,
                            pick: Option<string>, after: map<string, NodeInfo>)
    requires Timed(nodes, f)
  {
    if !SomeEligible(nodes, f) then pick == None && after == nodes
    else if SomeFresh(nodes, f) then pick.Some? && Fresh(nodes, f, pick.value) && after == nodes
    else if ChooserFails(nodes, f, odd) then pick == Some(SELF) && after == ResetTimes(nodes, f)
    else pick.Some? && Eligible(nodes, f, pick.value) && after == nodes
  }

  /** The times of the eligible nodes outside `rest`. */
  function TimesOutside(nodes: map<string, NodeInfo>, f: string, rest: set<string>): map<string, real>
    requires Timed(nodes, f)
  {
    map p | p in nodes && p !in rest && Eligible(nodes, f, p) :: nodes[p].execTime[f] as real
  }

  ghost predicate LeastSoFar(raw: map<string, real>, minTime: real) {
    if raw == map[] then minTime == MAX_FLOAT64 else IsSmallest(raw, minTime)
  }

  lemma LeastAfter(raw: map<string, real>, minTime: real, p: string, t: real)
    requires LeastSoFar(raw, minTime) && p !in raw && t < MAX_FLOAT64
    ensures LeastSoFar(raw[p := t], if t < minTime then t else minTime)
  {
    assert raw[p := t][p] == t;
    if raw != map[] {
      var q :| q in raw && raw[q] == minTime;
      assert raw[p := t][q] == minTime;
    }
  }

  /** The nodes outside `rest` are done: their times are in `raw`, `minTime` is the least, none is fresh. */
  ghost predicate Collected(
    nodes: map<string, NodeInfo>, f: string, rest: set<string>, raw: map<string, real>, minTime: real)
    requires Timed(nodes, f)
  {
    && rest <= nodes.Keys && raw == TimesOutside(nodes, f, rest) && LeastSoFar(raw, minTime)
    && forall p :: p in nodes && p !in rest ==> !Fresh(nodes, f, p)
  }

  lemma CollectOne(nodes: map<string, NodeInfo>, f: string, rest: set<string>, raw: map<string, real>, minTime: real,
                   p: string)
    requires Timed(nodes, f) && Collected(nodes, f, rest, raw, minTime) && p in rest && !Fresh(nodes, f, p)
    ensures Eligible(nodes, f, p) ==>
              var t := nodes[p].execTime[f] as real;
              Collected(nodes, f, rest - {p}, raw[p := t], if t < minTime then t else minTime)
    ensures !Eligible(nodes, f, p) ==> Collected(nodes, f, rest - {p}, raw, minTime)
  {
    if Eligible(nodes, f, p) {
      var t := nodes[p].execTime[f] as real;
      assert TimesOutside(nodes, f, rest - {p}) == TimesOutside(nodes, f, rest)[p := t];
      LeastAfter(raw, minTime, p, t);
    } else {
      assert TimesOutside(nodes, f, rest - {p}) == TimesOutside(nodes, f, rest);
    }
  }

  lemma AllCollected(nodes: map<string, NodeInfo>, f: string, raw: map<string, real>, minTime: real)
    requires Timed(nodes, f) && Collected(nodes, f, {}, raw, minTime)
    ensures !SomeFresh(nodes, f) && raw == RawTimes(nodes, f) && (raw != map[] ==> IsSmallest(raw, minTime))
  {
    assert TimesOutside(nodes, f, {}) == RawTimes(nodes, f);
  }

  /** First loop: stop at an unmeasured node, otherwise collect the raw times and their minimum. */
  method CollectRawTimes(f: string, nodes: map<string, NodeInfo>)
    returns (unmeasured: Option<string>, raw: map<string, real>, minTime: real)
    requires Timed(nodes, f)
    ensures unmeasured.Some? ==> Fresh(nodes, f, unmeasured.value)
    ensures unmeasured.None? ==>
              !SomeFresh(nodes, f) && raw == RawTimes(nodes, f) && (raw != map[] ==> IsSmallest(raw, minTime))
  {
    minTime := MAX_FLOAT64;
    raw := map[];
    var rest := nodes.Keys;
    while rest != {}
      invariant Collected(nodes, f, rest, raw, minTime)
      decreases rest
    {
      var p2pID :| p2pID in rest;
      if Fresh(nodes, f, p2pID) {
        return Some(p2pID), raw, minTime;
      }
      CollectOne(nodes, f, rest, raw, minTime, p2pID);
      rest := rest - {p2pID};
      if Eligible(nodes, f, p2pID) {
        var execTimeRaw := nodes[p2pID].execTime[f] as real;
        if execTimeRaw < minTime {
          minTime := execTimeRaw;
        }
        raw := raw[p2pID := execTimeRaw];
      }
    }
    AllCollected(nodes, f, raw, minTime);
    unmeasured := None;
  }

  /** The inner loop: multiply up to the factor. */
  method PowerUp(execTime: real, factor: nat) returns (weighted: real)
    requires 1 <= factor
    ensures weighted == Power(execTime, factor)
  {
    weighted := execTime;
    assert Power(execTime, 1) == execTime * Power(execTime, 0);
    for i := 1 to factor
      invariant weighted == Power(execTime, i)
    {
      weighted := weighted * execTime;
    }
  }

  lemma RatedAll(nodes: map<string, NodeInfo>, raw: map<string, real>, minTime: real)
    requires 0.0 < minTime && raw.Keys <= nodes.Keys
    ensures forall p :: p in raw ==>
              Penalised(nodes[p].overload, raw[p] / minTime, Weighted(nodes, raw, minTime)[p])
  {
    forall p | p in raw
      ensures Penalised(nodes[p].overload, raw[p] / minTime, Weighted(nodes, raw, minTime)[p])
    {
      RatedIs(nodes[p], raw[p], minTime);
    }
  }

  /** Second loop, over the raw times. */
  method MultiplyUp(nodes: map<string, NodeInfo>, raw: map<string, real>, minTime: real)
    returns (weighted: map<string, real>, prod: real)
    requires 0.0 < minTime && raw.Keys <= nodes.Keys
    ensures weighted == Weighted(nodes, raw, minTime) && prod == Product(weighted)
  {
    weighted, prod := map[], 1.0;
    var rest := raw.Keys;
    while rest != {}
      invariant rest <= raw.Keys && weighted.Keys == raw.Keys - rest
      invariant forall p :: p in weighted ==> weighted[p] == Rated(nodes[p], raw[p], minTime)
      invariant prod == Product(weighted)
      decreases rest
    {
      var p2pID :| p2pID in rest;
      rest := rest - {p2pID};
      var w := PowerUp(raw[p2pID] / minTime, Factor(nodes[p2pID]));
      ProductAdd(weighted, p2pID, w);
      prod := prod * w;
      weighted := weighted[p2pID := w];
    }
  }

  /** The weighted times, fourth powers with the penalty squared in, and their product. */
  method WeighTimes(nodes: map<string, NodeInfo>, raw: map<string, real>, minTime: real)
    returns (weighted: map<string, real>, prod: real)
    requires 0.0 < minTime && raw.Keys <= nodes.Keys
    ensures weighted == Weighted(nodes, raw, minTime) && prod == Product(weighted)
    ensures forall p :: p in raw ==> p in weighted && Penalised(nodes[p].overload, raw[p] / minTime, weighted[p])
  {
    RatedAll(nodes, raw, minTime);
    weighted, prod := MultiplyUp(nodes, raw, minTime);
  }

  /** Third loop: the choices handed to the random chooser. */
  method MakeChoices(weighted: map<string, real>, prod: real) returns (choices: map<string, int>)
    requires prod == Product(weighted)
    requires forall p :: p in weighted ==> 1.0 <= weighted[p]
    ensures choices.Keys == weighted.Keys
    ensures forall p :: p in weighted ==> choices[p] == Weight(weighted, p)
  {
    choices := map[];
    var rest := weighted.Keys;
    while rest != {}
      invariant rest <= weighted.Keys && choices.Keys == weighted.Keys - rest
      invariant forall p :: p in choices ==> choices[p] == Weight(weighted, p)
      decreases rest
    {
      var p2pID :| p2pID in rest;
      rest := rest - {p2pID};
      choices := choices[p2pID := (prod / weighted[p2pID] * 10.0).Floor];
    }
  }

  /** The weights of the eligible nodes, each at least ten. */
  method Weigh(nodes: map<string, NodeInfo>, raw: map<string, real>, minTime: real) returns (choices: map<string, int>)
    requires raw.Keys <= nodes.Keys && IsLeast(raw, minTime)
    ensures choices == Choices(nodes, raw, minTime)
    ensures forall p :: p in choices ==> 10 <= choices[p]
  {
    WeightedAtLeastOne(nodes, raw, minTime);
    var weighted, prod := WeighTimes(nodes, raw, minTime);
    choices := MakeChoices(weighted, prod);
    forall p | p in raw
      ensures 10 <= Weight(Weighted(nodes, raw, minTime), p)
    {
      WeightAtLeastTen(nodes, raw, minTime, p);
    }
  }

  /** The chooser counts the weights up, and fails when the count would reach the largest integer or stays at zero. */
  method NewChooser(choices: map<string, int>) returns (fails: bool)
    requires forall p :: p in choices ==> 0 <= choices[p]
    ensures fails <==> 0x7fff_ffff_ffff_ffff <= Sum(choices) || Sum(choices) < 1
  {
    var runningTotal := 0;
    var rest := choices.Keys;
    ghost var left := choices;
    while rest != {}
      invariant left.Keys == rest && forall p :: p in left ==> 0 <= left[p] == choices[p]
      invariant runningTotal + Sum(left) == Sum(choices) && 0 <= runningTotal < MAX_INT
      decreases rest
    {
      var p :| p in rest;
      SumRemove(left, p);
      SumAtLeast(left - {p});
      rest, left := rest - {p}, left - {p};
      if MAX_INT - runningTotal <= choices[p] {
        return true;
      }
      runningTotal := runningTotal + choices[p];
    }
    assert left == map[];
    return runningTotal < 1;
  }

  lemma NoTimesNoneEligible(nodes: map<string, NodeInfo>, f: string)
    requires Timed(nodes, f)
    ensures RawTimes(nodes, f) == map[] ==> !SomeEligible(nodes, f)
  {
    assert forall p :: Eligible(nodes, f, p) ==> p in RawTimes(nodes, f);
  }

  lemma ChooserFailsAt(nodes: map<string, NodeInfo>, f: string, odd: bool, minTime: real)
    requires Timed(nodes, f) && IsSmallest(RawTimes(nodes, f), minTime)
    ensures minTime <= 0.0 ==> (ChooserFails(nodes, f, odd) <==> odd)
    ensures minTime > 0.0 ==>
              (ChooserFails(nodes, f, odd) <==> MAX_INT <= Sum(Choices(nodes, RawTimes(nodes, f), minTime)))
  {
    if minTime > 0.0 {
      OverflowsAt(nodes, RawTimes(nodes, f), minTime);
    }
  }

  /** The chooser over the weights; it picks any choice of positive weight. */
  method Choose(nodes: map<string, NodeInfo>, f: string, raw: map<string, real>, minTime: real, odd: bool)
    returns (pick: Option<string>)
    requires Timed(nodes, f) && raw == RawTimes(nodes, f) && IsSmallest(raw, minTime)
    ensures pick.None? <==> ChooserFails(nodes, f, odd)
    ensures pick.Some? ==> Eligible(nodes, f, pick.value)
  {
    ChooserFailsAt(nodes, f, odd, minTime);
    var chosen :| chosen in raw.Keys;
    if minTime > 0.0 {
      var choices := Weigh(nodes, raw, minTime);
      var fails := NewChooser(choices);
      SumAtLeast(choices);
      assert 10 <= choices[chosen] <= Sum(choices);
      chosen :| chosen in choices.Keys && choices[chosen] > 0;
      return if fails then None else Some(chosen);
    }
    return if odd then None else Some(chosen);
  }

  /** With a recorded time of zero or less the source's weights are not numbers, and `odd` says whether the chooser fails. */
  method WeightExecTimeScheduler(c: Catalog, f: string, odd: bool) returns (pick: Option<string>)
    requires Timed(c.nodeCatalog, f)
    modifies c`nodeCatalog
    ensures Scheduled(old(c.nodeCatalog), f, odd, pick, c.nodeCatalog)
  {
    var nodes := c.nodeCatalog;
    var unmeasured, raw, minTime := CollectRawTimes(f, nodes);
    if unmeasured.Some? {
      return unmeasured;
    }
    if raw == map[] {
      NoTimesNoneEligible(nodes, f);
      return None;
    }
    var any :| any in raw.Keys;
    assert Eligible(nodes, f, any);
    pick := Choose(nodes, f, raw, minTime, odd);
    if pick.None? {
      c.nodeCatalog := ResetTimes(nodes, f);
      pick := Some(SELF);
    }
  }

  /** It fails exactly when nobody runs the function; otherwise when the pick does; and it changes no count. */
  lemma SchedulerOutcome(nodes: map<string, NodeInfo>, f: string, odd: bool,
                         pick: Option<string>, after: map<string, NodeInfo>)
    requires Timed(nodes, f) && Scheduled(nodes, f, odd, pick, after)
    ensures pick.None? <==> !SomeEligible(nodes, f)
    ensures pick.Some? ==>
              (Eligible(nodes, f, pick.value) <==>
               SomeFresh(nodes, f) || !ChooserFails(nodes, f, odd) || Eligible(nodes, f, SELF))
    ensures forall p, g :: p in nodes ==> p in after && Count(after[p], g) == Count(nodes[p], g)
  {
  }

  /** The key inclusion of the catalog is what makes every time that is loaded present. */
  lemma EligibleHasTime(st: State, f: string, p: string)
    requires KeysIncluded(st) && Eligible(st.nodes, f, p)
    ensures f in st.nodes[p].execTime && f in st.functions
  {
    assert Covered(st.nodes[p], st.functions.Keys);
  }

  /** The reset touches nothing but the times of `f`, and those only at nodes that run it, where they become 1. */
  lemma ResetEffect(nodes: map<string, NodeInfo>, f: string, p: string)
    requires p in nodes
    ensures var info, reset := nodes[p], ResetTimes(nodes, f);
            && reset.Keys == nodes.Keys
            && reset[p].replicas == info.replicas && reset[p].overload == info.overload
            && (Count(info, f) == 0 ==> reset[p] == info)
            && (0 < Count(info, f) ==> f in reset[p].execTime && reset[p].execTime[f] == 1)
            && (forall g :: g != f ==> (g in reset[p].execTime <==> g in info.execTime))
            && (forall g :: g != f && g in info.execTime ==> reset[p].execTime[g] == info.execTime[g])
  {
  }

  /** Resetting leaves something to measure, and the same nodes eligible. */
  lemma ResetIsFresh(nodes: map<string, NodeInfo>, f: string)
    requires SomeEligible(nodes, f)
    ensures SomeFresh(ResetTimes(nodes, f), f)
    ensures forall p :: Eligible(ResetTimes(nodes, f), f, p) ==> Eligible(nodes, f, p)
  {
    var p :| Eligible(nodes, f, p);
    assert Fresh(ResetTimes(nodes, f), f, p);
  }

  lemma FreshIsPicked(nodes: map<string, NodeInfo>, f: string, odd: bool,
                      pick: Option<string>, after: map<string, NodeInfo>)
    requires Timed(nodes, f) && SomeFresh(nodes, f) && Scheduled(nodes, f, odd, pick, after)
    ensures pick.Some? && Eligible(nodes, f, pick.value)
  {
  }

  /** After a fallback the next call succeeds with a node that runs the function, whatever the chooser would do. */
  lemma FallbackRecovers(nodes: map<string, NodeInfo>, f: string,
                         odd: bool, pick: Option<string>, after: map<string, NodeInfo>)
    requires SomeEligible(nodes, f) && Timed(ResetTimes(nodes, f), f)
    requires Scheduled(ResetTimes(nodes, f), f, odd, pick, after)
    ensures pick.Some? && Eligible(nodes, f, pick.value)
  {
    ResetIsFresh(nodes, f);
    FreshIsPicked(ResetTimes(nodes, f), f, odd, pick, after);
  }

  // ---------- fallback to a node without the function ----------

  /** The first position from `i` on whose node is not overloaded, or the end. */
  function FirstIdle(nodes: map<string, NodeInfo>, sorted: seq<string>, i: nat): (k: nat)
    requires i <= |sorted| && forall j :: 0 <= j < |sorted| ==> sorted[j] in nodes
    ensures i <= k <= |sorted|
    ensures forall j :: i <= j < k ==> nodes[sorted[j]].overload
    ensures k < |sorted| ==> !nodes[sorted[k]].overload
    decreases |sorted| - i
  {
    if i == |sorted| || !nodes[sorted[i]].overload then i else FirstIdle(nodes, sorted, i + 1)
  }

  /**
   The pick, and whether the function must first be deployed there. With nothing to pick and every ranked
   node overloaded the source reports no error and an empty identifier.
   */
  method FindSuitableNode(c: Catalog, f: string, sorted: seq<string>, odd: bool)
    returns (id: string, mustDeploy: bool)
    requires Timed(c.nodeCatalog, f)
    requires forall i :: 0 <= i < |sorted| ==> sorted[i] in c.nodeCatalog
    modifies c`nodeCatalog
    ensures SomeEligible(old(c.nodeCatalog), f) ==>
              !mustDeploy && Scheduled(old(c.nodeCatalog), f, odd, Some(id), c.nodeCatalog)
    ensures !SomeEligible(old(c.nodeCatalog), f) ==>
              && c.nodeCatalog == old(c.nodeCatalog)
              && var k := FirstIdle(c.nodeCatalog, sorted, 0);
                 if k < |sorted| then mustDeploy && id == sorted[k] else !mustDeploy && id == ""
  {
    var pick := WeightExecTimeScheduler(c, f, odd);
    if pick.None? {
      for i := 0 to |sorted|
        invariant c.nodeCatalog == old(c.nodeCatalog)
        invariant FirstIdle(c.nodeCatalog, sorted, 0) == FirstIdle(c.nodeCatalog, sorted, i)
      {
        if !c.nodeCatalog[sorted[i]].overload {
          return sorted[i], true;
        }
      }
      return "", false;
    }
    return pick.value, false;
  }

  // ---------- exploring a new node ----------

  predicate Idle(nodes: map<string, NodeInfo>, f: string, p: string) {
    p in nodes && Count(nodes[p], f) == 0
  }

  /** A node without replicas whose recorded time beats the current one. */
  predicate KnownFaster(nodes: map<string, NodeInfo>, f: string, current: int, p: string) {
    Idle(nodes, f, p) && f in nodes[p].execTime && nodes[p].execTime[f] < current
  }

  /** A node without replicas that has never been measured. */
  predicate Untried(nodes: map<string, NodeInfo>, f: string, p: string) {
    Idle(nodes, f, p) && f !in nodes[p].execTime
  }

  /** The first position from `i` on at which `hit` holds, or the end. */
  ghost function First(sorted: seq<string>, hit: string -> bool, i: nat): (k: nat)
    requires i <= |sorted|
    ensures i <= k <= |sorted| && (k < |sorted| ==> hit(sorted[k]))
    ensures forall j :: i <= j < k ==> !hit(sorted[j])
    decreases |sorted| - i
  {
    if i == |sorted| || hit(sorted[i]) then i else First(sorted, hit, i + 1)
  }

  /** The load of the target's own time dereferences nothing, no node is worth a try, or one is. */
  datatype Exploration = MissingTime | NoPotential | Potential(p2pID: string)

  /** The nearest node known to be faster, else the nearest one never tried, else nothing. */
  ghost function Explored(nodes: map<string, NodeInfo>, sorted: seq<string>, current: int, f: string): Exploration {
    var k := First(sorted, p => KnownFaster(nodes, f, current, p), 0);
    var u := First(sorted, p => Untried(nodes, f, p), 0);
    if k < |sorted| then Potential(sorted[k]) else if u < |sorted| then Potential(sorted[u]) else NoPotential
  }

  /** The loop over the ranking. */
  method Explore(nodes: map<string, NodeInfo>, sorted: seq<string>, current: int, f: string) returns (r: Exploration)
    requires forall i :: 0 <= i < |sorted| ==> sorted[i] in nodes && sorted[i] != ""
    ensures r != MissingTime && r == Explored(nodes, sorted, current, f)
  {
    ghost var faster := p => KnownFaster(nodes, f, current, p);
    ghost var untried := p => Untried(nodes, f, p);
    var potential := "";
    for i := 0 to |sorted|
      invariant First(sorted, faster, i) == First(sorted, faster, 0)
      invariant if potential == "" then First(sorted, untried, i) == First(sorted, untried, 0)
                else First(sorted, untried, 0) < i && potential == sorted[First(sorted, untried, 0)]
    {
      var p2pID := sorted[i];
      if f !in nodes[p2pID].replicas || nodes[p2pID].replicas[f] == 0 {
        if f in nodes[p2pID].execTime {
          if nodes[p2pID].execTime[f] < current {
            return Potential(p2pID);
          }
        } else if potential == "" {
          potential := p2pID;
        }
      }
    }
    return if potential == "" then NoPotential else Potential(potential);
  }

  /**
   What the search leaves a caller with. A node worth a try is ranked and runs nothing; its recorded time is less
   than the current one, or it has none and no ranked node that runs nothing is known to be faster; every nearer
   node is worse. Nothing is worth a try only if every ranked node that runs nothing has a time no better.
   */
  ghost predicate WorthTrying(
    nodes: map<string, NodeInfo>, sorted: seq<string>, current: int, f: string, r: Exploration)
    requires forall i :: 0 <= i < |sorted| ==> sorted[i] in nodes
  {
    match r
    case MissingTime => false
    case NoPotential =>
      forall i :: 0 <= i < |sorted| && Count(nodes[sorted[i]], f) == 0 ==>
        HasTime(nodes, sorted[i], f) && current <= nodes[sorted[i]].execTime[f]
    case Potential(p) => exists k :: 0 <= k < |sorted| && sorted[k] == p && NearestAt(nodes, sorted, current, f, k)
  }

  ghost predicate NearestAt(nodes: map<string, NodeInfo>, sorted: seq<string>, current: int, f: string, k: nat)
    requires k < |sorted| && forall i :: 0 <= i < |sorted| ==> sorted[i] in nodes
  {
    && Count(nodes[sorted[k]], f) == 0
    && if HasTime(nodes, sorted[k], f) then
         && nodes[sorted[k]].execTime[f] < current
         && (forall i :: 0 <= i < k && Count(nodes[sorted[i]], f) == 0 && HasTime(nodes, sorted[i], f) ==>
               current <= nodes[sorted[i]].execTime[f])
       else
         && (forall i :: 0 <= i < |sorted| && Count(nodes[sorted[i]], f) == 0 && HasTime(nodes, sorted[i], f) ==>
               current <= nodes[sorted[i]].execTime[f])
         && (forall i :: 0 <= i < k && Count(nodes[sorted[i]], f) == 0 ==> HasTime(nodes, sorted[i], f))
  }

  lemma ExploredMeans(nodes: map<string, NodeInfo>, sorted: seq<string>, current: int, f: string)
    requires forall i :: 0 <= i < |sorted| ==> sorted[i] in nodes
    ensures WorthTrying(nodes, sorted, current, f, Explored(nodes, sorted, current, f))
  {
    var faster, untried := p => KnownFaster(nodes, f, current, p), p => Untried(nodes, f, p);
    var k, u := First(sorted, faster, 0), First(sorted, untried, 0);
    assert forall i :: 0 <= i < k ==> !faster(sorted[i]);
    assert forall i :: 0 <= i < u ==> !untried(sorted[i]);
    if k < |sorted| {
      assert faster(sorted[k]) && NearestAt(nodes, sorted, current, f, k);
    } else if u < |sorted| {
      assert untried(sorted[u]) && NearestAt(nodes, sorted, current, f, u);
    }
  }

  method ExplorePotentialNode(nodes: map<string, NodeInfo>, sorted: seq<string>, target: string, f: string)
    returns (r: Exploration)
    requires forall i :: 0 <= i < |sorted| ==> sorted[i] in nodes && sorted[i] != ""
    ensures r == MissingTime <==> !HasTime(nodes, target, f)
    ensures r != MissingTime ==> WorthTrying(nodes, sorted, nodes[target].execTime[f], f, r)
  {
    if target !in nodes || f !in nodes[target].execTime {
      return MissingTime;
    }
    ExploredMeans(nodes, sorted, nodes[target].execTime[f], f);
    r := Explore(nodes, sorted, nodes[target].execTime[f], f);
  }

  // ---------- the execution-time filter ----------

  /** Division by two, rounding towards zero. */
  function Half(x: int): int {
    if 0 <= x then x / 2 else -(-x / 2)
  }

  /** The stored time after one more sample, in whole milliseconds; 1 stands for "not measured yet". */
  function Average(time: int, sample: nat): int {
    if time == 1 then sample else Half(time + sample)
  }

  function AverageAll(time: int, samples: seq<nat>): int {
    if samples == [] then time else Average(AverageAll(time, samples[..|samples| - 1]), samples[|samples| - 1])
  }

  function Distance(a: int, b: int): nat {
    if a < b then b - a else a - b
  }

  lemma AverageHalves(time: int, sample: nat)
    ensures 2 * Distance(Average(time, sample), sample) <= Distance(time, sample) + 1
  {
  }

  /**
   `time'` is the sample if nothing was measured yet; otherwise the mean of the old time and the sample, in whole
   milliseconds rounded towards zero.
   */
  predicate IsMean(time: int, sample: nat, time': int) {
    if time == 1 then time' == sample
    else if 0 <= time + sample then 2 * time' <= time + sample <= 2 * time' + 1
    else 2 * time' - 1 <= time + sample <= 2 * time'
  }

  /** The new time lies between the old one and the sample, at most half as far from the sample, up to rounding. */
  predicate MovesTowards(time: int, sample: nat, time': int) {
    && (time <= time' <= sample || sample <= time' <= time)
    && 2 * Distance(time', sample) <= Distance(time, sample) + 1
  }

  /** Of all nodes and functions, only the time of `f` at `peer` differs. */
  ghost predicate OnlyTime(before: map<string, NodeInfo>, after: map<string, NodeInfo>, peer: string, f: string) {
    && HasTime(before, peer, f) && after.Keys == before.Keys
    && (forall p :: p in before && p != peer ==> after[p] == before[p])
    && after[peer].replicas == before[peer].replicas && after[peer].overload == before[peer].overload
    && after[peer].execTime.Keys == before[peer].execTime.Keys
    && (forall g :: g in before[peer].execTime && g != f ==> after[peer].execTime[g] == before[peer].execTime[g])
  }

  /**
   Measuring an invocation: load the entry, filter, store. Without an entry the load dereferences nothing;
   otherwise only that entry changes.
   */
  method RecordTime(c: Catalog, peer: string, f: string, sample: nat) returns (ok: bool)
    modifies c`nodeCatalog
    ensures ok <==> HasTime(old(c.nodeCatalog), peer, f)
    ensures !ok ==> c.nodeCatalog == old(c.nodeCatalog)
    ensures ok ==> OnlyTime(old(c.nodeCatalog), c.nodeCatalog, peer, f)
    ensures ok ==>
              var time, time' := old(c.nodeCatalog)[peer].execTime[f], c.nodeCatalog[peer].execTime[f];
              && time' == Average(time, sample) && IsMean(time, sample, time') && MovesTowards(time, sample, time')
              && c.View() == StoreTimeStep(old(c.View()), peer, f, time')
  {
    if peer !in c.nodeCatalog || f !in c.nodeCatalog[peer].execTime {
      return false;
    }
    var node := c.nodeCatalog[peer];
    var tmpTime := node.execTime[f];
    AverageHalves(tmpTime, sample);
    if tmpTime == 1 {
      tmpTime := sample;
    } else {
      tmpTime := Half(tmpTime + sample);
    }
    c.nodeCatalog := c.nodeCatalog[peer := node.(execTime := node.execTime[f := tmpTime])];
    return true;
  }

  /** After a reset and at least one sample, the stored time lies between the smallest and the largest sample. */
  lemma {:induction false} AverageStaysWithin(samples: seq<nat>, lo: nat, hi: nat)
    requires samples != [] && forall i :: 0 <= i < |samples| ==> lo <= samples[i] <= hi
    ensures lo <= AverageAll(1, samples) <= hi
  {
    if |samples| == 1 {
      assert AverageAll(1, samples[..0]) == 1;
    } else {
      AverageStaysWithin(samples[..|samples| - 1], lo, hi);
    }
  }

  function PowerOfTwo(k: nat): nat {
    if k == 0 then 1 else 2 * PowerOfTwo(k - 1)
  }

  function Repeat(time: int, sample: nat, k: nat): int {
    if k == 0 then time else Average(Repeat(time, sample, k - 1), sample)
  }

  /** k equal samples shrink the distance by 2^k, up to a rounding error below 1; the sentinel does no harm. */
  lemma {:induction false} AverageConverges(time: int, sample: nat, k: nat)
    ensures Distance(Repeat(time, sample, k), sample) * PowerOfTwo(k) <= Distance(time, sample) + PowerOfTwo(k) - 1
  {
    if k == 0 {
    } else {
      AverageConverges(time, sample, k - 1);
      var d := Distance(Repeat(time, sample, k - 1), sample);
      AverageHalves(Repeat(time, sample, k - 1), sample);
      ScaleBound(Distance(Repeat(time, sample, k), sample), d, PowerOfTwo(k - 1));
    }
  }

  lemma ScaleBound(a: nat, b: nat, m: nat)
    requires 2 * a <= b + 1
    ensures a * (2 * m) <= b * m + m
  {
    calc {
      a * (2 * m);
    ==
      (2 * a) * m;
    <= { MultiplyMonotone(2 * a, b + 1, m); }
      (b + 1) * m;
    ==
      b * m + m;
    }
  }

  lemma {:induction false} MultiplyMonotone(x: nat, y: nat, m: nat)
    requires x <= y
    ensures x * m <= y * m
  {
    if m == 0 {
    } else {
      MultiplyMonotone(x, y, m - 1);
      assert x * m == x * (m - 1) + x && y * m == y * (m - 1) + y;
    }
  }

  /** Rounding down makes the filter rest at the sample or one below it, and nowhere else. */
  lemma AverageRests(time: int, sample: nat)
    ensures Average(time, sample) == time <==> time == sample || (time + 1 == sample && 0 <= time != 1)
  {
  }
}
