/**
 The state one peer keeps about the whole network, and every step that changes it, as values.
 The classes in `Catalog` are proved to carry out exactly these steps.
 */
module CatalogState {
  import opened FaasTypes
  import opened MapSums

  /** The key under which a peer files its own cluster; other peers use their peer identifier. */
  const SELF := "0"

  datatype NodeInfo = NodeInfo(execTime: map<string, int>, replicas: map<string, nat>, overload: bool)

  datatype NodeInfoMsg = NodeInfoMsg(functions: seq<FunctionStatus>, overload: bool)

  datatype State = State(nodes: map<string, NodeInfo>, functions: map<string, FunctionStatus>)

  const EMPTY_NODE := NodeInfo(map[], map[], false)

  /** Reading a Go map: a missing key reads as zero. */
  function Count(info: NodeInfo, f: string): nat {
    if f in info.replicas then info.replicas[f] else 0
  }

  /** A time is recorded for `f` at node `p`: what a load of it dereferences. */
  predicate HasTime(nodes: map<string, NodeInfo>, p: string, f: string) {
    p in nodes && f in nodes[p].execTime
  }

  function CountsOf(nodes: map<string, NodeInfo>, f: string): map<string, nat> {
    map p | p in nodes :: Count(nodes[p], f)
  }

  /** The network-wide number of replicas of `f`, as this state sees the network. */
  ghost function Total(nodes: map<string, NodeInfo>, f: string): nat {
    var counts := CountsOf(nodes, f);
    SumAtLeast(counts);
    Sum(counts)
  }

  lemma TotalBounds(nodes: map<string, NodeInfo>, f: string)
    ensures forall p :: p in nodes ==> Count(nodes[p], f) <= Total(nodes, f)
    ensures 0 < Total(nodes, f) ==> exists p :: p in nodes && 0 < Count(nodes[p], f)
  {
    var counts := CountsOf(nodes, f);
    SumAtLeast(counts);
    forall p | p in nodes
      ensures Count(nodes[p], f) <= Total(nodes, f)
    {
      assert counts[p] <= Sum(counts);
    }
    if 0 < Sum(counts) {
      SumPositive(counts);
    }
  }

  // ---------- invariants ----------

  /** A node's positive counts are for catalogued functions that have an execution time at that node. */
  ghost predicate Covered(info: NodeInfo, known: set<string>) {
    forall f :: f in info.replicas && 0 < info.replicas[f] ==> f in known && f in info.execTime
  }

  /** This peer's own functions are catalogued, and every function is filed under its name: what packing reads. */
  ghost predicate OwnFiled(st: State) {
    && SELF in st.nodes
    && st.nodes[SELF].replicas.Keys <= st.functions.Keys
    && (forall f :: f in st.functions ==> st.functions[f].name == f)
  }

  /** Every entry the catalog and the scheduler dereference without a check is there. */
  ghost predicate KeysIncluded(st: State) {
    OwnFiled(st) && forall p :: p in st.nodes ==> Covered(st.nodes[p], st.functions.Keys)
  }

  /** The cached total agrees with the plain sum. */
  ghost predicate TotalsAgree(st: State) {
    forall f :: f in st.functions ==> st.functions[f].replicas == Total(st.nodes, f)
  }

  /** Two summaries of a function that agree in everything but the cached total. */
  predicate SameButTotal(a: FunctionStatus, b: FunctionStatus) {
    && b.name == a.name && b.image == a.image && b.namespace == a.namespace
    && b.envProcess == a.envProcess && b.envVars == a.envVars && b.secrets == a.secrets
    && b.labels == a.labels && b.annotations == a.annotations && b.availableReplicas == a.availableReplicas
  }

  // ---------- steps ----------

  ghost function Recount(st: State, f: string): State
    requires f in st.functions
  {
    st.(functions := st.functions[f := st.functions[f].(replicas := Total(st.nodes, f))])
  }

  ghost function RecountAll(st: State): State {
    st.(functions := map f | f in st.functions :: st.functions[f].(replicas := Total(st.nodes, f)))
  }

  function WithSelf(st: State, info: NodeInfo): State {
    st.(nodes := st.nodes[SELF := info])
  }

  function WithCount(info: NodeInfo, f: string, n: nat): NodeInfo {
    info.(replicas := info.replicas[f := n])
  }

  ghost function AddStep(st: State, fn: FunctionStatus): State
    requires SELF in st.nodes
  {
    var self := st.nodes[SELF];
    var added := WithCount(self.(execTime := self.execTime[fn.name := 1]), fn.name, fn.availableReplicas);
    var known := if fn.name in st.functions then st.functions else st.functions[fn.name := fn];
    Recount(WithSelf(st, added).(functions := known), fn.name)
  }

  ghost function UpdateStep(st: State, fn: FunctionStatus): State
    requires SELF in st.nodes && fn.name in st.functions
  {
    Recount(WithSelf(st, WithCount(st.nodes[SELF], fn.name, fn.availableReplicas)), fn.name)
  }

  ghost function DeleteStep(st: State, f: string): State
    requires SELF in st.nodes && f in st.functions
  {
    var self := st.nodes[SELF];
    var counted := Recount(WithSelf(st, self.(replicas := self.replicas - {f})), f);
    if counted.functions[f].replicas == 0
    then counted.(functions := counted.functions - {f})
    else counted
  }

  function JoinStep(st: State, peer: string): State {
    if peer in st.nodes then st else st.(nodes := st.nodes[peer := EMPTY_NODE])
  }

  function PressureStep(st: State, overload: bool): State
    requires SELF in st.nodes
  {
    WithSelf(st, st.nodes[SELF].(overload := overload))
  }

  /** Storing a measured execution time (or the fallback's reset) into an existing entry. */
  function StoreTimeStep(st: State, peer: string, f: string, time: int): State
    requires peer in st.nodes && f in st.nodes[peer].execTime
  {
    var info := st.nodes[peer];
    st.(nodes := st.nodes[peer := info.(execTime := info.execTime[f := time])])
  }

  /** What the deployment informer saw: the two objects' status replicas and the new object's summary. */
  datatype DeployChange = DeployChange(oldStatus: nat, newStatus: nat, fn: FunctionStatus)

  /** The status the informer reports for a change, if it reports one. */
  function Reported(st: State, change: DeployChange): Option<FunctionStatus>
    requires SELF in st.nodes
  {
    var self := st.nodes[SELF];
    var f := change.fn.name;
    if f !in self.replicas || self.replicas[f] == 0 then None
    else if 1 <= change.oldStatus && change.newStatus == 0 then
      Some(change.fn.(availableReplicas := 0, replicas := 0))
    else if change.fn.replicas != ToInt32(self.replicas[f]) then
      Some(change.fn.(availableReplicas := change.fn.replicas))
    else None
  }

  // ---------- gossip messages ----------

  /** The count map a message stands for; the last entry for a name wins. */
  function Announced(fns: seq<FunctionStatus>): (r: map<string, nat>)
    ensures forall f :: f in r <==> exists i :: 0 <= i < |fns| && fns[i].name == f
  {
    if fns == [] then map[] else
      var last := fns[|fns| - 1];
      Announced(fns[..|fns| - 1])[last.name := last.availableReplicas]
  }

  ghost predicate DistinctNames(fns: seq<FunctionStatus>) {
    forall i, j :: 0 <= i < j < |fns| ==> fns[i].name != fns[j].name
  }

  /**
   `msg` is a packing of this peer's own record: one entry for each own function, in any order,
   copied from the catalog with the local count filled in.
   */
  ghost predicate Packs(st: State, info: NodeInfo, msg: NodeInfoMsg) {
    && msg.overload == info.overload
    && DistinctNames(msg.functions)
    && |msg.functions| == |info.replicas|
    && (forall i :: 0 <= i < |msg.functions| ==> PacksEntry(st.functions, info.replicas, msg.functions[i]))
  }

  /** A catalogued function with the local count filled in. */
  predicate PacksEntry(known: map<string, FunctionStatus>, counts: map<string, nat>, fn: FunctionStatus) {
    && fn.name in counts && fn.name in known
    && fn == known[fn.name].(availableReplicas := counts[fn.name])
  }

  /** The sender's execution times after one message entry: make room for a new one, then reset it. */
  function ReadTime(info: NodeInfo, times: map<string, int>, fn: FunctionStatus): map<string, int> {
    var f := fn.name;
    var created := if f !in times && fn.availableReplicas > 0 then times[f := 1] else times;
    if (f !in info.replicas && fn.availableReplicas > 0) || (f in info.replicas && info.replicas[f] < fn.availableReplicas)
    then created[f := 1] else created
  }

  function ReadTimes(info: NodeInfo, fns: seq<FunctionStatus>): map<string, int> {
    if fns == [] then info.execTime else
      ReadTime(info, ReadTimes(info, fns[..|fns| - 1]), fns[|fns| - 1])
  }

  /** The function catalog after the entries of a message: an unknown function is filed under its name. */
  function ReadFunctions(known: map<string, FunctionStatus>, fns: seq<FunctionStatus>): (r: map<string, FunctionStatus>)
    ensures r.Keys == known.Keys + Announced(fns).Keys
    ensures forall f :: f in known ==> r[f] == known[f]
    ensures forall f :: f in r && f !in known ==> r[f].name == f
  {
    if fns == [] then known else
      var last := fns[|fns| - 1];
      var r := ReadFunctions(known, fns[..|fns| - 1]);
      if last.name in r then r else r[last.name := last]
  }

  /** One more entry of a message. */
  lemma ReadOneMore(info: NodeInfo, known: map<string, FunctionStatus>, fns: seq<FunctionStatus>, i: nat)
    requires i < |fns|
    ensures ReadTimes(info, fns[..i + 1]) == ReadTime(info, ReadTimes(info, fns[..i]), fns[i])
    ensures var r := ReadFunctions(known, fns[..i]);
            ReadFunctions(known, fns[..i + 1]) == if fns[i].name in r then r else r[fns[i].name := fns[i]]
    ensures Announced(fns[..i + 1]) == Announced(fns[..i])[fns[i].name := fns[i].availableReplicas]
  {
    assert fns[..i + 1][..i] == fns[..i];
  }

  ghost function UnpackStep(st: State, msg: NodeInfoMsg, peer: string): State
    requires peer in st.nodes
  {
    var info := NodeInfo(ReadTimes(st.nodes[peer], msg.functions), Announced(msg.functions), msg.overload);
    RecountAll(State(st.nodes[peer := info], ReadFunctions(st.functions, msg.functions)))
  }

  // ---------- what unpacking one message does ----------

  /** Announcing `n` replicas of `f` restarts the receiver's measurement of `f` at that node. */
  predicate Restarts(info: NodeInfo, f: string, n: nat) {
    0 < n && (f !in info.execTime || f !in info.replicas || info.replicas[f] < n)
  }

  ghost predicate RestartedBy(info: NodeInfo, fns: seq<FunctionStatus>, f: string) {
    exists i :: 0 <= i < |fns| && fns[i].name == f && Restarts(info, f, fns[i].availableReplicas)
  }

  lemma RestartedByLast(info: NodeInfo, fns: seq<FunctionStatus>, f: string)
    requires fns != []
    ensures var last := fns[|fns| - 1];
            RestartedBy(info, fns, f) <==>
            RestartedBy(info, fns[..|fns| - 1], f) || (last.name == f && Restarts(info, f, last.availableReplicas))
  {
    var front := fns[..|fns| - 1];
    if RestartedBy(info, fns, f) {
      var i :| 0 <= i < |fns| && fns[i].name == f && Restarts(info, f, fns[i].availableReplicas);
      assert i < |front| ==> front[i] == fns[i];
    }
    if RestartedBy(info, front, f) {
      var i :| 0 <= i < |front| && front[i].name == f && Restarts(info, f, front[i].availableReplicas);
      assert fns[i] == front[i];
    }
  }

  /** For any message, even one naming a function twice: a time is 1 if some entry restarts it, else as before. */
  lemma {:induction false} ReadTimesAt(info: NodeInfo, fns: seq<FunctionStatus>, f: string)
    ensures f in ReadTimes(info, fns) <==> f in info.execTime || RestartedBy(info, fns, f)
    ensures f in ReadTimes(info, fns) ==>
              ReadTimes(info, fns)[f] == if RestartedBy(info, fns, f) then 1 else info.execTime[f]
  {
    if fns == [] {
    } else {
      ReadTimesAt(info, fns[..|fns| - 1], f);
      RestartedByLast(info, fns, f);
    }
  }

  lemma {:induction false} AnnouncedSize(fns: seq<FunctionStatus>)
    requires DistinctNames(fns)
    ensures |Announced(fns)| == |fns|
  {
    if fns == [] {
    } else {
      var front, last := fns[..|fns| - 1], fns[|fns| - 1];
      AnnouncedSize(front);
      assert last.name !in Announced(front);
      assert Announced(fns).Keys == Announced(front).Keys + {last.name};
    }
  }

  /** A count map read back from distinct entries is exactly what each entry says. */
  lemma {:induction false} AnnouncedDistinct(fns: seq<FunctionStatus>, i: nat)
    requires DistinctNames(fns) && i < |fns|
    ensures fns[i].name in Announced(fns) && Announced(fns)[fns[i].name] == fns[i].availableReplicas
  {
    if i == |fns| - 1 {
    } else {
      assert fns[..|fns| - 1][i] == fns[i];
      AnnouncedDistinct(fns[..|fns| - 1], i);
    }
  }

  lemma SubsetOfSameSize(a: set<string>, b: set<string>)
    requires a <= b && |a| == |b|
    ensures a == b
  {
    assert |b - a| == |b| - |a|;
    assert b - a == {};
  }

  lemma PackedEntry(st: State, info: NodeInfo, msg: NodeInfoMsg, i: nat)
    requires Packs(st, info, msg) && i < |msg.functions|
    ensures var fn := msg.functions[i];
            && fn.name in Announced(msg.functions) && fn.name in info.replicas
            && Announced(msg.functions)[fn.name] == fn.availableReplicas == info.replicas[fn.name]
  {
    assert PacksEntry(st.functions, info.replicas, msg.functions[i]);
    AnnouncedDistinct(msg.functions, i);
  }

  lemma SameSizeSubmap(a: map<string, nat>, b: map<string, nat>)
    requires |a| == |b| && forall f :: f in a ==> f in b && a[f] == b[f]
    ensures a == b
  {
    SubsetOfSameSize(a.Keys, b.Keys);
  }

  /** Packing loses no count: a packed message announces exactly the sender's own count map. */
  lemma PackAnnouncesCounts(st: State, info: NodeInfo, msg: NodeInfoMsg)
    requires Packs(st, info, msg)
    ensures Announced(msg.functions) == info.replicas
  {
    var announced := Announced(msg.functions);
    forall f | f in announced
      ensures f in info.replicas && announced[f] == info.replicas[f]
    {
      var i :| 0 <= i < |msg.functions| && msg.functions[i].name == f;
      PackedEntry(st, info, msg, i);
    }
    AnnouncedSize(msg.functions);
    SameSizeSubmap(announced, info.replicas);
  }

  /** In a packed message a function is restarted exactly by its own count. */
  lemma PackedRestarts(sender: State, own: NodeInfo, msg: NodeInfoMsg, before: NodeInfo, f: string)
    requires Packs(sender, own, msg)
    ensures RestartedBy(before, msg.functions, f) <==> Restarts(before, f, Count(own, f))
  {
    PackAnnouncesCounts(sender, own, msg);
    if f in own.replicas {
      assert f in Announced(msg.functions);
      var i :| 0 <= i < |msg.functions| && msg.functions[i].name == f;
      assert msg.functions[i].availableReplicas == Count(own, f);
    }
  }

  /**
   The receiver's entry of a function the sender runs: its own if it had one, otherwise the sender's with the
   sender's count, the cached total apart in both cases.
   */
  ghost predicate SpreadsTo(sender: State, before: map<string, FunctionStatus>, after: map<string, FunctionStatus>,
                            f: string) {
    && f in sender.functions && SELF in sender.nodes && f in after
    && (f in before ==> SameButTotal(before[f], after[f]))
    && (f !in before ==>
          SameButTotal(sender.functions[f].(availableReplicas := Count(sender.nodes[SELF], f)), after[f]))
  }

  lemma PackedFunctionsSpread(sender: State, receiver: State, msg: NodeInfoMsg, peer: string)
    requires SELF in sender.nodes && peer in receiver.nodes && Packs(sender, sender.nodes[SELF], msg)
    ensures forall f :: f in sender.nodes[SELF].replicas ==>
              SpreadsTo(sender, receiver.functions, UnpackStep(receiver, msg, peer).functions, f)
  {
    PackAnnouncesCounts(sender, sender.nodes[SELF], msg);
    forall f | f in sender.nodes[SELF].replicas
      ensures SpreadsTo(sender, receiver.functions, UnpackStep(receiver, msg, peer).functions, f)
    {
      var i :| 0 <= i < |msg.functions| && msg.functions[i].name == f;
      assert PacksEntry(sender.functions, sender.nodes[SELF].replicas, msg.functions[i]);
      var r := ReadFunctions(receiver.functions, msg.functions);
      if f !in receiver.functions {
        var k := FiledComesFrom(receiver.functions, msg.functions, f);
        assert k == i;
      }
    }
  }

  /**
   Pack then unpack: the receiver's record of the sender becomes the sender's count map and overload flag,
   every other node keeps its record, and an execution time restarts at 1 for exactly the functions
   that gained replicas, became positive, or were positive with no time recorded; all others keep theirs.
   */
  lemma PackUnpackRoundTrip(sender: State, receiver: State, msg: NodeInfoMsg, peer: string)
    requires SELF in sender.nodes && peer in receiver.nodes
    requires Packs(sender, sender.nodes[SELF], msg)
    ensures var own, r := sender.nodes[SELF], UnpackStep(receiver, msg, peer);
            && r.nodes == receiver.nodes[peer := r.nodes[peer]]
            && r.nodes[peer].replicas == own.replicas
            && r.nodes[peer].overload == own.overload
    ensures forall f :: TimeRestartedExactly(receiver.nodes[peer], sender.nodes[SELF],
                                             UnpackStep(receiver, msg, peer).nodes[peer], f)
    ensures forall f :: f in sender.nodes[SELF].replicas ==>
              SpreadsTo(sender, receiver.functions, UnpackStep(receiver, msg, peer).functions, f)
  {
    PackedFunctionsSpread(sender, receiver, msg, peer);
    var own, before := sender.nodes[SELF], receiver.nodes[peer];
    PackAnnouncesCounts(sender, own, msg);
    forall f
      ensures TimeRestartedExactly(before, own, UnpackStep(receiver, msg, peer).nodes[peer], f)
    {
      PackedRestarts(sender, own, msg, before, f);
      ReadTimesAt(before, msg.functions, f);
    }
  }

  predicate TimeRestartedExactly(before: NodeInfo, own: NodeInfo, after: NodeInfo, f: string) {
    var restarted := Restarts(before, f, Count(own, f));
    && (f in after.execTime <==> f in before.execTime || restarted)
    && (f in after.execTime ==> after.execTime[f] == if restarted then 1 else before.execTime[f])
  }

  // ---------- every step keeps the invariants ----------

  /** Changing the record of one node changes a total by that node's change alone. */
  lemma TotalAfterNode(nodes: map<string, NodeInfo>, p: string, info: NodeInfo, f: string)
    ensures Total(nodes[p := info], f) == Total(nodes, f) + Count(info, f) - (if p in nodes then Count(nodes[p], f) else 0)
  {
    assert CountsOf(nodes[p := info], f) == CountsOf(nodes, f)[p := Count(info, f)];
    SumUpdate(CountsOf(nodes, f), p, Count(info, f));
  }

  /** Recounting one function is enough after a change that only concerns that function. */
  lemma RecountRestores(st: State, p: string, info: NodeInfo, f: string, known: map<string, FunctionStatus>)
    requires TotalsAgree(st) && p in st.nodes
    requires forall g :: g != f ==> Count(info, g) == Count(st.nodes[p], g)
    requires f in known && forall g :: g in known && g != f ==> g in st.functions && known[g] == st.functions[g]
    ensures TotalsAgree(Recount(State(st.nodes[p := info], known), f))
  {
    forall g | g in known && g != f
      ensures Total(st.nodes[p := info], g) == Total(st.nodes, g)
    {
      TotalAfterNode(st.nodes, p, info, g);
    }
  }

  lemma AddKeeps(st: State, fn: FunctionStatus)
    requires KeysIncluded(st)
    ensures KeysIncluded(AddStep(st, fn))
    ensures TotalsAgree(st) ==> TotalsAgree(AddStep(st, fn))
  {
    AddKeepsKeys(st, fn);
    if TotalsAgree(st) {
      AddKeepsTotals(st, fn);
    }
  }

  lemma AddKeepsKeys(st: State, fn: FunctionStatus)
    requires KeysIncluded(st)
    ensures KeysIncluded(AddStep(st, fn))
  {
    var r := AddStep(st, fn);
    forall p | p in r.nodes
      ensures Covered(r.nodes[p], r.functions.Keys)
    {
      assert Covered(st.nodes[p], st.functions.Keys);
    }
  }

  lemma AddKeepsTotals(st: State, fn: FunctionStatus)
    requires SELF in st.nodes && TotalsAgree(st)
    ensures TotalsAgree(AddStep(st, fn))
  {
    var self := st.nodes[SELF];
    var added := WithCount(self.(execTime := self.execTime[fn.name := 1]), fn.name, fn.availableReplicas);
    var known := if fn.name in st.functions then st.functions else st.functions[fn.name := fn];
    RecountRestores(st, SELF, added, fn.name, known);
  }

  /**
   Updating keeps the totals and the own entries always, and the key inclusion exactly when a positive count
   is for a function that has an execution time here.
   */
  lemma UpdateKeeps(st: State, fn: FunctionStatus)
    requires KeysIncluded(st) && fn.name in st.functions
    ensures OwnFiled(UpdateStep(st, fn))
    ensures KeysIncluded(UpdateStep(st, fn)) <==> (0 < fn.availableReplicas ==> fn.name in st.nodes[SELF].execTime)
    ensures TotalsAgree(st) ==> TotalsAgree(UpdateStep(st, fn))
  {
    if 0 < fn.availableReplicas ==> fn.name in st.nodes[SELF].execTime {
      UpdateKeepsKeys(st, fn);
    } else {
      UpdateUncovers(st, fn);
    }
    if TotalsAgree(st) {
      RecountRestores(st, SELF, WithCount(st.nodes[SELF], fn.name, fn.availableReplicas), fn.name, st.functions);
    }
  }

  lemma UpdateKeepsKeys(st: State, fn: FunctionStatus)
    requires KeysIncluded(st) && fn.name in st.functions
    requires fn.availableReplicas > 0 ==> fn.name in st.nodes[SELF].execTime
    ensures KeysIncluded(UpdateStep(st, fn))
  {
    var r := UpdateStep(st, fn);
    forall p | p in r.nodes
      ensures Covered(r.nodes[p], r.functions.Keys)
    {
      assert Covered(st.nodes[p], st.functions.Keys);
    }
  }

  lemma UpdateUncovers(st: State, fn: FunctionStatus)
    requires KeysIncluded(st) && fn.name in st.functions
    requires 0 < fn.availableReplicas && fn.name !in st.nodes[SELF].execTime
    ensures !KeysIncluded(UpdateStep(st, fn))
  {
    var r := UpdateStep(st, fn);
    assert r.nodes[SELF].replicas[fn.name] == fn.availableReplicas;
    assert !Covered(r.nodes[SELF], r.functions.Keys);
  }

  /** What the informer reports is always safe to apply. */
  lemma ReportedIsSafe(st: State, change: DeployChange)
    requires KeysIncluded(st) && Reported(st, change).Some?
    ensures var fn := Reported(st, change).value;
            fn.name in st.functions && fn.name in st.nodes[SELF].execTime
  {
    assert 0 < st.nodes[SELF].replicas[change.fn.name];
  }

  lemma DeleteKeeps(st: State, f: string)
    requires KeysIncluded(st) && f in st.functions
    ensures KeysIncluded(DeleteStep(st, f))
    ensures TotalsAgree(st) ==> TotalsAgree(DeleteStep(st, f))
  {
    DeleteKeepsKeys(st, f);
    if TotalsAgree(st) {
      RecountRestores(st, SELF, st.nodes[SELF].(replicas := st.nodes[SELF].replicas - {f}), f, st.functions);
    }
  }

  lemma DeleteKeepsKeys(st: State, f: string)
    requires KeysIncluded(st) && f in st.functions
    ensures KeysIncluded(DeleteStep(st, f))
  {
    var r := DeleteStep(st, f);
    forall p | p in r.nodes
      ensures Covered(r.nodes[p], r.functions.Keys)
    {
      assert Covered(st.nodes[p], st.functions.Keys);
      DeletedHasNoCount(st, f, p);
    }
  }

  /** A function only leaves the catalog when no node has a replica of it. */
  lemma DeletedHasNoCount(st: State, f: string, p: string)
    requires SELF in st.nodes && f in st.functions
    ensures var r := DeleteStep(st, f);
            f !in r.functions && p in r.nodes ==> Count(r.nodes[p], f) == 0
  {
    var self := st.nodes[SELF];
    TotalBounds(st.nodes[SELF := self.(replicas := self.replicas - {f})], f);
  }

  lemma JoinKeeps(st: State, peer: string)
    requires KeysIncluded(st)
    ensures KeysIncluded(JoinStep(st, peer))
    ensures TotalsAgree(st) ==> TotalsAgree(JoinStep(st, peer))
  {
    forall f | f in st.functions
      ensures Total(JoinStep(st, peer).nodes, f) == Total(st.nodes, f)
    {
      TotalAfterNode(st.nodes, peer, EMPTY_NODE, f);
    }
  }

  /** Changes that leave every count alone leave every total alone. */
  lemma SameCountsSameTotals(st: State, p: string, info: NodeInfo)
    requires p in st.nodes && info.replicas == st.nodes[p].replicas
    ensures TotalsAgree(st) ==> TotalsAgree(st.(nodes := st.nodes[p := info]))
  {
    forall f | f in st.functions
      ensures Total(st.nodes[p := info], f) == Total(st.nodes, f)
    {
      TotalAfterNode(st.nodes, p, info, f);
    }
  }

  /** A positive announced count leaves an execution time behind. */
  lemma AnnouncedHasTime(info: NodeInfo, fns: seq<FunctionStatus>, f: string)
    requires f in Announced(fns) && 0 < Announced(fns)[f]
    ensures f in ReadTimes(info, fns)
  {
    var i := AnnouncedComesFrom(fns, f);
    ReadTimesAt(info, fns, f);
    if f !in info.execTime {
      assert Restarts(info, f, fns[i].availableReplicas);
    }
  }

  /** Any message keeps the keys, and establishes the totals whatever they were before. */
  lemma UnpackEstablishes(st: State, msg: NodeInfoMsg, peer: string)
    requires KeysIncluded(st) && peer in st.nodes
    ensures KeysIncluded(UnpackStep(st, msg, peer))
    ensures TotalsAgree(UnpackStep(st, msg, peer))
  {
    var r := UnpackStep(st, msg, peer);
    forall p | p in r.nodes
      ensures Covered(r.nodes[p], r.functions.Keys)
    {
      if p == peer {
        forall f | f in Announced(msg.functions) && 0 < Announced(msg.functions)[f]
          ensures f in ReadTimes(st.nodes[peer], msg.functions)
        {
          AnnouncedHasTime(st.nodes[peer], msg.functions, f);
        }
      } else {
        assert Covered(st.nodes[p], st.functions.Keys);
      }
    }
  }

  /** The count is that of the last entry with the name. */
  lemma {:induction false} AnnouncedComesFrom(fns: seq<FunctionStatus>, f: string) returns (i: nat)
    requires f in Announced(fns)
    ensures LastNamed(fns, f, i) && fns[i].availableReplicas == Announced(fns)[f]
  {
    if fns[|fns| - 1].name == f {
      i := |fns| - 1;
    } else {
      i := AnnouncedComesFrom(fns[..|fns| - 1], f);
      LastInFront(fns, f, i);
    }
  }

  lemma LastInFront(fns: seq<FunctionStatus>, f: string, i: nat)
    requires fns != [] && fns[|fns| - 1].name != f
    ensures LastNamed(fns[..|fns| - 1], f, i) <==> LastNamed(fns, f, i)
    ensures LastNamed(fns, f, i) ==> fns[i] == fns[..|fns| - 1][i]
  {
  }

  predicate LastNamed(fns: seq<FunctionStatus>, f: string, i: nat) {
    i < |fns| && fns[i].name == f && forall j :: i < j < |fns| ==> fns[j].name != f
  }

  predicate FirstNamed(fns: seq<FunctionStatus>, f: string, i: nat) {
    i < |fns| && fns[i].name == f && forall j :: 0 <= j < i ==> fns[j].name != f
  }

  lemma FirstInFront(fns: seq<FunctionStatus>, f: string, i: nat)
    requires fns != []
    ensures FirstNamed(fns[..|fns| - 1], f, i) ==> FirstNamed(fns, f, i) && fns[i] == fns[..|fns| - 1][i]
  {
  }

  lemma FirstAtEnd(fns: seq<FunctionStatus>, f: string)
    requires fns != [] && f in Announced(fns) && f !in Announced(fns[..|fns| - 1])
    ensures FirstNamed(fns, f, |fns| - 1)
  {
    var front := fns[..|fns| - 1];
    assert forall j :: 0 <= j < |front| ==> front[j].name != f && fns[j] == front[j];
  }

  /** A newly filed function is the first entry with its name. */
  lemma {:induction false} FiledComesFrom(known: map<string, FunctionStatus>, fns: seq<FunctionStatus>, f: string)
    returns (i: nat)
    requires f in ReadFunctions(known, fns) && f !in known
    ensures FirstNamed(fns, f, i) && fns[i] == ReadFunctions(known, fns)[f]
  {
    var front := fns[..|fns| - 1];
    if f in ReadFunctions(known, front) {
      i := FiledComesFrom(known, front, f);
      FirstInFront(fns, f, i);
    } else {
      i := |fns| - 1;
      FirstAtEnd(fns, f);
    }
  }

  // ---------- what unpacking means for the catalog ----------

  /**
   What unpacking a message of `peer` leaves: of the nodes only the sender's record changes, to the last count for
   each announced name; a function known before keeps everything but its total; a new one is the first entry with
   its name; and every total is the sum.
   */
  ghost predicate TakenIn(st: State, msg: NodeInfoMsg, peer: string, r: State) {
    && peer in st.nodes && r.nodes.Keys == st.nodes.Keys
    && (forall p :: p in st.nodes && p != peer ==> r.nodes[p] == st.nodes[p])
    && r.nodes[peer].overload == msg.overload
    && (forall f :: f in r.nodes[peer].replicas <==> f in Announced(msg.functions))
    && (forall f :: f in r.nodes[peer].replicas ==> CountTakenIn(msg.functions, f, r.nodes[peer].replicas[f]))
    && r.functions.Keys == st.functions.Keys + Announced(msg.functions).Keys
    && (forall f :: f in st.functions ==> SameButTotal(st.functions[f], r.functions[f]))
    && (forall f :: f in r.functions && f !in st.functions ==> EntryTakenIn(msg.functions, f, r.functions[f]))
    && TotalsAgree(r)
  }

  ghost predicate CountTakenIn(fns: seq<FunctionStatus>, f: string, n: nat) {
    exists i :: 0 <= i < |fns| && LastNamed(fns, f, i) && fns[i].availableReplicas == n
  }

  ghost predicate EntryTakenIn(fns: seq<FunctionStatus>, f: string, fn: FunctionStatus) {
    exists i :: 0 <= i < |fns| && FirstNamed(fns, f, i) && SameButTotal(fns[i], fn)
  }

  lemma CountsTakenIn(fns: seq<FunctionStatus>)
    ensures forall f :: f in Announced(fns) ==> CountTakenIn(fns, f, Announced(fns)[f])
  {
    forall f | f in Announced(fns)
      ensures CountTakenIn(fns, f, Announced(fns)[f])
    {
      var i := AnnouncedComesFrom(fns, f);
    }
  }

  lemma EntryComesIn(known: map<string, FunctionStatus>, fns: seq<FunctionStatus>, f: string, fn: FunctionStatus)
    requires f in ReadFunctions(known, fns) && f !in known && SameButTotal(ReadFunctions(known, fns)[f], fn)
    ensures EntryTakenIn(fns, f, fn)
  {
    var i := FiledComesFrom(known, fns, f);
  }

  lemma UnpackEffect(st: State, msg: NodeInfoMsg, peer: string)
    requires peer in st.nodes
    ensures TakenIn(st, msg, peer, UnpackStep(st, msg, peer))
  {
    var r := UnpackStep(st, msg, peer);
    CountsTakenIn(msg.functions);
    forall f | f in r.functions && f !in st.functions
      ensures EntryTakenIn(msg.functions, f, r.functions[f])
    {
      EntryComesIn(st.functions, msg.functions, f, r.functions[f]);
    }
  }

  // ---------- what a local step means for the counts ----------

  /** Only this peer's count of `f` has changed, to `n`; every other count of every node is as before. */
  ghost predicate OnlyOwnCount(st: State, r: State, f: string, n: nat) {
    && SELF in st.nodes && r.nodes.Keys == st.nodes.Keys
    && Count(r.nodes[SELF], f) == n
    && (forall g :: g != f ==> (g in r.nodes[SELF].replicas <==> g in st.nodes[SELF].replicas))
    && (forall g :: g != f ==> Count(r.nodes[SELF], g) == Count(st.nodes[SELF], g))
    && (forall p :: p in st.nodes && p != SELF ==> r.nodes[p] == st.nodes[p])
    && r.nodes[SELF].overload == st.nodes[SELF].overload
  }

  /** Then the total of `f` moves by exactly that change. */
  lemma OwnCountShiftsTotal(st: State, r: State, f: string, n: nat)
    requires OnlyOwnCount(st, r, f, n)
    ensures Total(r.nodes, f) == Total(st.nodes, f) - Count(st.nodes[SELF], f) + n
  {
    assert r.nodes == st.nodes[SELF := r.nodes[SELF]];
    TotalAfterNode(st.nodes, SELF, r.nodes[SELF], f);
  }

  /** The entry of `f` keeps everything but its total, which moves with the own count to `n`; no other entry changes. */
  ghost predicate OnlyTotal(st: State, r: State, f: string, n: nat) {
    && SELF in st.nodes && f in st.functions && f in r.functions
    && SameButTotal(st.functions[f], r.functions[f])
    && r.functions[f].replicas == Total(st.nodes, f) - Count(st.nodes[SELF], f) + n
  }

  /** No entry but that of `f` changes, appears or goes. */
  ghost predicate OtherEntries(st: State, r: State, f: string) {
    && (forall g :: g != f ==> (g in r.functions <==> g in st.functions))
    && (forall g :: g in st.functions && g != f ==> r.functions[g] == st.functions[g])
  }

  /** The own count of `f`, filed here before, moves to `n`, and everything that depends on it with it. */
  ghost predicate CountMoves(st: State, r: State, f: string, n: nat) {
    && OnlyOwnCount(st, r, f, n) && OnlyTotal(st, r, f, n) && OtherEntries(st, r, f)
    && r.nodes[SELF].execTime == st.nodes[SELF].execTime
  }

  /**
   Adding a function: its count is the reported one, its time is the sentinel, no other time changes. A known entry
   keeps everything but its total; a new one is the reported summary with the total.
   */
  lemma AddEffect(st: State, fn: FunctionStatus)
    requires SELF in st.nodes
    ensures var r := AddStep(st, fn);
            && OnlyOwnCount(st, r, fn.name, fn.availableReplicas) && OtherEntries(st, r, fn.name)
            && r.nodes[SELF].execTime.Keys == st.nodes[SELF].execTime.Keys + {fn.name}
            && r.nodes[SELF].execTime[fn.name] == 1
            && (forall g :: g in st.nodes[SELF].execTime && g != fn.name ==>
                  r.nodes[SELF].execTime[g] == st.nodes[SELF].execTime[g])
            && fn.name in r.functions
            && SameButTotal(if fn.name in st.functions then st.functions[fn.name] else fn, r.functions[fn.name])
            && r.functions[fn.name].replicas ==
               Total(st.nodes, fn.name) - Count(st.nodes[SELF], fn.name) + fn.availableReplicas
  {
    OwnCountShiftsTotal(st, AddStep(st, fn), fn.name, fn.availableReplicas);
  }

  lemma UpdateEffect(st: State, fn: FunctionStatus)
    requires SELF in st.nodes && fn.name in st.functions
    ensures CountMoves(st, UpdateStep(st, fn), fn.name, fn.availableReplicas)
  {
    OwnCountShiftsTotal(st, UpdateStep(st, fn), fn.name, fn.availableReplicas);
  }

  /** Deleting a function: it leaves the catalog exactly when no other node runs it. */
  lemma DeleteEffect(st: State, f: string)
    requires SELF in st.nodes && f in st.functions
    ensures var r := DeleteStep(st, f);
            && OnlyOwnCount(st, r, f, 0) && f !in r.nodes[SELF].replicas && OtherEntries(st, r, f)
            && r.nodes[SELF].execTime == st.nodes[SELF].execTime
            && (f in r.functions <==> 0 < Total(st.nodes, f) - Count(st.nodes[SELF], f))
            && (f in r.functions ==> OnlyTotal(st, r, f, 0))
  {
    OwnCountShiftsTotal(st, DeleteStep(st, f), f, 0);
  }

  /**
   What the informer's event leaves, from the own count before: nothing changes if there is none; it moves to zero if
   the status falls to zero, otherwise to the replica count of the specification if that differs.
   */
  ghost predicate FollowsChange(st: State, change: DeployChange, r: State)
    requires SELF in st.nodes
  {
    var f, n := change.fn.name, Count(st.nodes[SELF], change.fn.name);
    if n == 0 then r == st
    else if 1 <= change.oldStatus && change.newStatus == 0 then CountMoves(st, r, f, 0)
    else if change.fn.replicas != ToInt32(n) then CountMoves(st, r, f, change.fn.replicas)
    else r == st
  }

  lemma ReportedEffect(st: State, change: DeployChange)
    requires KeysIncluded(st)
    ensures var report := Reported(st, change);
            && (report.Some? ==> report.value.name in st.functions)
            && FollowsChange(st, change, if report.Some? then UpdateStep(st, report.value) else st)
  {
    if Reported(st, change).Some? {
      ReportedIsSafe(st, change);
      UpdateEffect(st, Reported(st, change).value);
    }
  }

  /** A node's own flag, and nothing else. */
  lemma PressureEffect(st: State, overload: bool)
    requires SELF in st.nodes
    ensures var r := PressureStep(st, overload);
            && r.functions == st.functions && r.nodes.Keys == st.nodes.Keys
            && (forall p :: p in st.nodes && p != SELF ==> r.nodes[p] == st.nodes[p])
            && r.nodes[SELF].overload == overload
            && r.nodes[SELF].replicas == st.nodes[SELF].replicas && r.nodes[SELF].execTime == st.nodes[SELF].execTime
  {
  }

  lemma PressureKeeps(st: State, overload: bool)
    requires KeysIncluded(st)
    ensures KeysIncluded(PressureStep(st, overload))
    ensures TotalsAgree(st) ==> TotalsAgree(PressureStep(st, overload))
  {
    assert Covered(st.nodes[SELF], st.functions.Keys);
    SameCountsSameTotals(st, SELF, st.nodes[SELF].(overload := overload));
  }

  lemma StoreTimeKeeps(st: State, node: string, f: string, time: int)
    requires KeysIncluded(st) && node in st.nodes && f in st.nodes[node].execTime
    ensures KeysIncluded(StoreTimeStep(st, node, f, time))
    ensures TotalsAgree(st) ==> TotalsAgree(StoreTimeStep(st, node, f, time))
  {
    var info := st.nodes[node];
    assert Covered(info, st.functions.Keys);
    SameCountsSameTotals(st, node, info.(execTime := info.execTime[f := time]));
  }
}
