/**
 N peers, each with its own catalog, exchanging packed records over one FIFO channel per ordered pair.
 A channel keeps its whole history: `log` is everything sent, `delivered` how much the receiver has unpacked.
 */
module Gossip {
  import opened FaasTypes
  import opened MapSums
  import opened CatalogState

  datatype Channel = Channel(log: seq<NodeInfoMsg>, delivered: nat)

  datatype System = System(peers: map<string, State>, channels: map<(string, string), Channel>)

  /** What can happen at one peer without a message from another. */
  datatype LocalEvent =
    | Added(fn: FunctionStatus)
    | Changed(change: DeployChange)
    | Deleted(name: string)
    | Pressured(overload: bool)
    | Timed(node: string, name: string, time: int)

  /** Every publishing event carries the message that was packed, since packing may order it in any way. */
  datatype Event =
    | At(peer: string, event: LocalEvent, msg: NodeInfoMsg)
    | Connect(from: string, to: string, msg: NodeInfoMsg)
    | Deliver(from: string, to: string)

  // ---------- local events ----------

  /** The step meets no missing map entry before it packs. */
  ghost predicate NoMissingEntry(st: State, e: LocalEvent) {
    && SELF in st.nodes
    && match e
       case Added(_) => true
       case Changed(change) => Reported(st, change).Some? ==> change.fn.name in st.functions
       case Deleted(f) => f in st.functions
       case Pressured(_) => true
       case Timed(node, f, _) => HasTime(st.nodes, node, f)
  }

  /** Packing dereferences the catalog entry of every own function. */
  ghost predicate CanPack(st: State) {
    SELF in st.nodes && st.nodes[SELF].replicas.Keys <= st.functions.Keys
  }

  ghost function Local(st: State, e: LocalEvent): State
    requires NoMissingEntry(st, e)
  {
    match e
    case Added(fn) => AddStep(st, fn)
    case Changed(change) =>
      var report := Reported(st, change);
      if report.Some? then UpdateStep(st, report.value) else st
    case Deleted(f) => DeleteStep(st, f)
    case Pressured(overload) => PressureStep(st, overload)
    case Timed(node, f, time) => StoreTimeStep(st, node, f, time)
  }

  ghost predicate Publishes(st: State, e: LocalEvent)
    requires SELF in st.nodes
  {
    match e
    case Added(_) => true
    case Changed(change) => Reported(st, change).Some?
    case Deleted(_) => true
    case Pressured(overload) => overload != st.nodes[SELF].overload
    case Timed(_, _, _) => false
  }

  // ---------- the transition system ----------

  /** Append a message to every channel that leaves `p`. */
  function Publish(channels: map<(string, string), Channel>, p: string, msg: NodeInfoMsg): map<(string, string), Channel> {
    map c | c in channels ::
      if c.0 == p then channels[c].(log := channels[c].log + [msg]) else channels[c]
  }

  ghost predicate LocalStep(s: System, p: string, e: LocalEvent, msg: NodeInfoMsg, s': System) {
    && p in s.peers
    && NoMissingEntry(s.peers[p], e)
    && var after := Local(s.peers[p], e);
       if Publishes(s.peers[p], e)
       then SELF in after.nodes && Packs(after, after.nodes[SELF], msg) &&
            s' == System(s.peers[p := after], Publish(s.channels, p, msg))
       else s' == s.(peers := s.peers[p := after])
  }

  /** The channel from `p` to `q` with one more message; opened if there was none. */
  function Stream(channels: map<(string, string), Channel>, p: string, q: string, msg: NodeInfoMsg): Channel {
    if (p, q) in channels
    then channels[(p, q)].(log := channels[(p, q)].log + [msg])
    else Channel([msg], 0)
  }

  /** `p` notices a connection to `q`: it files `q` and streams its own record to it. */
  ghost predicate ConnectStep(s: System, p: string, q: string, msg: NodeInfoMsg, s': System) {
    && p in s.peers && q in s.peers && p != q
    && var after := JoinStep(s.peers[p], q);
       && SELF in after.nodes && Packs(after, after.nodes[SELF], msg)
       && s' == System(s.peers[p := after], s.channels[(p, q) := Stream(s.channels, p, q, msg)])
  }

  /** One more message of the channel is unpacked, and `q`'s catalog is now `after`. */
  function Received(s: System, p: string, q: string, after: State): System
    requires (p, q) in s.channels
  {
    var ch := s.channels[(p, q)];
    System(s.peers[q := after], s.channels[(p, q) := ch.(delivered := ch.delivered + 1)])
  }

  /** `q` takes the next message from `p`, filing `p` first if it had not. */
  ghost predicate DeliverStep(s: System, p: string, q: string, s': System) {
    && (p, q) in s.channels && q in s.peers
    && var ch := s.channels[(p, q)];
       && ch.delivered < |ch.log|
       && s' == Received(s, p, q, UnpackStep(JoinStep(s.peers[q], p), ch.log[ch.delivered], p))
  }

  ghost predicate Step(s: System, e: Event, s': System) {
    match e
    case At(p, event, msg) => LocalStep(s, p, event, msg, s')
    case Connect(p, q, msg) => ConnectStep(s, p, q, msg, s')
    case Deliver(p, q) => DeliverStep(s, p, q, s')
  }

  /** A peer at start-up: only its own cluster, filled from the deployments found there. */
  function StartUp(fns: seq<FunctionStatus>): (st: State)
    ensures st.nodes.Keys == {SELF}
  {
    if fns == [] then State(map[SELF := EMPTY_NODE], map[]) else
      var last := fns[|fns| - 1];
      var st := StartUp(fns[..|fns| - 1]);
      var self := st.nodes[SELF];
      State(map[SELF := WithCount(self.(execTime := self.execTime[last.name := 1]), last.name, last.availableReplicas)],
            st.functions[last.name := last])
  }

  ghost predicate Initial(s: System) {
    && SELF !in s.peers
    && s.channels == map[]
    && forall p :: p in s.peers ==> exists fns :: s.peers[p] == StartUp(fns)
  }

  ghost predicate Run(trace: seq<System>, events: seq<Event>) {
    && |trace| == |events| + 1
    && Initial(trace[0])
    && forall i :: 0 <= i < |events| ==> Step(trace[i], events[i], trace[i + 1])
  }

  // ---------- the invariant ----------

  /** A record and a message tell the same counts and overload flag. */
  ghost predicate Tells(msg: NodeInfoMsg, info: NodeInfo) {
    Announced(msg.functions) == info.replicas && msg.overload == info.overload
  }

  /** The receiver has unpacked at least one message. */
  predicate Heard(s: System, p: string, q: string) {
    (p, q) in s.channels && 0 < s.channels[(p, q)].delivered
  }

  /** What has been sent from `p` to `q` ends at the record `p` has now. */
  ghost predicate SentUpToDate(s: System, p: string, q: string)
    requires (p, q) in s.channels
  {
    var ch := s.channels[(p, q)];
    && p in s.peers && q in s.peers && p != q && SELF in s.peers[p].nodes
    && 0 < |ch.log| && ch.delivered <= |ch.log|
    && Tells(ch.log[|ch.log| - 1], s.peers[p].nodes[SELF])
  }

  /** What `q` holds about `p` is the last message it unpacked, or nothing. */
  ghost predicate ViewFollows(s: System, p: string, q: string)
    requires q in s.peers
  {
    if Heard(s, p, q) then
      var ch := s.channels[(p, q)];
      && ch.delivered <= |ch.log|
      && p in s.peers[q].nodes
      && Tells(ch.log[ch.delivered - 1], s.peers[q].nodes[p])
    else
      p in s.peers[q].nodes ==> s.peers[q].nodes[p].replicas == map[]
  }

  /** One catalog on its own: keys included, and its nodes are this peer and others. */
  ghost predicate CatalogOk(s: System, q: string)
    requires q in s.peers
  {
    && KeysIncluded(s.peers[q])
    && (forall p :: p in s.peers[q].nodes ==> p == SELF || (p in s.peers && p != q))
  }

  /** Once a message has come in, the cached totals agree with the sums. */
  ghost predicate TotalsOnceHeard(s: System, p: string, q: string) {
    Heard(s, p, q) && q in s.peers ==> TotalsAgree(s.peers[q])
  }

  /** The catalogs and the channels against each other. */
  ghost predicate GossipOk(s: System) {
    && (forall p, q :: (p, q) in s.channels ==> SentUpToDate(s, p, q))
    && (forall p, q :: p in s.peers && q in s.peers && p != q ==> ViewFollows(s, p, q))
  }

  ghost predicate Inv(s: System) {
    && SELF !in s.peers
    && (forall q :: q in s.peers ==> CatalogOk(s, q))
    && (forall p, q :: TotalsOnceHeard(s, p, q))
    && GossipOk(s)
  }

  lemma {:induction false} StartUpKeys(fns: seq<FunctionStatus>)
    ensures KeysIncluded(StartUp(fns))
  {
    if fns == [] {
    } else {
      StartUpKeys(fns[..|fns| - 1]);
    }
  }

  /** At start-up the own counts are the listed available replicas, and exactly those functions are filed and timed. */
  lemma {:induction false} StartUpCounts(fns: seq<FunctionStatus>)
    ensures var self := StartUp(fns).nodes[SELF];
            && self.replicas == Announced(fns) && !self.overload
            && self.execTime.Keys == StartUp(fns).functions.Keys == Announced(fns).Keys
  {
    if fns == [] {
    } else {
      StartUpCounts(fns[..|fns| - 1]);
    }
  }

  /** Each is filed with the last entry of its name, that entry's available replicas, and the sentinel. */
  lemma {:induction false} StartUpFiles(fns: seq<FunctionStatus>, f: string, i: nat)
    requires LastNamed(fns, f, i)
    ensures FiledAs(StartUp(fns), f, fns[i])
  {
    if i == |fns| - 1 {
    } else {
      LastInFront(fns, f, i);
      StartUpFiles(fns[..|fns| - 1], f, i);
    }
  }

  ghost predicate FiledAs(st: State, f: string, fn: FunctionStatus) {
    && SELF in st.nodes && f in st.functions && f in st.nodes[SELF].replicas && f in st.nodes[SELF].execTime
    && st.functions[f] == fn && st.nodes[SELF].replicas[f] == fn.availableReplicas && st.nodes[SELF].execTime[f] == 1
  }

  lemma InitialInv(s: System)
    requires Initial(s)
    ensures Inv(s)
  {
    forall q | q in s.peers
      ensures CatalogOk(s, q)
    {
      var fns :| s.peers[q] == StartUp(fns);
      StartUpKeys(fns);
    }
  }

  // ---------- what a step does to the peer it happens at ----------

  predicate SameRecord(a: NodeInfo, b: NodeInfo) {
    a.replicas == b.replicas && a.overload == b.overload
  }

  /** The records of other nodes stay; a node filed newly starts empty. */
  ghost predicate KeepsViews(st: State, after: State) {
    && st.nodes.Keys <= after.nodes.Keys
    && (forall q :: q in after.nodes && q != SELF ==>
          if q in st.nodes then SameRecord(st.nodes[q], after.nodes[q]) else after.nodes[q] == EMPTY_NODE)
  }

  lemma LocalKeepsViews(st: State, e: LocalEvent)
    requires NoMissingEntry(st, e)
    ensures KeepsViews(st, Local(st, e)) && Local(st, e).nodes.Keys == st.nodes.Keys
    ensures !Publishes(st, e) ==> SameRecord(st.nodes[SELF], Local(st, e).nodes[SELF])
  {
  }

  lemma LocalKeepsInvariants(st: State, e: LocalEvent)
    requires KeysIncluded(st) && NoMissingEntry(st, e)
    ensures KeysIncluded(Local(st, e))
    ensures TotalsAgree(st) ==> TotalsAgree(Local(st, e))
  {
    match e
    case Added(fn) => AddKeeps(st, fn);
    case Changed(change) =>
      if Reported(st, change).Some? {
        ReportedIsSafe(st, change);
        UpdateKeeps(st, Reported(st, change).value);
      }
    case Deleted(f) => DeleteKeeps(st, f);
    case Pressured(overload) => PressureKeeps(st, overload);
    case Timed(node, f, time) => StoreTimeKeeps(st, node, f, time);
  }

  // ---------- one channel and one view at a time ----------

  /** Channels after `p` sent its record `info` on some of its channels, perhaps opening new ones. */
  ghost predicate Sent(s: System, p: string, info: NodeInfo, channels: map<(string, string), Channel>) {
    && s.channels.Keys <= channels.Keys
    && (forall c :: c in channels ==> SentOn(s, p, info, c, channels[c]))
  }

  ghost predicate SentOn(s: System, p: string, info: NodeInfo, c: (string, string), ch: Channel) {
    && (c in s.channels ==> s.channels[c].log <= ch.log && s.channels[c].delivered == ch.delivered)
    && (c !in s.channels ==> c.0 == p && c.1 in s.peers && c.1 != p && ch.delivered == 0)
    && (if c.0 == p then 0 < |ch.log| && Tells(ch.log[|ch.log| - 1], info) else c in s.channels && ch == s.channels[c])
  }

  lemma SendChannel(s: System, p: string, after: State, channels: map<(string, string), Channel>, a: string, b: string)
    requires p in s.peers && SELF in after.nodes
    requires Sent(s, p, after.nodes[SELF], channels) && (a, b) in channels
    requires (a, b) in s.channels ==> SentUpToDate(s, a, b)
    ensures SentUpToDate(System(s.peers[p := after], channels), a, b)
  {
    assert SentOn(s, p, after.nodes[SELF], (a, b), channels[(a, b)]);
  }

  lemma SendView(s: System, p: string, after: State, channels: map<(string, string), Channel>, a: string, b: string)
    requires p in s.peers && a != SELF && b in s.peers && SELF in after.nodes
    requires Sent(s, p, after.nodes[SELF], channels) && KeepsViews(s.peers[p], after)
    requires ViewFollows(s, a, b)
    ensures ViewFollows(System(s.peers[p := after], channels), a, b)
  {
    if (a, b) in channels {
      assert SentOn(s, p, after.nodes[SELF], (a, b), channels[(a, b)]);
    }
  }

  lemma SendGossipOk(s: System, p: string, after: State, channels: map<(string, string), Channel>)
    requires SELF !in s.peers && GossipOk(s) && p in s.peers && SELF in after.nodes
    requires KeepsViews(s.peers[p], after) && Sent(s, p, after.nodes[SELF], channels)
    ensures GossipOk(System(s.peers[p := after], channels))
  {
    var s' := System(s.peers[p := after], channels);
    forall a, b | (a, b) in channels
      ensures SentUpToDate(s', a, b)
    {
      SendChannel(s, p, after, channels, a, b);
    }
    forall a, b | a in s'.peers && b in s'.peers && a != b
      ensures ViewFollows(s', a, b)
    {
      SendView(s, p, after, channels, a, b);
    }
  }

  lemma SendCatalogOk(s: System, p: string, after: State, channels: map<(string, string), Channel>, q: string)
    requires p in s.peers && q in s.peers && CatalogOk(s, p) && CatalogOk(s, q)
    requires KeysIncluded(after)
    requires forall x :: x in after.nodes && x !in s.peers[p].nodes ==> x in s.peers && x != p
    ensures CatalogOk(System(s.peers[p := after], channels), q)
  {
  }

  lemma SendTotals(s: System, p: string, after: State, channels: map<(string, string), Channel>, a: string, b: string)
    requires p in s.peers && SELF in after.nodes && Sent(s, p, after.nodes[SELF], channels)
    requires TotalsAgree(s.peers[p]) ==> TotalsAgree(after)
    requires TotalsOnceHeard(s, a, b)
    ensures TotalsOnceHeard(System(s.peers[p := after], channels), a, b)
  {
    if (a, b) in channels {
      assert SentOn(s, p, after.nodes[SELF], (a, b), channels[(a, b)]);
    }
  }

  /** Any step at `p` that sends the record it leaves behind keeps the invariant. */
  lemma SendInv(s: System, p: string, after: State, channels: map<(string, string), Channel>)
    requires Inv(s) && p in s.peers
    requires KeysIncluded(after) && (TotalsAgree(s.peers[p]) ==> TotalsAgree(after))
    requires KeepsViews(s.peers[p], after)
    requires forall x :: x in after.nodes && x !in s.peers[p].nodes ==> x in s.peers && x != p
    requires Sent(s, p, after.nodes[SELF], channels)
    ensures Inv(System(s.peers[p := after], channels))
  {
    var s' := System(s.peers[p := after], channels);
    SendGossipOk(s, p, after, channels);
    forall q | q in s'.peers
      ensures CatalogOk(s', q)
    {
      SendCatalogOk(s, p, after, channels, q);
    }
    forall a, b
      ensures TotalsOnceHeard(s', a, b)
    {
      SendTotals(s, p, after, channels, a, b);
    }
  }

  /** Publishing puts the packed record on every channel that leaves the peer. */
  lemma PublishSends(s: System, p: string, after: State, msg: NodeInfoMsg)
    requires SELF in after.nodes && Packs(after, after.nodes[SELF], msg)
    ensures Sent(s, p, after.nodes[SELF], Publish(s.channels, p, msg))
  {
    PackAnnouncesCounts(after, after.nodes[SELF], msg);
  }

  lemma LocalStepInv(s: System, p: string, e: LocalEvent, msg: NodeInfoMsg, s': System)
    requires Inv(s) && LocalStep(s, p, e, msg, s')
    ensures Inv(s')
  {
    var st, after := s.peers[p], Local(s.peers[p], e);
    LocalKeepsInvariants(st, e);
    LocalKeepsViews(st, e);
    if Publishes(st, e) {
      PublishSends(s, p, after, msg);
    } else {
      QuietSends(s, p, after);
    }
    SendInv(s, p, after, s'.channels);
  }

  /** A step that leaves its own record alone has nothing new to send. */
  lemma QuietSends(s: System, p: string, after: State)
    requires GossipOk(s) && p in s.peers && SELF in s.peers[p].nodes && SELF in after.nodes
    requires SameRecord(s.peers[p].nodes[SELF], after.nodes[SELF])
    ensures Sent(s, p, after.nodes[SELF], s.channels)
  {
    forall c | c in s.channels
      ensures SentOn(s, p, after.nodes[SELF], c, s.channels[c])
    {
      assert SentUpToDate(s, c.0, c.1);
    }
  }

  /** Streaming the first (or another) record opens or extends one channel. */
  lemma StreamSends(s: System, p: string, q: string, after: State, msg: NodeInfoMsg)
    requires SELF in after.nodes && Sent(s, p, after.nodes[SELF], s.channels)
    requires Tells(msg, after.nodes[SELF]) && q in s.peers && p != q
    ensures Sent(s, p, after.nodes[SELF], s.channels[(p, q) := Stream(s.channels, p, q, msg)])
  {
    var channels := s.channels[(p, q) := Stream(s.channels, p, q, msg)];
    forall c | c in channels
      ensures SentOn(s, p, after.nodes[SELF], c, channels[c])
    {
      if c in s.channels {
        assert SentOn(s, p, after.nodes[SELF], c, s.channels[c]);
      }
    }
  }

  lemma JoinKeepsViews(st: State, q: string)
    requires SELF in st.nodes && q != SELF
    ensures KeepsViews(st, JoinStep(st, q))
    ensures SameRecord(st.nodes[SELF], JoinStep(st, q).nodes[SELF])
    ensures JoinStep(st, q).nodes.Keys == st.nodes.Keys + {q}
  {
  }

  lemma ConnectStepInv(s: System, p: string, q: string, msg: NodeInfoMsg, s': System)
    requires Inv(s) && ConnectStep(s, p, q, msg, s')
    ensures Inv(s')
  {
    assert CatalogOk(s, p);
    JoinKeeps(s.peers[p], q);
    JoinKeepsViews(s.peers[p], q);
    var after := JoinStep(s.peers[p], q);
    assert Sent(s, p, after.nodes[SELF], s'.channels) by {
      QuietSends(s, p, after);
      PackAnnouncesCounts(after, after.nodes[SELF], msg);
      StreamSends(s, p, q, after, msg);
    }
    SendInv(s, p, after, s'.channels);
  }

  /** Unpacking at `q` changes nothing but `q`'s record of the sender. */
  ghost predicate UnpackedAt(st: State, p: string, msg: NodeInfoMsg, after: State) {
    && after.nodes.Keys == st.nodes.Keys + {p}
    && Tells(msg, after.nodes[p])
    && (forall q :: q in st.nodes && q != p ==> after.nodes[q] == st.nodes[q])
  }

  lemma UnpackChangesSender(st: State, p: string, msg: NodeInfoMsg)
    ensures UnpackedAt(st, p, msg, UnpackStep(JoinStep(st, p), msg, p))
  {
  }

  lemma JoinUnpack(st: State, p: string, msg: NodeInfoMsg)
    requires KeysIncluded(st)
    ensures KeysIncluded(UnpackStep(JoinStep(st, p), msg, p))
    ensures TotalsAgree(UnpackStep(JoinStep(st, p), msg, p))
  {
    JoinKeeps(st, p);
    UnpackEstablishes(JoinStep(st, p), msg, p);
  }

  lemma ReceiveChannel(s: System, p: string, q: string, after: State, a: string, b: string)
    requires SELF !in s.peers && q in s.peers && (p, q) in s.channels && SentUpToDate(s, p, q)
    requires var ch := s.channels[(p, q)]; ch.delivered < |ch.log| && UnpackedAt(s.peers[q], p, ch.log[ch.delivered], after)
    requires (a, b) in s.channels && SentUpToDate(s, a, b)
    ensures SentUpToDate(Received(s, p, q, after), a, b)
  {
  }

  lemma ReceiveView(s: System, p: string, q: string, after: State, a: string, b: string)
    requires q in s.peers && (p, q) in s.channels
    requires var ch := s.channels[(p, q)]; ch.delivered < |ch.log| && UnpackedAt(s.peers[q], p, ch.log[ch.delivered], after)
    requires b in s.peers && ViewFollows(s, a, b)
    ensures ViewFollows(Received(s, p, q, after), a, b)
  {
    if b != q {
      assert Heard(Received(s, p, q, after), a, b) == Heard(s, a, b);
    } else if a != p {
      assert a in after.nodes <==> a in s.peers[q].nodes;
    } else {
      assert Heard(Received(s, p, q, after), p, q);
    }
  }

  lemma ReceiveInv(s: System, p: string, q: string, after: State)
    requires Inv(s) && q in s.peers && (p, q) in s.channels
    requires var ch := s.channels[(p, q)]; ch.delivered < |ch.log| && UnpackedAt(s.peers[q], p, ch.log[ch.delivered], after)
    requires KeysIncluded(after) && TotalsAgree(after)
    ensures Inv(Received(s, p, q, after))
  {
    var s' := Received(s, p, q, after);
    assert SentUpToDate(s, p, q);
    forall a, b | (a, b) in s'.channels
      ensures SentUpToDate(s', a, b)
    {
      ReceiveChannel(s, p, q, after, a, b);
    }
    forall a, b | a in s'.peers && b in s'.peers && a != b
      ensures ViewFollows(s', a, b)
    {
      ReceiveView(s, p, q, after, a, b);
    }
    forall x | x in s'.peers
      ensures CatalogOk(s', x)
    {
      SendCatalogOk(s, q, after, s'.channels, x);
    }
    forall a, b
      ensures TotalsOnceHeard(s', a, b)
    {
      assert TotalsOnceHeard(s, a, b);
    }
  }

  lemma DeliverStepInv(s: System, p: string, q: string, s': System)
    requires Inv(s) && DeliverStep(s, p, q, s')
    ensures Inv(s')
  {
    assert CatalogOk(s, q);
    var ch := s.channels[(p, q)];
    var after := UnpackStep(JoinStep(s.peers[q], p), ch.log[ch.delivered], p);
    assert UnpackedAt(s.peers[q], p, ch.log[ch.delivered], after) && KeysIncluded(after) && TotalsAgree(after) by {
      JoinUnpack(s.peers[q], p, ch.log[ch.delivered]);
      UnpackChangesSender(s.peers[q], p, ch.log[ch.delivered]);
    }
    ReceiveInv(s, p, q, after);
  }

  lemma StepInv(s: System, e: Event, s': System)
    requires Inv(s) && Step(s, e, s')
    ensures Inv(s')
  {
    match e
    case At(p, event, msg) => LocalStepInv(s, p, event, msg, s');
    case Connect(p, q, msg) => ConnectStepInv(s, p, q, msg, s');
    case Deliver(p, q) => DeliverStepInv(s, p, q, s');
  }

  /** Every state of every run satisfies the invariant. */
  lemma {:induction false} RunInv(trace: seq<System>, events: seq<Event>, i: nat)
    requires Run(trace, events) && i < |trace|
    ensures Inv(trace[i])
  {
    if i == 0 {
      InitialInv(trace[0]);
    } else {
      RunInv(trace, events, i - 1);
      StepInv(trace[i - 1], events[i - 1], trace[i]);
    }
  }

  // ---------- safety over whole runs ----------

  /**
   In every state of every run, packing never meets a missing entry, and a local event does exactly when it deletes
   a function that is not catalogued or stores a time where none is recorded.
   */
  lemma RunsMeetNoMissingEntry(trace: seq<System>, events: seq<Event>, i: nat, p: string, e: LocalEvent)
    requires Run(trace, events) && i < |trace| && p in trace[i].peers
    ensures CanPack(trace[i].peers[p])
    ensures NoMissingEntry(trace[i].peers[p], e) <==>
            && (e.Deleted? ==> e.name in trace[i].peers[p].functions)
            && (e.Timed? ==> HasTime(trace[i].peers[p].nodes, e.node, e.name))
    ensures NoMissingEntry(trace[i].peers[p], e) ==> CanPack(Local(trace[i].peers[p], e))
  {
    RunInv(trace, events, i);
    var st := trace[i].peers[p];
    assert CatalogOk(trace[i], p);
    if e.Changed? && Reported(st, e.change).Some? {
      ReportedIsSafe(st, e.change);
    }
    if NoMissingEntry(st, e) {
      LocalKeepsInvariants(st, e);
    }
  }

  // ---------- recorded times over whole runs ----------

  /** Some entry of the message has a positive count of `f`. */
  ghost predicate AnnouncesRunning(msg: NodeInfoMsg, f: string) {
    exists i :: 0 <= i < |msg.functions| && msg.functions[i].name == f && 0 < msg.functions[i].availableReplicas
  }

  /** The event files a time of `f` at node `q` in the catalog of `p`: `f` is added here, or `q` says it runs `f`. */
  ghost predicate Files(s: System, e: Event, p: string, q: string, f: string) {
    match e
    case At(x, event, _) => x == p && q == SELF && event.Added? && event.fn.name == f
    case Connect(_, _, _) => false
    case Deliver(x, y) =>
      && x == q && y == p && (x, y) in s.channels
      && var ch := s.channels[(x, y)];
         ch.delivered < |ch.log| && AnnouncesRunning(ch.log[ch.delivered], f)
  }

  lemma LocalTimes(st: State, e: LocalEvent, q: string, f: string)
    requires NoMissingEntry(st, e)
    ensures HasTime(Local(st, e).nodes, q, f) <==>
            HasTime(st.nodes, q, f) || (q == SELF && e.Added? && e.fn.name == f)
  {
  }

  lemma UnpackTimes(st: State, msg: NodeInfoMsg, x: string, q: string, f: string)
    requires x in st.nodes
    ensures HasTime(UnpackStep(st, msg, x).nodes, q, f) <==>
            HasTime(st.nodes, q, f) || (q == x && AnnouncesRunning(msg, f))
  {
    ReadTimesAt(st.nodes[x], msg.functions, f);
  }

  lemma LocalStepTimes(s: System, x: string, event: LocalEvent, msg: NodeInfoMsg, s': System,
                       p: string, q: string, f: string)
    requires LocalStep(s, x, event, msg, s') && p in s.peers
    ensures p in s'.peers
    ensures HasTime(s'.peers[p].nodes, q, f) <==>
            HasTime(s.peers[p].nodes, q, f) || Files(s, At(x, event, msg), p, q, f)
  {
    LocalTimes(s.peers[x], event, q, f);
  }

  lemma DeliverStepTimes(s: System, x: string, y: string, s': System, p: string, q: string, f: string)
    requires DeliverStep(s, x, y, s') && p in s.peers
    ensures p in s'.peers
    ensures HasTime(s'.peers[p].nodes, q, f) <==> HasTime(s.peers[p].nodes, q, f) || Files(s, Deliver(x, y), p, q, f)
  {
    var ch := s.channels[(x, y)];
    UnpackTimes(JoinStep(s.peers[y], x), ch.log[ch.delivered], x, q, f);
  }

  lemma ConnectStepTimes(s: System, x: string, y: string, msg: NodeInfoMsg, s': System, p: string, q: string, f: string)
    requires ConnectStep(s, x, y, msg, s') && p in s.peers
    ensures p in s'.peers
    ensures HasTime(s'.peers[p].nodes, q, f) <==> HasTime(s.peers[p].nodes, q, f)
  {
  }

  /** A time is never dropped, and filed only by an event that says the function runs. */
  lemma StepTimes(s: System, e: Event, s': System, p: string, q: string, f: string)
    requires Step(s, e, s') && p in s.peers
    ensures p in s'.peers
    ensures HasTime(s'.peers[p].nodes, q, f) <==> HasTime(s.peers[p].nodes, q, f) || Files(s, e, p, q, f)
  {
    match e
    case At(x, event, msg) => LocalStepTimes(s, x, event, msg, s', p, q, f);
    case Connect(x, y, msg) => ConnectStepTimes(s, x, y, msg, s', p, q, f);
    case Deliver(x, y) => DeliverStepTimes(s, x, y, s', p, q, f);
  }

  /** Some event from position `i` up to `j` files it. */
  ghost predicate FiledBetween(
    trace: seq<System>, events: seq<Event>, i: nat, j: nat, p: string, q: string, f: string)
    requires j <= |events| <= |trace|
  {
    exists k :: i <= k < j && Files(trace[k], events[k], p, q, f)
  }

  lemma FiledOneMore(trace: seq<System>, events: seq<Event>, i: nat, j: nat, p: string, q: string, f: string)
    requires i < j <= |events| <= |trace|
    ensures FiledBetween(trace, events, i, j, p, q, f) <==>
            FiledBetween(trace, events, i, j - 1, p, q, f) || Files(trace[j - 1], events[j - 1], p, q, f)
  {
  }

  lemma RunStepTimes(trace: seq<System>, events: seq<Event>, k: nat, p: string, q: string, f: string)
    requires Run(trace, events) && k < |events| && p in trace[k].peers
    ensures p in trace[k + 1].peers
    ensures HasTime(trace[k + 1].peers[p].nodes, q, f) <==>
            HasTime(trace[k].peers[p].nodes, q, f) || Files(trace[k], events[k], p, q, f)
  {
    assert Step(trace[k], events[k], trace[k + 1]);
    StepTimes(trace[k], events[k], trace[k + 1], p, q, f);
  }

  /** Over any stretch of any run: a time is there at the end if it was at the start or some event filed it. */
  lemma {:induction false} RunTimes(
    trace: seq<System>, events: seq<Event>, i: nat, j: nat, p: string, q: string, f: string)
    requires Run(trace, events) && i <= j < |trace| && p in trace[i].peers
    ensures p in trace[j].peers
    ensures HasTime(trace[j].peers[p].nodes, q, f) <==>
            HasTime(trace[i].peers[p].nodes, q, f) || FiledBetween(trace, events, i, j, p, q, f)
    decreases j
  {
    if i == j {
    } else {
      RunTimes(trace, events, i, j - 1, p, q, f);
      FiledOneMore(trace, events, i, j, p, q, f);
      RunStepTimes(trace, events, j - 1, p, q, f);
    }
  }

  // ---------- convergence ----------

  ghost function OwnCounts(s: System, f: string): map<string, nat>
    requires forall p :: p in s.peers ==> SELF in s.peers[p].nodes
  {
    map p | p in s.peers :: Count(s.peers[p].nodes[SELF], f)
  }

  /** Every other peer is connected to `q`, and `q` has unpacked everything they sent. */
  ghost predicate CaughtUp(s: System, q: string) {
    forall p :: p in s.peers && p != q ==>
      (p, q) in s.channels && s.channels[(p, q)].delivered == |s.channels[(p, q)].log|
  }

  /** `q`'s record of `p` is `p`'s own. */
  ghost predicate KnowsTruth(s: System, q: string, p: string) {
    && p in s.peers && q in s.peers && SELF in s.peers[p].nodes && p in s.peers[q].nodes
    && SameRecord(s.peers[q].nodes[p], s.peers[p].nodes[SELF])
  }

  lemma CaughtUpViews(s: System, q: string)
    requires Inv(s) && q in s.peers && CaughtUp(s, q)
    ensures s.peers[q].nodes.Keys == s.peers.Keys - {q} + {SELF}
    ensures forall p :: p in s.peers && p != q ==> KnowsTruth(s, q, p)
  {
    assert CatalogOk(s, q);
    forall p | p in s.peers && p != q
      ensures KnowsTruth(s, q, p)
    {
      assert SentUpToDate(s, p, q);
      assert ViewFollows(s, p, q);
    }
  }

  /** A caught-up peer's total is the sum of what every peer itself runs. */
  lemma CaughtUpTotal(s: System, q: string, f: string)
    requires forall p :: p in s.peers ==> SELF in s.peers[p].nodes
    requires SELF !in s.peers && q in s.peers
    requires s.peers[q].nodes.Keys == s.peers.Keys - {q} + {SELF}
    requires forall p :: p in s.peers && p != q ==> KnowsTruth(s, q, p)
    ensures Total(s.peers[q].nodes, f) == Sum(OwnCounts(s, f))
  {
    var seen, own := CountsOf(s.peers[q].nodes, f), OwnCounts(s, f);
    forall p | p in own && p != q
      ensures p in seen && seen[p] == own[p]
    {
      assert KnowsTruth(s, q, p);
    }
    SumRename(seen, own, SELF, q);
  }

  /** A function that runs somewhere `q` knows of is catalogued at `q`. */
  lemma RunningIsCatalogued(st: State, f: string)
    requires KeysIncluded(st) && 0 < Total(st.nodes, f)
    ensures f in st.functions
  {
    TotalBounds(st.nodes, f);
    var p :| p in st.nodes && 0 < Count(st.nodes[p], f);
    assert Covered(st.nodes[p], st.functions.Keys);
  }

  /** A peer that is caught up and not alone has heard from someone, so its cached totals agree. */
  lemma CaughtUpAgrees(s: System, q: string)
    requires Inv(s) && q in s.peers && CaughtUp(s, q) && s.peers.Keys != {q}
    ensures TotalsAgree(s.peers[q])
  {
    assert exists p :: p in s.peers && p != q;
    var p :| p in s.peers && p != q;
    assert SentUpToDate(s, p, q);
    assert TotalsOnceHeard(s, p, q);
  }

  lemma SelfFiled(s: System)
    requires Inv(s)
    ensures forall p :: p in s.peers ==> SELF in s.peers[p].nodes
  {
    assert forall p :: p in s.peers ==> CatalogOk(s, p);
  }

  /**
   Everything there is to know: every other peer's true counts and overload flag; if not alone, the true network total
   of every catalogued function; and no function that runs anywhere is missing from the catalog.
   */
  ghost predicate TruthKnown(s: System, q: string) {
    && q in s.peers
    && (forall p :: p in s.peers ==> SELF in s.peers[p].nodes)
    && (forall p :: p in s.peers && p != q ==> KnowsTruth(s, q, p))
    && (s.peers.Keys != {q} ==> forall f :: f in s.peers[q].functions ==>
          s.peers[q].functions[f].replicas == Sum(OwnCounts(s, f)))
    && (forall f :: 0 < Sum(OwnCounts(s, f)) ==> f in s.peers[q].functions)
  }

  lemma CaughtUpKnows(s: System, q: string)
    requires Inv(s) && q in s.peers && CaughtUp(s, q)
    ensures TruthKnown(s, q)
  {
    SelfFiled(s);
    CaughtUpViews(s, q);
    forall f
      ensures Total(s.peers[q].nodes, f) == Sum(OwnCounts(s, f))
      ensures 0 < Total(s.peers[q].nodes, f) ==> f in s.peers[q].functions
    {
      CaughtUpTotal(s, q, f);
      if 0 < Total(s.peers[q].nodes, f) {
        assert CatalogOk(s, q);
        RunningIsCatalogued(s.peers[q], f);
      }
    }
    if s.peers.Keys != {q} {
      CaughtUpAgrees(s, q);
    }
  }

  /** Convergence: in any state of any run, a peer that has unpacked everything sent to it knows the truth. */
  lemma Convergence(trace: seq<System>, events: seq<Event>, i: nat, q: string)
    requires Run(trace, events) && i < |trace|
    requires q in trace[i].peers && CaughtUp(trace[i], q)
    ensures TruthKnown(trace[i], q)
  {
    RunInv(trace, events, i);
    CaughtUpKnows(trace[i], q);
  }

  // ---------- deliveries alone bring a peer up to date ----------

  /** `n` steps of some kind lead from `s` to `s'`. */
  ghost predicate Chain(n: nat, step: (System, System) -> bool, s: System, s': System) {
    if n == 0 then s == s'
    else exists m :: step(s, m) && Chain(n - 1, step, m, s')
  }

  /** A step that keeps `inv`, relates by `keep` and takes one off `pending`. */
  ghost predicate StepsDown(step: (System, System) -> bool, inv: System -> bool, keep: (System, System) -> bool,
                            pending: System -> int, s: System, m: System) {
    step(s, m) && inv(m) && keep(s, m) && pending(m) == pending(s) - 1
  }

  /** If such a step is possible whenever something is pending, finitely many of them leave nothing pending. */
  lemma {:induction false} Descend(step: (System, System) -> bool, inv: System -> bool, keep: (System, System) -> bool,
                                   pending: System -> int, s: System) returns (n: nat, s': System)
    requires forall a :: keep(a, a)
    requires forall a, b, c {:trigger keep(a, b), keep(b, c)} :: keep(a, b) && keep(b, c) ==> keep(a, c)
    requires forall t :: inv(t) && 0 < pending(t) ==> exists m :: StepsDown(step, inv, keep, pending, t, m)
    requires inv(s) && 0 <= pending(s)
    ensures Chain(n, step, s, s') && inv(s') && keep(s, s') && pending(s') == 0
    decreases pending(s)
  {
    if pending(s) == 0 {
      n, s' := 0, s;
    } else {
      var m :| StepsDown(step, inv, keep, pending, s, m);
      var k;
      k, s' := Descend(step, inv, keep, pending, m);
      n := k + 1;
    }
  }

  ghost predicate Delivery(s: System, s': System) {
    exists p, q :: DeliverStep(s, p, q, s')
  }

  /** The same peers with the same own records, and no channel closed. */
  ghost predicate SameTruth(s: System, s': System) {
    && s'.peers.Keys == s.peers.Keys
    && s.channels.Keys <= s'.channels.Keys
    && (forall p :: p in s.peers && SELF in s.peers[p].nodes ==>
          SELF in s'.peers[p].nodes && SameRecord(s.peers[p].nodes[SELF], s'.peers[p].nodes[SELF]))
  }

  lemma SameTruthTransitive(a: System, b: System, c: System)
    requires SameTruth(a, b) && SameTruth(b, c)
    ensures SameTruth(a, c)
  {
  }

  /** How many messages of a channel are still to be unpacked. */
  function Pending(s: System, p: string, q: string): int {
    if (p, q) in s.channels then |s.channels[(p, q)].log| - s.channels[(p, q)].delivered else 0
  }

  function PendingOf(s: System, q: string): map<string, int> {
    map p | p in s.peers && p != q :: Pending(s, p, q)
  }

  /** A delivery is possible whenever something is pending; it shortens that channel and changes no peer's own record. */
  lemma DeliveryProgress(s: System, p: string, q: string) returns (s': System)
    requires Inv(s) && 0 < Pending(s, p, q)
    ensures Delivery(s, s') && Inv(s') && SameTruth(s, s')
    ensures Sum(PendingOf(s', q)) == Sum(PendingOf(s, q)) - 1
  {
    assert SentUpToDate(s, p, q);
    var ch := s.channels[(p, q)];
    var after := UnpackStep(JoinStep(s.peers[q], p), ch.log[ch.delivered], p);
    s' := Received(s, p, q, after);
    assert DeliverStep(s, p, q, s');
    DeliverStepInv(s, p, q, s');
    UnpackChangesSender(s.peers[q], p, ch.log[ch.delivered]);
    ReceivedSameTruth(s, p, q, after);
  }

  lemma ReceivedSameTruth(s: System, p: string, q: string, after: State)
    requires p != SELF && p != q && p in s.peers && q in s.peers && (p, q) in s.channels && 0 < Pending(s, p, q)
    requires UnpackedAt(s.peers[q], p, s.channels[(p, q)].log[s.channels[(p, q)].delivered], after)
    ensures SameTruth(s, Received(s, p, q, after))
    ensures Sum(PendingOf(Received(s, p, q, after), q)) == Sum(PendingOf(s, q)) - 1
  {
    assert PendingOf(Received(s, p, q, after), q) == PendingOf(s, q)[p := Pending(s, p, q) - 1];
    SumUpdate(PendingOf(s, q), p, Pending(s, p, q) - 1);
  }

  /** Some delivery takes one off everything pending for `q`. */
  lemma TotalProgress(s: System, q: string) returns (s': System)
    requires Inv(s) && 0 < Sum(PendingOf(s, q))
    ensures Delivery(s, s') && Inv(s') && SameTruth(s, s')
    ensures Sum(PendingOf(s', q)) == Sum(PendingOf(s, q)) - 1
  {
    SumPositive(PendingOf(s, q));
    var p :| p in PendingOf(s, q) && 0 < PendingOf(s, q)[p];
    s' := DeliveryProgress(s, p, q);
  }

  lemma PendingNonNegative(s: System, q: string)
    requires Inv(s)
    ensures forall p :: p in PendingOf(s, q) ==> 0 <= PendingOf(s, q)[p] <= Sum(PendingOf(s, q))
    ensures 0 <= Sum(PendingOf(s, q))
  {
    forall p | p in PendingOf(s, q)
      ensures 0 <= PendingOf(s, q)[p]
    {
      if (p, q) in s.channels {
        assert SentUpToDate(s, p, q);
      }
    }
    SumAtLeast(PendingOf(s, q));
  }

  /** Nothing pending on channels from everyone is being caught up. */
  lemma NothingPending(s: System, q: string)
    requires Inv(s) && Sum(PendingOf(s, q)) == 0
    requires forall p :: p in s.peers && p != q ==> (p, q) in s.channels
    ensures CaughtUp(s, q)
  {
    PendingNonNegative(s, q);
    forall p | p in s.peers && p != q
      ensures (p, q) in s.channels && s.channels[(p, q)].delivered == |s.channels[(p, q)].log|
    {
      assert p in PendingOf(s, q);
    }
  }

  /** The same own records have the same counts. */
  lemma SameOwnCounts(s: System, s': System, f: string)
    requires SameTruth(s, s')
    requires forall p :: p in s.peers ==> SELF in s.peers[p].nodes
    ensures forall p :: p in s'.peers ==> SELF in s'.peers[p].nodes
    ensures OwnCounts(s', f) == OwnCounts(s, f)
  {
    forall p | p in s.peers
      ensures SELF in s'.peers[p].nodes && Count(s'.peers[p].nodes[SELF], f) == Count(s.peers[p].nodes[SELF], f)
    {
      assert SameRecord(s.peers[p].nodes[SELF], s'.peers[p].nodes[SELF]);
    }
  }

  /** Finitely many deliveries leave nothing pending for `q`. */
  lemma DrainFor(s: System, q: string) returns (n: nat, s': System)
    requires Inv(s)
    ensures Chain(n, Delivery, s, s') && Inv(s') && SameTruth(s, s') && Sum(PendingOf(s', q)) == 0
  {
    PendingNonNegative(s, q);
    var pending := t => Sum(PendingOf(t, q));
    forall t | Inv(t) && 0 < pending(t)
      ensures exists m :: StepsDown(Delivery, Inv, SameTruth, pending, t, m)
    {
      var m := TotalProgress(t, q);
      assert StepsDown(Delivery, Inv, SameTruth, pending, t, m);
    }
    forall a, b, c | SameTruth(a, b) && SameTruth(b, c)
      ensures SameTruth(a, c)
    {
      SameTruthTransitive(a, b, c);
    }
    n, s' := Descend(Delivery, Inv, SameTruth, pending, s);
  }

  /**
   From any state of any run in which the others are connected to `q`, finitely many deliveries, and nothing else,
   let `q` know the truth, which is still the truth of the state they started from.
   */
  lemma DeliveriesCatchUp(trace: seq<System>, events: seq<Event>, i: nat, q: string) returns (n: nat, s': System)
    requires Run(trace, events) && i < |trace| && q in trace[i].peers
    requires forall p :: p in trace[i].peers && p != q ==> (p, q) in trace[i].channels
    ensures Chain(n, Delivery, trace[i], s') && Inv(s') && SameTruth(trace[i], s')
    ensures TruthKnown(s', q)
    ensures forall p :: p in trace[i].peers ==> SELF in trace[i].peers[p].nodes
    ensures forall f :: OwnCounts(s', f) == OwnCounts(trace[i], f)
  {
    RunInv(trace, events, i);
    n, s' := DrainFor(trace[i], q);
    NothingPending(s', q);
    CaughtUpKnows(s', q);
    SelfFiled(trace[i]);
    forall f
      ensures OwnCounts(s', f) == OwnCounts(trace[i], f)
    {
      SameOwnCounts(trace[i], s', f);
    }
  }
}
