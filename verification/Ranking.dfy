/** Ordering the known nodes by measured round-trip time. */
module Ranking {
  import opened CatalogState
  import opened Sorting

  /** A node's own time is 0; every other time is measured. */
  function Rtt(measured: map<string, int>, p: string): int
    requires p == SELF || p in measured
  {
    if p == SELF then 0 else measured[p]
  }

  /** Every node but this one has been measured. */
  predicate Measured(nodes: set<string>, measured: map<string, int>) {
    forall p :: p in nodes ==> p == SELF || p in measured
  }

  /** The times of all nodes, with repetitions. */
  ghost function Times(nodes: set<string>, measured: map<string, int>): multiset<int>
    requires Measured(nodes, measured)
  {
    if nodes == {} then multiset{} else
      var p :| p in nodes;
      multiset{Rtt(measured, p)} + Times(nodes - {p}, measured)
  }

  lemma {:induction false} TimesRemove(nodes: set<string>, measured: map<string, int>, p: string)
    requires Measured(nodes, measured) && p in nodes
    ensures Times(nodes, measured) == multiset{Rtt(measured, p)} + Times(nodes - {p}, measured)
    decreases |nodes|
  {
    var q :| q in nodes && Times(nodes, measured) == multiset{Rtt(measured, q)} + Times(nodes - {q}, measured);
    if q != p {
      TimesRemove(nodes - {q}, measured, p);
      TimesRemove(nodes - {p}, measured, q);
      assert nodes - {q} - {p} == nodes - {p} - {q};
    }
  }

  /** No two nodes were measured alike. */
  ghost predicate DistinctTimes(nodes: set<string>, measured: map<string, int>)
    requires Measured(nodes, measured)
  {
    forall p, q :: p in nodes && q in nodes && Rtt(measured, p) == Rtt(measured, q) ==> p == q
  }

  /**
   What the ranking is for any times at all: as long as the node set, ordered by time, made of the nodes' own times,
   with nodes measured alike collapsed onto one of them.
   */
  ghost predicate IsRanking(nodes: set<string>, measured: map<string, int>, ids: seq<string>)
    requires Measured(nodes, measured)
  {
    && |ids| == |nodes|
    && (forall i :: 0 <= i < |ids| ==> ids[i] in nodes)
    && (forall i, j :: 0 <= i < j < |ids| ==> Rtt(measured, ids[i]) <= Rtt(measured, ids[j]))
    && multiset(TimesAt(measured, ids)) == Times(nodes, measured)
    && (forall i, j :: 0 <= i < |ids| && 0 <= j < |ids| && Rtt(measured, ids[i]) == Rtt(measured, ids[j]) ==> ids[i] == ids[j])
  }

  function TimesAt(measured: map<string, int>, ids: seq<string>): (r: seq<int>)
    requires forall i :: 0 <= i < |ids| ==> ids[i] == SELF || ids[i] in measured
    ensures |r| == |ids|
    ensures forall i :: 0 <= i < |ids| ==> r[i] == Rtt(measured, ids[i])
  {
    seq(|ids|, i requires 0 <= i < |ids| => Rtt(measured, ids[i]))
  }

  ghost predicate Distinct(ids: seq<string>) {
    forall i, j :: 0 <= i < j < |ids| ==> ids[i] != ids[j]
  }

  /** The nodes outside `rest` have been measured, one time each. */
  ghost predicate Collected(nodes: set<string>, measured: map<string, int>, rest: set<string>, rtts: seq<int>)
    requires Measured(nodes, measured)
  {
    && rest <= nodes
    && |rtts| + |rest| == |nodes|
    && multiset(rtts) + Times(rest, measured) == Times(nodes, measured)
  }

  lemma CollectOne(nodes: set<string>, measured: map<string, int>, rest: set<string>, rtts: seq<int>, p: string)
    requires Measured(nodes, measured) && Collected(nodes, measured, rest, rtts) && p in rest
    ensures Collected(nodes, measured, rest - {p}, rtts + [Rtt(measured, p)])
  {
    TimesRemove(rest, measured, p);
  }

  /** Each time names a node that has it. */
  ghost predicate Names(nodes: set<string>, measured: map<string, int>, rttToP2PID: map<int, string>)
    requires Measured(nodes, measured)
  {
    forall t :: t in rttToP2PID ==> rttToP2PID[t] in nodes && Rtt(measured, rttToP2PID[t]) == t
  }

  lemma NameOne(nodes: set<string>, measured: map<string, int>, rttToP2PID: map<int, string>, p: string)
    requires Measured(nodes, measured) && Names(nodes, measured, rttToP2PID) && p in nodes
    ensures Names(nodes, measured, rttToP2PID[Rtt(measured, p) := p])
  {
  }

  /** Measure every node, in any order; of two nodes measured alike the one visited last is remembered. */
  method CollectTimes(nodes: set<string>, measured: map<string, int>)
    returns (rtts: seq<int>, rttToP2PID: map<int, string>)
    requires Measured(nodes, measured)
    ensures multiset(rtts) == Times(nodes, measured) && |rtts| == |nodes|
    ensures Names(nodes, measured, rttToP2PID)
    ensures forall k :: 0 <= k < |rtts| ==> rtts[k] in rttToP2PID
  {
    rtts, rttToP2PID := [], map[];
    var rest := nodes;
    while rest != {}
      invariant Collected(nodes, measured, rest, rtts)
      invariant Names(nodes, measured, rttToP2PID)
      invariant forall k :: 0 <= k < |rtts| ==> rtts[k] in rttToP2PID
      decreases rest
    {
      var p2pID :| p2pID in rest;
      CollectOne(nodes, measured, rest, rtts, p2pID);
      NameOne(nodes, measured, rttToP2PID, p2pID);
      var rtt := Rtt(measured, p2pID);
      rttToP2PID := rttToP2PID[rtt := p2pID];
      rtts := rtts + [rtt];
      rest := rest - {p2pID};
    }
  }

  /** Reading the sorted times back through the names is a ranking. */
  lemma NamedTimesRank(nodes: set<string>, measured: map<string, int>, rtts: seq<int>,
                       rttToP2PID: map<int, string>, ids: seq<string>)
    requires Measured(nodes, measured) && Names(nodes, measured, rttToP2PID)
    requires Ascending(rtts) && multiset(rtts) == Times(nodes, measured) && |rtts| == |nodes| == |ids|
    requires forall k :: 0 <= k < |ids| ==> rtts[k] in rttToP2PID && ids[k] == rttToP2PID[rtts[k]]
    ensures IsRanking(nodes, measured, ids)
  {
    forall k | 0 <= k < |ids|
      ensures ids[k] in nodes && Rtt(measured, ids[k]) == rtts[k]
    {
      var t := rtts[k];
      assert ids[k] == rttToP2PID[t];
      assert rttToP2PID[t] in nodes && Rtt(measured, rttToP2PID[t]) == t;
    }
    assert TimesAt(measured, ids) == rtts;
    forall i, j | 0 <= i < j < |ids|
      ensures Rtt(measured, ids[i]) <= Rtt(measured, ids[j])
    {
      AscendingApart(rtts, i, j);
    }
  }

  /** Overwrite the front of the shared slice with the names of the sorted times. */
  method CopyBack(rtts: seq<int>, rttToP2PID: map<int, string>, sorted: array<string>)
    requires |rtts| <= sorted.Length
    requires forall k :: 0 <= k < |rtts| ==> rtts[k] in rttToP2PID
    modifies sorted
    ensures forall k :: 0 <= k < |rtts| ==> sorted[k] == rttToP2PID[rtts[k]]
    ensures forall k :: |rtts| <= k < sorted.Length ==> sorted[k] == old(sorted[k])
  {
    for i := 0 to |rtts|
      invariant forall k :: 0 <= k < i ==> sorted[k] == rttToP2PID[rtts[k]]
      invariant forall k :: |rtts| <= k < sorted.Length ==> sorted[k] == old(sorted[k])
    {
      sorted[i] := rttToP2PID[rtts[i]];
    }
  }

  lemma SortKeepsMembers(s: seq<int>, r: seq<int>)
    requires multiset(r) == multiset(s)
    ensures |r| == |s|
    ensures forall k :: 0 <= k < |r| ==> r[k] in s
  {
    assert |multiset(r)| == |multiset(s)|;
    forall k | 0 <= k < |r|
      ensures r[k] in s
    {
      assert r[k] in multiset(r);
    }
  }

  method RankNodeByRTT(nodes: set<string>, measured: map<string, int>, sorted: array<string>) returns (n: nat)
    requires Measured(nodes, measured)
    requires |nodes| <= sorted.Length
    modifies sorted
    ensures n == |nodes| && IsRanking(nodes, measured, sorted[..n])
    ensures forall k :: n <= k < sorted.Length ==> sorted[k] == old(sorted[k])
  {
    var unsorted, rttToP2PID := CollectTimes(nodes, measured);
    var rtts := SortInts(unsorted);
    SortKeepsMembers(unsorted, rtts);
    n := |rtts|;
    CopyBack(rtts, rttToP2PID, sorted);
    NamedTimesRank(nodes, measured, rtts, rttToP2PID, sorted[..n]);
  }

  /** Two positions with the same value are two occurrences. */
  lemma TwoOccurrences(s: seq<int>, i: nat, j: nat)
    requires i < j < |s| && s[i] == s[j]
    ensures 2 <= multiset(s)[s[i]]
  {
    assert s == s[..i] + [s[i]] + s[i + 1..j] + [s[j]] + s[j + 1..];
  }

  lemma {:induction false} TwoPositions(s: seq<int>, t: int)
    requires 2 <= multiset(s)[t]
    ensures exists i, j :: 0 <= i < j < |s| && s[i] == t && s[j] == t
  {
    assert s == [s[0]] + s[1..];
    if s[0] == t {
      assert t in s[1..];
      var j :| 0 <= j < |s[1..]| && s[1..][j] == t;
      assert s[0] == t && s[j + 1] == t;
    } else {
      TwoPositions(s[1..], t);
      var i, j :| 0 <= i < j < |s[1..]| && s[1..][i] == t && s[1..][j] == t;
      assert s[i + 1] == t && s[j + 1] == t;
    }
  }

  lemma {:induction false} TimesMember(nodes: set<string>, measured: map<string, int>, t: int)
    requires Measured(nodes, measured) && t in Times(nodes, measured)
    ensures exists p :: p in nodes && Rtt(measured, p) == t
    decreases |nodes|
  {
    var p :| p in nodes;
    TimesRemove(nodes, measured, p);
    if Rtt(measured, p) != t {
      TimesMember(nodes - {p}, measured, t);
    }
  }

  /** Some time occurs twice exactly when two nodes share it. */
  lemma SharedTime(nodes: set<string>, measured: map<string, int>, t: int)
    requires Measured(nodes, measured) && 2 <= Times(nodes, measured)[t]
    ensures !DistinctTimes(nodes, measured)
  {
    TimesMember(nodes, measured, t);
    var p :| p in nodes && Rtt(measured, p) == t;
    TimesRemove(nodes, measured, p);
    TimesMember(nodes - {p}, measured, t);
    var q :| q in nodes - {p} && Rtt(measured, q) == t;
  }

  lemma RepeatMeansSharedTime(nodes: set<string>, measured: map<string, int>, ids: seq<string>)
    requires Measured(nodes, measured) && IsRanking(nodes, measured, ids) && !Distinct(ids)
    ensures !DistinctTimes(nodes, measured)
  {
    var i, j :| 0 <= i < j < |ids| && ids[i] == ids[j];
    TwoOccurrences(TimesAt(measured, ids), i, j);
    SharedTime(nodes, measured, Rtt(measured, ids[i]));
  }

  lemma SharedTimeMeansRepeat(nodes: set<string>, measured: map<string, int>, ids: seq<string>)
    requires Measured(nodes, measured) && IsRanking(nodes, measured, ids) && !DistinctTimes(nodes, measured)
    ensures !Distinct(ids)
  {
    var p, q :| p in nodes && q in nodes && Rtt(measured, p) == Rtt(measured, q) && p != q;
    var t := Rtt(measured, p);
    TimesRemove(nodes, measured, p);
    TimesRemove(nodes - {p}, measured, q);
    TwoPositions(TimesAt(measured, ids), t);
    var i, j :| 0 <= i < j < |ids| && TimesAt(measured, ids)[i] == t && TimesAt(measured, ids)[j] == t;
    assert ids[i] == ids[j];
  }

  /** The ranking lists every node exactly once if and only if no two nodes were measured alike. */
  lemma RankingIsPermutation(nodes: set<string>, measured: map<string, int>, ids: seq<string>)
    requires Measured(nodes, measured) && IsRanking(nodes, measured, ids)
    ensures Distinct(ids) && (set p | p in ids) == nodes <==> DistinctTimes(nodes, measured)
  {
    if DistinctTimes(nodes, measured) {
      if !Distinct(ids) {
        RepeatMeansSharedTime(nodes, measured, ids);
      }
      forall p | p in nodes
        ensures p in ids
      {
        TimesRemove(nodes, measured, p);
        var times := TimesAt(measured, ids);
        assert Rtt(measured, p) in multiset(times);
        var i :| 0 <= i < |times| && times[i] == Rtt(measured, p);
        assert ids[i] == p;
      }
    } else {
      SharedTimeMeansRepeat(nodes, measured, ids);
    }
  }

  /** This node comes first as soon as every other time is positive, whatever ties there are. */
  lemma SelfRanksFirst(nodes: set<string>, measured: map<string, int>, ids: seq<string>)
    requires Measured(nodes, measured) && IsRanking(nodes, measured, ids)
    requires SELF in nodes
    requires forall p :: p in nodes && p != SELF ==> 0 < Rtt(measured, p)
    ensures ids != [] && ids[0] == SELF
  {
    TimesRemove(nodes, measured, SELF);
    var times := TimesAt(measured, ids);
    assert 0 in multiset(times);
    var i :| 0 <= i < |times| && times[i] == 0;
    assert Rtt(measured, ids[0]) <= Rtt(measured, ids[i]);
  }

  /** The times of all nodes as a list. */
  lemma {:induction false} ListTimes(nodes: set<string>, measured: map<string, int>) returns (rtts: seq<int>)
    requires Measured(nodes, measured)
    ensures multiset(rtts) == Times(nodes, measured) && |rtts| == |nodes|
    decreases |nodes|
  {
    if nodes == {} {
      rtts := [];
    } else {
      var p :| p in nodes;
      var rest := ListTimes(nodes - {p}, measured);
      rtts := [Rtt(measured, p)] + rest;
      TimesRemove(nodes, measured, p);
    }
  }

  /** A name for every time, with `p` naming its own. */
  lemma NamesPreferring(nodes: set<string>, measured: map<string, int>, p: string) returns (names: map<int, string>)
    requires Measured(nodes, measured) && p in nodes
    ensures Names(nodes, measured, names)
    ensures forall q :: q in nodes ==> Rtt(measured, q) in names
    ensures names[Rtt(measured, p)] == p
  {
    var times := set q | q in nodes :: Rtt(measured, q);
    names := map t | t in times :: if t == Rtt(measured, p) then p else var q :| q in nodes && Rtt(measured, q) == t; q;
  }

  /** Whichever node is visited last among those measured like it, there is a ranking that names it for all of them. */
  lemma RankingPreferring(nodes: set<string>, measured: map<string, int>, p: string) returns (ids: seq<string>)
    requires Measured(nodes, measured) && p in nodes
    ensures IsRanking(nodes, measured, ids)
    ensures forall i :: 0 <= i < |ids| && Rtt(measured, ids[i]) == Rtt(measured, p) ==> ids[i] == p
  {
    var unsorted := ListTimes(nodes, measured);
    var rtts := SortInts(unsorted);
    SortKeepsMembers(unsorted, rtts);
    var names := NamesPreferring(nodes, measured, p);
    forall k | 0 <= k < |rtts|
      ensures rtts[k] in names
    {
      assert rtts[k] in multiset(rtts);
      TimesMember(nodes, measured, rtts[k]);
    }
    ids := seq(|rtts|, k requires 0 <= k < |rtts| => names[rtts[k]]);
    NamedTimesRank(nodes, measured, rtts, names, ids);
    forall i | 0 <= i < |ids| && Rtt(measured, ids[i]) == Rtt(measured, p)
      ensures ids[i] == p
    {
      assert rtts[i] in names && ids[i] == names[rtts[i]];
    }
  }

  /** A peer whose time is not positive can take this node's place. */
  lemma OtherRanksFirst(nodes: set<string>, measured: map<string, int>, p: string) returns (ids: seq<string>)
    requires Measured(nodes, measured) && SELF in nodes && p in nodes && p != SELF && Rtt(measured, p) <= 0
    ensures IsRanking(nodes, measured, ids) && ids != [] && ids[0] != SELF
  {
    ids := RankingPreferring(nodes, measured, p);
    TimesRemove(nodes, measured, p);
    var times := TimesAt(measured, ids);
    assert Rtt(measured, p) in multiset(times);
    var i :| 0 <= i < |times| && times[i] == Rtt(measured, p);
    assert Rtt(measured, ids[0]) <= Rtt(measured, ids[i]);
  }

  /** `ids` starts with this node. */
  predicate StartsWithSelf(ids: seq<string>) {
    ids != [] && ids[0] == SELF
  }

  /** Every ranking that may result starts with this node if and only if every other time is positive. */
  lemma SelfRanksFirstIff(nodes: set<string>, measured: map<string, int>)
    requires Measured(nodes, measured) && SELF in nodes
    ensures (forall ids :: IsRanking(nodes, measured, ids) ==> StartsWithSelf(ids)) <==>
            (forall p :: p in nodes && p != SELF ==> 0 < Rtt(measured, p))
  {
    if forall p :: p in nodes && p != SELF ==> 0 < Rtt(measured, p) {
      forall ids | IsRanking(nodes, measured, ids)
        ensures StartsWithSelf(ids)
      {
        SelfRanksFirst(nodes, measured, ids);
      }
    } else {
      var p :| p in nodes && p != SELF && Rtt(measured, p) <= 0;
      var ids := OtherRanksFirst(nodes, measured, p);
      assert !StartsWithSelf(ids);
    }
  }

  lemma TwoTimes(p: string, q: string, measured: map<string, int>)
    requires p != q && Measured({p, q}, measured)
    ensures Times({p, q}, measured) == multiset{Rtt(measured, p), Rtt(measured, q)}
  {
    TimesRemove({p, q}, measured, p);
    assert {p, q} - {p} == {q};
    TimesRemove({q}, measured, q);
    assert {q} - {q} == {};
  }

  /** Two nodes measured alike, and only one of them listed: both positions name `q`. */
  lemma TiesCollapse(p: string, q: string, measured: map<string, int>)
    requires p != q && Measured({p, q}, measured) && Rtt(measured, p) == Rtt(measured, q)
    ensures IsRanking({p, q}, measured, [q, q])
  {
    var times := TimesAt(measured, [q, q]);
    assert times == [Rtt(measured, q), Rtt(measured, q)];
    assert multiset(times) == Times({p, q}, measured) by {
      TwoTimes(p, q, measured);
    }
  }
}
