/** Choosing the cluster that executes an invocation, from recorded execution times. */
module Scheduler {
  import opened FaasTypes
  import opened MapSums
  import opened CatalogState

  const WEIGHT_FACTOR := 4
  const OVERLOAD_PENALTY := 4
  const MAX_FLOAT64 := 1.7976931348623157e308

  // ---------- powers and products ----------

  function Power(x: real, n: nat): real {
    if n == 0 then 1.0 else x * Power(x, n - 1)
  }

  lemma {:induction false} PowerMonotone(x: real, y: real, n: nat)
    requires 0.0 <= x <= y
    ensures 0.0 <= Power(x, n) <= Power(y, n)
  {
    if n == 0 {
    } else {
      PowerMonotone(x, y, n - 1);
      ProductMonotone(x, y, Power(x, n - 1), Power(y, n - 1));
    }
  }

  lemma ProductMonotone(a: real, b: real, c: real, d: real)
    requires 0.0 <= a <= b && 0.0 <= c <= d
    ensures 0.0 <= a * c <= b * d
  {
    assert a * c <= b * c;
    assert b * c <= b * d;
  }

  lemma {:induction false} PowerOfOne(n: nat)
    ensures Power(1.0, n) == 1.0
  {
    if n == 0 {
    } else {
      PowerOfOne(n - 1);
    }
  }

  lemma {:induction false} PowerGrows(x: real, m: nat, n: nat)
    requires 1.0 <= x && m <= n
    ensures 1.0 <= Power(x, m) <= Power(x, n)
    decreases n
  {
    PowerOfOne(m);
    PowerMonotone(1.0, x, m);
    if m == n {
    } else {
      PowerGrows(x, m, n - 1);
      ProductMonotone(1.0, x, Power(x, n - 1), Power(x, n - 1));
    }
  }

  /** Combining a map's values with an operation, independent of the order in which keys are visited. */
  ghost function Fold(m: map<string, real>, op: (real, real) -> real, unit: real): real {
    if m == map[] then unit else
      var k :| k in m;
      op(m[k], Fold(m - {k}, op, unit))
  }

  ghost predicate LeftCommutes(op: (real, real) -> real) {
    forall a, b, c :: Swaps(op, a, b, c)
  }

  ghost predicate Swaps(op: (real, real) -> real, a: real, b: real, c: real) {
    op(a, op(b, c)) == op(b, op(a, c))
  }

  lemma {:induction false} FoldRemove(m: map<string, real>, op: (real, real) -> real, unit: real, k: string)
    requires LeftCommutes(op) && k in m
    ensures Fold(m, op, unit) == op(m[k], Fold(m - {k}, op, unit))
    decreases |m|
  {
    var j :| j in m && Fold(m, op, unit) == op(m[j], Fold(m - {j}, op, unit));
    if j != k {
      FoldRemove(m - {j}, op, unit, k);
      FoldRemove(m - {k}, op, unit, j);
      assert m - {j} - {k} == m - {k} - {j};
      assert Swaps(op, m[j], m[k], Fold(m - {j} - {k}, op, unit));
    }
  }

  function Times(a: real, b: real): real {
    a * b
  }

  /** The product of a map's values. */
  ghost function Product(m: map<string, real>): real {
    Fold(m, Times, 1.0)
  }

  lemma TimesCommutes()
    ensures LeftCommutes(Times)
  {
    forall a: real, b: real, c: real
      ensures Swaps(Times, a, b, c)
    {
      assert a * (b * c) == b * (a * c);
    }
  }

  lemma ProductRemove(m: map<string, real>, k: string)
    requires k in m
    ensures Product(m) == m[k] * Product(m - {k})
  {
    TimesCommutes();
    FoldRemove(m, Times, 1.0, k);
    var rest := Product(m - {k});
    assert Product(m) == Times(m[k], rest);
  }

  lemma ProductAdd(m: map<string, real>, k: string, v: real)
    requires k !in m
    ensures Product(m[k := v]) == Product(m) * v
  {
    ProductRemove(m[k := v], k);
    assert m[k := v] - {k} == m;
  }

  /** Every factor at least 1 makes the product at least 1. */
  lemma {:induction false} ProductAtLeastOne(m: map<string, real>)
    requires forall k :: k in m ==> 1.0 <= m[k]
    ensures 1.0 <= Product(m)
    decreases |m|
  {
    if m == map[] {
    } else {
      var k :| k in m;
      ProductRemove(m, k);
      ProductAtLeastOne(m - {k});
      ProductMonotone(1.0, m[k], 1.0, Product(m - {k}));
    }
  }

  // ---------- weights ----------

  predicate Eligible(nodes: map<string, NodeInfo>, f: string, p: string) {
    p in nodes && 0 < Count(nodes[p], f)
  }

  function Factor(info: NodeInfo): nat {
    if info.overload then WEIGHT_FACTOR + OVERLOAD_PENALTY else WEIGHT_FACTOR
  }

  /** Every eligible node has a recorded time, as the key inclusion guarantees, and it is a 64-bit value. */
  predicate Timed(nodes: map<string, NodeInfo>, f: string) {
    forall p :: p in nodes && Eligible(nodes, f, p) ==>
      f in nodes[p].execTime && -INT64_LIMIT <= nodes[p].execTime[f] < INT64_LIMIT
  }

  function RawTimes(nodes: map<string, NodeInfo>, f: string): map<string, real>
    requires Timed(nodes, f)
  {
    map p | p in nodes && Eligible(nodes, f, p) :: nodes[p].execTime[f] as real
  }

  /** `minTime` is the smallest of the times. */
  predicate IsSmallest(raw: map<string, real>, minTime: real) {
    && (exists p :: p in raw && raw[p] == minTime)
    && (forall p :: p in raw ==> minTime <= raw[p])
  }

  /** Besides, all times are positive, so that each can be taken relative to it. */
  predicate IsLeast(raw: map<string, real>, minTime: real) {
    0.0 < minTime && IsSmallest(raw, minTime)
  }

  function Rated(info: NodeInfo, time: real, minTime: real): real
    requires 0.0 < minTime
  {
    Power(time / minTime, Factor(info))
  }

  /** Each time relative to the least one, raised to the node's factor. */
  function Weighted(nodes: map<string, NodeInfo>, raw: map<string, real>, minTime: real): map<string, real>
    requires 0.0 < minTime && raw.Keys <= nodes.Keys
  {
    map p | p in raw :: Rated(nodes[p], raw[p], minTime)
  }

  /** The weight handed to the random choice. */
  ghost function Weight(weighted: map<string, real>, p: string): int
    requires p in weighted && weighted[p] != 0.0
  {
    (Product(weighted) / weighted[p] * 10.0).Floor
  }

  lemma WeightedAtLeastOne(nodes: map<string, NodeInfo>, raw: map<string, real>, minTime: real)
    requires raw.Keys <= nodes.Keys && IsLeast(raw, minTime)
    ensures forall p :: p in raw ==> 1.0 <= Weighted(nodes, raw, minTime)[p]
  {
    forall p | p in raw
      ensures 1.0 <= Weighted(nodes, raw, minTime)[p]
    {
      RatioAtLeastOne(raw[p], minTime);
      PowerGrows(raw[p] / minTime, 0, Factor(nodes[p]));
    }
  }

  lemma RatioAtLeastOne(a: real, b: real)
    requires 0.0 < b <= a
    ensures 1.0 <= a / b
  {
  }

  /** A node's weight is ten times the product of the others' weighted times: its own does not enter. */
  lemma WeightIsOthers(weighted: map<string, real>, p: string)
    requires p in weighted && weighted[p] != 0.0
    ensures Weight(weighted, p) == (Product(weighted - {p}) * 10.0).Floor
  {
    ProductRemove(weighted, p);
    CancelFactor(weighted[p], Product(weighted - {p}));
  }

  lemma CancelFactor(a: real, b: real)
    requires a != 0.0
    ensures a * b / a == b
  {
  }

  /** Every eligible node gets a weight of at least ten. */
  lemma WeightAtLeastTen(nodes: map<string, NodeInfo>, raw: map<string, real>, minTime: real, p: string)
    requires raw.Keys <= nodes.Keys && IsLeast(raw, minTime) && p in raw
    ensures 1.0 <= Weighted(nodes, raw, minTime)[p]
    ensures 10 <= Weight(Weighted(nodes, raw, minTime), p)
  {
    var weighted := Weighted(nodes, raw, minTime);
    WeightedAtLeastOne(nodes, raw, minTime);
    WeightIsOthers(weighted, p);
    ProductAtLeastOne(weighted - {p});
  }

  /** A smaller weighted time never means a smaller weight. */
  lemma WeightAntitone(weighted: map<string, real>, p: string, q: string)
    requires p in weighted && q in weighted
    requires forall k :: k in weighted ==> 1.0 <= weighted[k]
    requires weighted[p] <= weighted[q]
    ensures Weight(weighted, q) <= Weight(weighted, p)
  {
    ProductAtLeastOne(weighted);
    DivideByMore(Product(weighted), weighted[p], weighted[q]);
  }

  lemma DivideByMore(a: real, b: real, c: real)
    requires 0.0 <= a && 0.0 < b <= c
    ensures a / c <= a / b
  {
    assert a / c * b <= a / c * c;
  }

  /** Among nodes alike in overload, the faster one has the larger weight. */
  lemma FasterWeighsMore(nodes: map<string, NodeInfo>, raw: map<string, real>, minTime: real, p: string, q: string)
    requires raw.Keys <= nodes.Keys && IsLeast(raw, minTime)
    requires p in raw && q in raw && raw[p] <= raw[q] && nodes[p].overload == nodes[q].overload
    ensures 1.0 <= Weighted(nodes, raw, minTime)[p] && 1.0 <= Weighted(nodes, raw, minTime)[q]
    ensures Weight(Weighted(nodes, raw, minTime), q) <= Weight(Weighted(nodes, raw, minTime), p)
  {
    WeightedAtLeastOne(nodes, raw, minTime);
    RatioMonotone(raw[p], raw[q], minTime);
    PowerMonotone(raw[p] / minTime, raw[q] / minTime, Factor(nodes[p]));
    WeightAntitone(Weighted(nodes, raw, minTime), p, q);
  }

  lemma RatioMonotone(a: real, b: real, c: real)
    requires 0.0 <= a <= b && 0.0 < c
    ensures 0.0 <= a / c <= b / c
  {
  }

  /** The fastest node has the largest weight of all, even when it is overloaded. */
  lemma FastestWeighsMost(nodes: map<string, NodeInfo>, raw: map<string, real>, minTime: real, p: string, q: string)
    requires raw.Keys <= nodes.Keys && IsLeast(raw, minTime)
    requires p in raw && q in raw && raw[p] == minTime
    ensures 1.0 <= Weighted(nodes, raw, minTime)[p] && 1.0 <= Weighted(nodes, raw, minTime)[q]
    ensures Weight(Weighted(nodes, raw, minTime), q) <= Weight(Weighted(nodes, raw, minTime), p)
  {
    WeightedAtLeastOne(nodes, raw, minTime);
    CancelFactor(minTime, 1.0);
    PowerOfOne(Factor(nodes[p]));
    WeightAntitone(Weighted(nodes, raw, minTime), p, q);
  }

  lemma FourTimes(x: real, p: real)
    ensures x * (x * (x * (x * p))) == x * x * x * x * p
  {
  }

  lemma FourMore(x: real, n: nat)
    ensures Power(x, n + 4) == x * x * x * x * Power(x, n)
  {
    var p := Power(x, n);
    assert Power(x, n + 1) == x * p;
    assert Power(x, n + 2) == x * Power(x, n + 1);
    assert Power(x, n + 3) == x * Power(x, n + 2);
    assert Power(x, n + 4) == x * Power(x, n + 3);
    FourTimes(x, p);
  }

  /** `w` is the fourth power of `x`; for an overloaded node that squared. */
  predicate Penalised(overload: bool, x: real, w: real) {
    var y := x * x * x * x;
    w == if overload then y * y else y
  }

  /** The weighted time is that of the time over the least one. */
  lemma RatedIs(info: NodeInfo, time: real, minTime: real)
    requires 0.0 < minTime
    ensures Penalised(info.overload, time / minTime, Rated(info, time, minTime))
  {
    FourMore(time / minTime, 0);
    FourMore(time / minTime, 4);
  }

  lemma StrictlyMore(a: real, b: real)
    requires 0.0 < a && 1.0 < b
    ensures a < a * b
  {
    assert a * b - a == a * (b - 1.0);
  }

  lemma SlowerThanLeast(info: NodeInfo, time: real, minTime: real)
    requires 0.0 < minTime < time && !info.overload
    ensures 1.0 < Rated(info, time, minTime)
  {
    var x := time / minTime;
    assert 1.0 < x;
    RatedIs(info, time, minTime);
    StrictlyMore(x, x);
    StrictlyMore(x * x, x);
    StrictlyMore(x * x * x, x);
  }

  /** The value at `k` is squared, all others are kept. */
  predicate SquaredAt(m: map<string, real>, n: map<string, real>, k: string) {
    k in m && k in n && n == m[k := n[k]] && n[k] == m[k] * m[k]
  }

  /** Squaring one factor multiplies the product by it. */
  lemma OneFactorSquared(m: map<string, real>, n: map<string, real>, k: string)
    requires SquaredAt(m, n, k)
    ensures Product(n) == Product(m) * m[k]
  {
    var rest, y, z := Product(m - {k}), m[k], n[k];
    assert Product(m) == y * rest by {
      ProductRemove(m, k);
    }
    assert Product(n) == z * rest by {
      ProductRemove(n, k);
      assert n - {k} == m - {k};
    }
    assert y * y * rest == y * rest * y;
  }

  lemma OverloadSquaresRated(info: NodeInfo, time: real, minTime: real)
    requires 0.0 < minTime && !info.overload
    ensures var y := Rated(info, time, minTime);
            Rated(info.(overload := true), time, minTime) == y * y
  {
    RatedIs(info, time, minTime);
    RatedIs(info.(overload := true), time, minTime);
  }

  lemma OneRatedAnew(nodes: map<string, NodeInfo>, raw: map<string, real>, minTime: real, p: string, info: NodeInfo)
    requires raw.Keys <= nodes.Keys && 0.0 < minTime && p in raw
    ensures Weighted(nodes[p := info], raw, minTime) == Weighted(nodes, raw, minTime)[p := Rated(info, raw[p], minTime)]
  {
  }

  /** Becoming overloaded squares a node's own weighted time and leaves all others. */
  lemma OverloadSquares(nodes: map<string, NodeInfo>, raw: map<string, real>, minTime: real, p: string)
    requires raw.Keys <= nodes.Keys && 0.0 < minTime && p in raw && !nodes[p].overload
    ensures SquaredAt(Weighted(nodes, raw, minTime),
                      Weighted(nodes[p := nodes[p].(overload := true)], raw, minTime), p)
  {
    OneRatedAnew(nodes, raw, minTime, p, nodes[p].(overload := true));
    OverloadSquaresRated(nodes[p], raw[p], minTime);
  }

  lemma MoreForOthers(before: map<string, real>, after: map<string, real>, p: string, q: string)
    requires p in before && q in before && q != p && forall k :: k in before ==> 1.0 <= before[k]
    requires SquaredAt(before, after, p)
    ensures Product(after - {q}) == Product(before - {q}) * before[p]
    ensures Product(before - {q}) <= Product(after - {q})
    ensures 1.0 < before[p] ==> Product(before - {q}) < Product(after - {q})
  {
    OneFactorSquared(before - {q}, after - {q}, p);
    ProductAtLeastOne(before - {q});
    AtLeastAsMuch(Product(before - {q}), before[p]);
    if 1.0 < before[p] {
      StrictlyMore(Product(before - {q}), before[p]);
    }
  }

  lemma AtLeastAsMuch(a: real, b: real)
    requires 0.0 <= a && 1.0 <= b
    ensures a <= a * b
  {
    assert a * b - a == a * (b - 1.0);
  }

  lemma FloorMonotone(a: real, b: real)
    requires a <= b
    ensures (a * 10.0).Floor <= (b * 10.0).Floor
  {
  }

  lemma OverloadedWeighted(nodes: map<string, NodeInfo>, raw: map<string, real>, minTime: real, p: string)
    requires raw.Keys <= nodes.Keys && IsLeast(raw, minTime) && p in raw && !nodes[p].overload
    ensures var before := Weighted(nodes, raw, minTime);
            var after := Weighted(nodes[p := nodes[p].(overload := true)], raw, minTime);
            && (forall k :: k in raw ==> 1.0 <= before[k] && 1.0 <= after[k])
            && SquaredAt(before, after, p)
            && (minTime < raw[p] ==> 1.0 < before[p])
  {
    WeightedAtLeastOne(nodes, raw, minTime);
    WeightedAtLeastOne(nodes[p := nodes[p].(overload := true)], raw, minTime);
    OverloadSquares(nodes, raw, minTime, p);
    if minTime < raw[p] {
      SlowerThanLeast(nodes[p], raw[p], minTime);
    }
  }

  /**
   From `before` to `after` the weight of `p` stays; that of another node `q` follows its product, which grows by
   exactly the old weighted time of `p`, strictly if `strict`.
   */
  ghost predicate Shifts(before: map<string, real>, after: map<string, real>, p: string, q: string, strict: bool) {
    && p in before && q in before && q in after && 1.0 <= before[q] && 1.0 <= after[q]
    && if q == p then Weight(after, q) == Weight(before, q)
       else
         && Product(after - {q}) == Product(before - {q}) * before[p]
         && Weight(before, q) <= Weight(after, q) == (Product(after - {q}) * 10.0).Floor
         && (strict ==> Product(before - {q}) < Product(after - {q}))
  }

  lemma SquaringShifts(before: map<string, real>, after: map<string, real>, p: string, q: string)
    requires SquaredAt(before, after, p) && q in before
    requires forall k :: k in before ==> 1.0 <= before[k] && 1.0 <= after[k]
    ensures Shifts(before, after, p, q, 1.0 < before[p])
  {
    WeightIsOthers(before, q);
    WeightIsOthers(after, q);
    if q == p {
      assert before - {p} == after - {p};
    } else {
      MoreForOthers(before, after, p, q);
      FloorMonotone(Product(before - {q}), Product(after - {q}));
    }
  }

  /**
   Becoming overloaded leaves a node's own weight exactly as it was. Every other node's product grows by exactly the
   weighted time of the overloaded one, and strictly if that was not the fastest: the penalty works only through
   the others.
   */
  lemma OverloadShiftsWeight(nodes: map<string, NodeInfo>, raw: map<string, real>, minTime: real, p: string, q: string)
    requires raw.Keys <= nodes.Keys && IsLeast(raw, minTime) && p in raw && q in raw && !nodes[p].overload
    ensures Shifts(Weighted(nodes, raw, minTime), Weighted(nodes[p := nodes[p].(overload := true)], raw, minTime),
                   p, q, minTime < raw[p])
  {
    OverloadedWeighted(nodes, raw, minTime, p);
    SquaringShifts(Weighted(nodes, raw, minTime), Weighted(nodes[p := nodes[p].(overload := true)], raw, minTime), p, q);
  }

  // ---------- when the random choice fails ----------

  const MAX_INT := 0x7fff_ffff_ffff_ffff

  /** The choices handed to the random chooser. */
  ghost function Choices(nodes: map<string, NodeInfo>, raw: map<string, real>, minTime: real): map<string, int>
    requires raw.Keys <= nodes.Keys && IsLeast(raw, minTime)
  {
    WeightedAtLeastOne(nodes, raw, minTime);
    map p | p in raw :: Weight(Weighted(nodes, raw, minTime), p)
  }

  /** The weights add up to more than the chooser can count. */
  ghost predicate Overflows(nodes: map<string, NodeInfo>, raw: map<string, real>)
    requires raw.Keys <= nodes.Keys
  {
    exists minTime :: IsLeast(raw, minTime) && MAX_INT <= Sum(Choices(nodes, raw, minTime))
  }

  lemma OverflowsAt(nodes: map<string, NodeInfo>, raw: map<string, real>, minTime: real)
    requires raw.Keys <= nodes.Keys && IsLeast(raw, minTime)
    ensures Overflows(nodes, raw) <==> MAX_INT <= Sum(Choices(nodes, raw, minTime))
  {
    forall m | IsLeast(raw, m)
      ensures m == minTime
    {
      var p :| p in raw && raw[p] == m;
      var q :| q in raw && raw[q] == minTime;
    }
  }

  /** A recorded time of zero or less makes the weights something other than numbers; then `odd` is what happens. */
  ghost predicate ChooserFails(nodes: map<string, NodeInfo>, f: string, odd: bool)
    requires Timed(nodes, f)
  {
    var raw := RawTimes(nodes, f);
    if exists p :: p in raw && raw[p] <= 0.0 then odd else Overflows(nodes, raw)
  }

  lemma ProductAtLeastFactor(m: map<string, real>, k: string)
    requires k in m && forall j :: j in m ==> 1.0 <= m[j]
    ensures m[k] <= Product(m)
  {
    ProductRemove(m, k);
    ProductAtLeastOne(m - {k});
    ProductMonotone(m[k], m[k], 1.0, Product(m - {k}));
  }

  /** One node slow enough against the fastest makes the choice fail, whatever the others are. */
  lemma SlowNodeOverflows(nodes: map<string, NodeInfo>, raw: map<string, real>, minTime: real, p: string, q: string)
    requires raw.Keys <= nodes.Keys && IsLeast(raw, minTime) && p in raw && q in raw && p != q
    requires MAX_INT as real <= Rated(nodes[q], raw[q], minTime) * 10.0
    ensures Overflows(nodes, raw)
  {
    var weighted := Weighted(nodes, raw, minTime);
    WeightedAtLeastOne(nodes, raw, minTime);
    WeightIsOthers(weighted, p);
    ProductAtLeastFactor(weighted - {p}, q);
    OneChoiceOverflows(nodes, raw, minTime, p);
  }

  lemma OneChoiceOverflows(nodes: map<string, NodeInfo>, raw: map<string, real>, minTime: real, p: string)
    requires raw.Keys <= nodes.Keys && IsLeast(raw, minTime) && p in raw
    requires MAX_INT <= Choices(nodes, raw, minTime)[p]
    ensures Overflows(nodes, raw)
  {
    var choices := Choices(nodes, raw, minTime);
    forall q | q in choices
      ensures 0 <= choices[q]
    {
      WeightAtLeastTen(nodes, raw, minTime, q);
    }
    SumAtLeast(choices);
  }
}
