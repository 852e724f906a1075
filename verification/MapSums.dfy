/** Sums over the values of a finite map, independent of the order in which keys are visited. */
module MapSums {

  ghost function Sum(m: map<string, int>): int {
    if m == map[] then 0 else
      var k :| k in m;
      m[k] + Sum(m - {k})
  }

  /** Any key may be taken out first. */
  lemma {:induction false} SumRemove(m: map<string, int>, k: string)
    requires k in m
    ensures Sum(m) == m[k] + Sum(m - {k})
  {
    var j :| j in m && Sum(m) == m[j] + Sum(m - {j});
    if j != k {
      SumRemove(m - {j}, k);
      SumRemove(m - {k}, j);
      assert m - {j} - {k} == m - {k} - {j};
    }
  }

  lemma SumUpdate(m: map<string, int>, k: string, v: int)
    ensures Sum(m[k := v]) == Sum(m) + v - (if k in m then m[k] else 0)
  {
    SumRemove(m[k := v], k);
    if k in m {
      SumRemove(m, k);
      assert m[k := v] - {k} == m - {k};
    } else {
      assert m[k := v] - {k} == m;
    }
  }

  /** With no negative entry the sum is at least each single entry. */
  lemma {:induction false} SumAtLeast(m: map<string, int>)
    requires forall k :: k in m ==> 0 <= m[k]
    ensures 0 <= Sum(m)
    ensures forall k :: k in m ==> m[k] <= Sum(m)
    decreases |m|
  {
    forall k | k in m
      ensures m[k] <= Sum(m)
    {
      SumRemove(m, k);
      SumAtLeast(m - {k});
    }
    if m == map[] {
    } else {
      var k :| k in m;
      assert m[k] <= Sum(m);
    }
  }

  /** A positive sum has a positive entry. */
  lemma {:induction false} SumPositive(m: map<string, int>)
    requires 0 < Sum(m)
    ensures exists k :: k in m && 0 < m[k]
    decreases |m|
  {
    if m == map[] {
    } else {
      var k :| k in m;
      SumRemove(m, k);
      if m[k] <= 0 {
        SumPositive(m - {k});
      }
    }
  }

  /** Renaming one key leaves the sum alone. */
  lemma SumRename(m: map<string, int>, n: map<string, int>, k: string, j: string)
    requires k in m && j in n && k !in n
    requires m.Keys == n.Keys - {j} + {k}
    requires m[k] == n[j]
    requires forall x :: x in n && x != j ==> m[x] == n[x]
    ensures Sum(m) == Sum(n)
  {
    SumRemove(m, k);
    SumRemove(n, j);
    assert m - {k} == n - {j};
  }
}
