/** What the Go sort library promises, for integers, for strings and (stably) for named values. */
module Sorting {

  // ---------- integers ----------

  ghost predicate Ascending(s: seq<int>) {
    forall i :: 0 < i < |s| ==> s[i - 1] <= s[i]
  }

  lemma {:induction false} AscendingApart(s: seq<int>, i: nat, j: nat)
    requires Ascending(s) && i <= j < |s|
    ensures s[i] <= s[j]
    decreases j
  {
    if i < j {
      AscendingApart(s, i, j - 1);
    }
  }

  lemma HeadAndTail<T>(s: seq<T>)
    requires s != []
    ensures multiset(s) == multiset{s[0]} + multiset(s[1..])
  {
    assert s == [s[0]] + s[1..];
  }

  function InsertInt(x: int, s: seq<int>): (r: seq<int>)
    requires Ascending(s)
    ensures Ascending(r) && multiset(r) == multiset(s) + multiset{x}
    ensures r != [] && (r[0] == x || (s != [] && r[0] == s[0]))
  {
    if s == [] || x <= s[0] then [x] + s else
      var rest := InsertInt(x, s[1..]);
      HeadAndTail(s);
      assert multiset([s[0]] + rest) == multiset{s[0]} + multiset(rest);
      [s[0]] + rest
  }

  function SortInts(s: seq<int>): (r: seq<int>)
    ensures Ascending(r) && multiset(r) == multiset(s)
  {
    if s == [] then [] else
      HeadAndTail(s);
      InsertInt(s[0], SortInts(s[1..]))
  }

  // ---------- strings ----------

  /** The order of Go's string comparison. */
  predicate AtMost(a: string, b: string) {
    a == [] || (b != [] && (a[0] < b[0] || (a[0] == b[0] && AtMost(a[1..], b[1..]))))
  }

  lemma {:induction false} AtMostTotal(a: string, b: string)
    ensures AtMost(a, b) || AtMost(b, a)
  {
    if a != [] && b != [] && a[0] == b[0] {
      AtMostTotal(a[1..], b[1..]);
    }
  }

  lemma {:induction false} AtMostAntisymmetric(a: string, b: string)
    requires AtMost(a, b) && AtMost(b, a)
    ensures a == b
  {
    if a == [] || b == [] {
    } else {
      AtMostAntisymmetric(a[1..], b[1..]);
      assert a == [a[0]] + a[1..] && b == [b[0]] + b[1..];
    }
  }

  lemma {:induction false} AtMostTransitive(a: string, b: string, c: string)
    requires AtMost(a, b) && AtMost(b, c)
    ensures AtMost(a, c)
  {
    if a != [] && b != [] && c != [] && a[0] == b[0] == c[0] {
      AtMostTransitive(a[1..], b[1..], c[1..]);
    }
  }

  /** Each string is at most the next. */
  ghost predicate InOrder(s: seq<string>) {
    forall i :: 0 < i < |s| ==> AtMost(s[i - 1], s[i])
  }

  lemma {:induction false} FirstIsLeast(s: seq<string>, i: nat)
    requires InOrder(s) && i < |s|
    ensures AtMost(s[0], s[i])
  {
    if i == 0 {
      AtMostTotal(s[0], s[0]);
    } else {
      FirstIsLeast(s, i - 1);
      AtMostTransitive(s[0], s[i - 1], s[i]);
    }
  }

  function InsertString(x: string, s: seq<string>): (r: seq<string>)
    requires InOrder(s)
    ensures InOrder(r) && multiset(r) == multiset(s) + multiset{x}
    ensures r != [] && (r[0] == x || (s != [] && r[0] == s[0]))
  {
    if s == [] || AtMost(x, s[0]) then [x] + s else
      AtMostTotal(x, s[0]);
      var rest := InsertString(x, s[1..]);
      HeadAndTail(s);
      assert multiset([s[0]] + rest) == multiset{s[0]} + multiset(rest);
      [s[0]] + rest
  }

  function SortStrings(s: seq<string>): (r: seq<string>)
    ensures InOrder(r) && multiset(r) == multiset(s)
  {
    if s == [] then [] else
      HeadAndTail(s);
      InsertString(s[0], SortStrings(s[1..]))
  }

  lemma FirstNotAbove(a: seq<string>, b: seq<string>)
    requires InOrder(a) && a != [] && b != [] && multiset(a) == multiset(b)
    ensures AtMost(a[0], b[0])
  {
    assert b[0] in multiset(b);
    assert b[0] in a;
    var i :| 0 <= i < |a| && a[i] == b[0];
    FirstIsLeast(a, i);
  }

  /** With the same first element, the rests have the same elements. */
  lemma SameTails(a: seq<string>, b: seq<string>)
    requires a != [] && b != [] && a[0] == b[0] && multiset(a) == multiset(b)
    ensures multiset(a[1..]) == multiset(b[1..])
  {
    HeadAndTail(a);
    HeadAndTail(b);
    assert multiset(a[1..]) == multiset(a) - multiset{a[0]};
    assert multiset(b[1..]) == multiset(b) - multiset{b[0]};
  }

  /** Sorted sequences with the same elements are the same sequence. */
  lemma {:induction false} SortedUnique(a: seq<string>, b: seq<string>)
    requires InOrder(a) && InOrder(b) && multiset(a) == multiset(b)
    ensures a == b
  {
    assert |a| == |multiset(a)| == |multiset(b)| == |b|;
    if a == [] {
    } else {
      assert a[0] == b[0] by {
        FirstNotAbove(a, b);
        FirstNotAbove(b, a);
        AtMostAntisymmetric(a[0], b[0]);
      }
      SameTails(a, b);
      SortedUnique(a[1..], b[1..]);
      assert a == [a[0]] + a[1..] && b == [b[0]] + b[1..];
    }
  }

  // ---------- named values, stably ----------

  datatype EnvVar = EnvVar(name: string, value: string)

  /** The values with one name, in order. */
  function Named(s: seq<EnvVar>, name: string): seq<EnvVar> {
    if s == [] then [] else
      (if s[0].name == name then [s[0]] else []) + Named(s[1..], name)
  }

  ghost predicate ByName(s: seq<EnvVar>) {
    forall i :: 0 < i < |s| ==> AtMost(s[i - 1].name, s[i].name)
  }

  /** Insert before the first value whose name is not smaller. */
  function InsertByName(x: EnvVar, s: seq<EnvVar>): (r: seq<EnvVar>)
    requires ByName(s)
    ensures ByName(r)
    ensures r != [] && (r[0] == x || (s != [] && r[0] == s[0]))
  {
    if s == [] || AtMost(x.name, s[0].name) then [x] + s else
      AtMostTotal(x.name, s[0].name);
      [s[0]] + InsertByName(x, s[1..])
  }

  function StableSort(s: seq<EnvVar>): (r: seq<EnvVar>)
    ensures ByName(r)
  {
    if s == [] then [] else InsertByName(s[0], StableSort(s[1..]))
  }

  lemma NamedCons(x: EnvVar, s: seq<EnvVar>, name: string)
    ensures Named([x] + s, name) == (if x.name == name then [x] else []) + Named(s, name)
  {
    assert ([x] + s)[1..] == s;
  }

  /** Values with different names may change places. */
  lemma NamedSwap(x: EnvVar, y: EnvVar, s: seq<EnvVar>, name: string)
    requires x.name != y.name
    ensures Named([x] + ([y] + s), name) == Named([y] + ([x] + s), name)
  {
    NamedCons(x, [y] + s, name);
    NamedCons(y, s, name);
    NamedCons(y, [x] + s, name);
    NamedCons(x, s, name);
  }

  lemma {:induction false} InsertKeepsNamed(x: EnvVar, s: seq<EnvVar>, name: string)
    requires ByName(s)
    ensures Named(InsertByName(x, s), name) == Named([x] + s, name)
  {
    if s == [] || AtMost(x.name, s[0].name) {
    } else {
      AtMostTotal(x.name, s[0].name);
      InsertKeepsNamed(x, s[1..], name);
      NamedCons(s[0], InsertByName(x, s[1..]), name);
      NamedCons(s[0], [x] + s[1..], name);
      NamedSwap(x, s[0], s[1..], name);
      assert s == [s[0]] + s[1..];
    }
  }

  /** Stability: values with the same name keep their order. */
  lemma {:induction false} SortIsStable(s: seq<EnvVar>, name: string)
    ensures Named(StableSort(s), name) == Named(s, name)
  {
    if s == [] {
    } else {
      SortIsStable(s[1..], name);
      InsertKeepsNamed(s[0], StableSort(s[1..]), name);
      assert ([s[0]] + StableSort(s[1..]))[1..] == StableSort(s[1..]);
    }
  }
}
