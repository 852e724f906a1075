/** Removing named items from a slice in place, and what that means for the sequence it holds. */
module Volumes {

  datatype Projection = SecretProjection(secret: string, keys: set<string>) | OtherProjection

  datatype VolumeSource = EmptyDir | Projected(sources: seq<Projection>) | OtherSource

  datatype Volume = Volume(name: string, source: VolumeSource)

  datatype VolumeMount = VolumeMount(name: string, mountPath: string, readOnly: bool)

  function VolumeName(v: Volume): string {
    v.name
  }

  function MountName(m: VolumeMount): string {
    m.name
  }

  /** The items not called `name`, in order. */
  function Without<T>(s: seq<T>, nameOf: T -> string, name: string): (r: seq<T>)
    ensures |r| <= |s|
  {
    if s == [] then [] else
      var last := s[|s| - 1];
      Without(s[..|s| - 1], nameOf, name) + (if nameOf(last) != name then [last] else [])
  }

  /** Nothing called `name` stays, and nothing else goes. */
  lemma {:induction false} WithoutKeeps<T>(s: seq<T>, nameOf: T -> string, name: string, x: T)
    ensures multiset(Without(s, nameOf, name))[x] == if nameOf(x) == name then 0 else multiset(s)[x]
  {
    if s == [] {
    } else {
      var front, last := s[..|s| - 1], s[|s| - 1];
      WithoutKeeps(front, nameOf, name, x);
      assert s == front + [last];
    }
  }

  lemma {:induction false} WithoutConcat<T>(s: seq<T>, t: seq<T>, nameOf: T -> string, name: string)
    ensures Without(s + t, nameOf, name) == Without(s, nameOf, name) + Without(t, nameOf, name)
  {
    if t == [] {
      assert s + t == s;
    } else {
      WithoutConcat(s, t[..|t| - 1], nameOf, name);
      assert (s + t)[..|s + t| - 1] == s + t[..|t| - 1];
    }
  }

  lemma {:induction false} WithoutTwice<T>(s: seq<T>, nameOf: T -> string, name: string)
    ensures Without(Without(s, nameOf, name), nameOf, name) == Without(s, nameOf, name)
  {
    if s == [] {
    } else {
      var front, last := s[..|s| - 1], s[|s| - 1];
      WithoutTwice(front, nameOf, name);
      var kept := if nameOf(last) != name then [last] else [];
      WithoutConcat(Without(front, nameOf, name), kept, nameOf, name);
      WithoutOne(last, nameOf, name);
    }
  }

  lemma WithoutOne<T>(x: T, nameOf: T -> string, name: string)
    ensures Without([x], nameOf, name) == if nameOf(x) != name then [x] else []
  {
    assert [x][..0] == [];
    assert Without([x][..0], nameOf, name) == [];
  }

  lemma {:induction false} WithoutCommutes<T>(s: seq<T>, nameOf: T -> string, a: string, b: string)
    ensures Without(Without(s, nameOf, a), nameOf, b) == Without(Without(s, nameOf, b), nameOf, a)
  {
    if s == [] {
    } else {
      var front, last := s[..|s| - 1], s[|s| - 1];
      WithoutCommutes(front, nameOf, a, b);
      var keptA := if nameOf(last) != a then [last] else [];
      var keptB := if nameOf(last) != b then [last] else [];
      WithoutConcat(Without(front, nameOf, a), keptA, nameOf, b);
      WithoutConcat(Without(front, nameOf, b), keptB, nameOf, a);
      WithoutOne(last, nameOf, a);
      WithoutOne(last, nameOf, b);
    }
  }

  lemma WithoutFew<T>(s: seq<T>, nameOf: T -> string, name: string)
    requires |s| <= 1
    ensures s != [] && nameOf(s[0]) == name ==> Without(s, nameOf, name) == []
    ensures s != [] && nameOf(s[0]) != name ==> Without(s, nameOf, name) == s
    ensures s == [] ==> Without(s, nameOf, name) == []
  {
    if s == [] {
    } else {
      assert s == [s[0]];
      WithoutOne(s[0], nameOf, name);
    }
  }

  /** How many items are called `name`. */
  function CountNamed<T>(s: seq<T>, nameOf: T -> string, name: string): nat {
    |s| - |Without(s, nameOf, name)|
  }

  /** Replacing what is called `name` leaves the other items, in order, and as many with that name as are put in. */
  lemma ReplacedExactly<T>(s: seq<T>, extra: seq<T>, nameOf: T -> string, name: string)
    requires |extra| <= 1 && (extra != [] ==> nameOf(extra[0]) == name)
    ensures var r := Without(s, nameOf, name) + extra;
            Without(r, nameOf, name) == Without(s, nameOf, name) && CountNamed(r, nameOf, name) == |extra|
  {
    WithoutConcat(Without(s, nameOf, name), extra, nameOf, name);
    WithoutTwice(s, nameOf, name);
    WithoutFew(extra, nameOf, name);
    assert Without(s, nameOf, name) + [] == Without(s, nameOf, name);
  }

  lemma {:induction false} WithoutIsAll<T>(s: seq<T>, nameOf: T -> string, name: string)
    ensures |Without(s, nameOf, name)| == |s| <==> Without(s, nameOf, name) == s
  {
    if s == [] {
    } else {
      var front, last := s[..|s| - 1], s[|s| - 1];
      WithoutIsAll(front, nameOf, name);
      assert s == front + [last];
    }
  }

  /**
   The filter that appends into the very slice it reads, the first `len` items of the array. The write position
   never passes the read position, so no item is overwritten before it is read; what is beyond the result is
   left as it was.
   */
  method RemoveInPlace<T>(name: string, nameOf: T -> string, items: array<T>, len: nat) returns (n: nat)
    requires len <= items.Length
    modifies items
    ensures n <= len
    ensures items[..n] == Without(old(items[..len]), nameOf, name)
    ensures items[n..] == old(items[..])[n..]
  {
    n := 0;
    ghost var was := items[..];
    for i := 0 to len
      invariant n <= i
      invariant items[..n] == Without(was[..i], nameOf, name)
      invariant forall k :: n <= k < items.Length ==> items[k] == was[k]
    {
      var v := items[i];
      assert was[..i + 1][..i] == was[..i];
      if nameOf(v) != name {
        items[n] := v;
        n := n + 1;
      }
    }
    assert was[..len] == old(items[..len]);
  }

  /**
   Remove and then append to the shortened slice: if the array has room behind what was kept, the new item goes
   there, where an old one may still stand; otherwise into a new array, and the old one is as it was.
   */
  method ReplaceInPlace<T>(name: string, nameOf: T -> string, items: array<T>, len: nat, item: T)
    returns (r: array<T>, n: nat)
    requires len <= items.Length
    modifies items
    ensures n <= r.Length && r[..n] == Without(old(items[..len]), nameOf, name) + [item]
    ensures r == items || fresh(r)
    ensures r == items <==> n <= items.Length
    ensures r == items ==> items[n..] == old(items[..])[n..]
    ensures r != items ==> items[..] == old(items[..])
  {
    ghost var was := items[..];
    WithoutIsAll(was[..len], nameOf, name);
    n := RemoveInPlace(name, nameOf, items, len);
    assert was[..len] == old(items[..len]);
    if n < items.Length {
      items[n] := item;
      r := items;
      assert items[n + 1..] == was[n..][1..];
    } else {
      r := new T[n + 1](i requires 0 <= i <= n && n <= items.Length reads items => if i < n then items[i] else item);
      assert r[..n] == items[..n] == items[..];
      assert was[..len] == was;
    }
    n := n + 1;
  }

  /** The slice in a field, without the items called `name` and with at most one new one. */
  method Replace<T>(name: string, nameOf: T -> string, items: seq<T>, extra: seq<T>) returns (r: seq<T>)
    requires |extra| <= 1
    ensures r == Without(items, nameOf, name) + extra
  {
    var a := new T[|items|](i requires 0 <= i < |items| => items[i]);
    assert a[..|items|] == items;
    if |extra| == 1 {
      var b, n := ReplaceInPlace(name, nameOf, a, |items|, extra[0]);
      r := b[..n];
      assert extra == [extra[0]];
    } else {
      var n := RemoveInPlace(name, nameOf, a, |items|);
      r := a[..n];
    }
  }
}
