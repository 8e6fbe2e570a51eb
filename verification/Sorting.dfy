/**
  The in-place sort the allocators rely on. Go's `sort` package promises only that the
  result is a permutation ordered by `Less`; nothing here promises more, so every
  theorem that uses it holds whatever order the library gives to ties.
 */
module Sorting {
  import opened Sets

  /** `less` is a strict weak order: irreflexive, and "not after" is transitive and total. */
  ghost predicate StrictWeakOrder<T(!new)>(less: (T, T) -> bool) {
    && (forall x :: !less(x, x))
    && (forall x, y :: less(x, y) ==> !less(y, x))
    && (forall x, y, z :: !less(y, x) && !less(z, y) ==> !less(z, x))
  }

  ghost predicate Ordered<T>(s: seq<T>, less: (T, T) -> bool) {
    forall i, j :: 0 <= i < j < |s| ==> !less(s[j], s[i])
  }

  /** A permutation has the same members. */
  lemma SameMembers<T>(s: seq<T>, t: seq<T>)
    requires multiset(s) == multiset(t)
    ensures |s| == |t|
    ensures forall x :: x in s <==> x in t
  {
    assert |multiset(s)| == |multiset(t)|;
    forall x
      ensures x in s <==> x in t
    {
      assert x in s <==> x in multiset(s);
      assert x in t <==> x in multiset(t);
    }
  }

  lemma DistinctPermutation<T>(s: seq<T>, t: seq<T>)
    requires Distinct(s) && multiset(s) == multiset(t)
    ensures Distinct(t) && Elems(t) == Elems(s) && |t| == |s|
  {
    SameMembers(s, t);
    forall i, j | 0 <= i < j < |t|
      ensures t[i] != t[j]
    {
      if t[i] == t[j] {
        OnceEach(s, t[j]);
        TwiceIn(t, i, j);
        assert false;
      }
    }
  }

  lemma {:induction false} OnceEach<T>(s: seq<T>, x: T)
    requires Distinct(s)
    ensures multiset(s)[x] <= 1
    decreases |s|
  {
    if s != [] {
      OnceEach(s[1..], x);
      assert s == [s[0]] + s[1..];
      if s[0] == x {
        assert x !in s[1..];
      }
    }
  }

  lemma TwiceIn<T>(t: seq<T>, i: nat, j: nat)
    requires i < j < |t| && t[i] == t[j]
    ensures multiset(t)[t[j]] >= 2
  {
    assert t == t[..j] + [t[j]] + t[j + 1..];
    assert t[i] in t[..j];
  }

  method SmallestFrom<T(!new)>(a: array<T>, lo: nat, less: (T, T) -> bool) returns (m: nat)
    requires lo < a.Length && StrictWeakOrder(less)
    ensures lo <= m < a.Length
    ensures forall j :: lo <= j < a.Length ==> !less(a[j], a[m])
  {
    m := lo;
    for i := lo + 1 to a.Length
      invariant lo <= m < a.Length
      invariant forall j :: lo <= j < i ==> !less(a[j], a[m])
    {
      if less(a[i], a[m]) {
        m := i;
      }
    }
  }

  method Swap<T>(a: array<T>, i: nat, j: nat)
    requires i < a.Length && j < a.Length
    modifies a
    ensures multiset(a[..]) == old(multiset(a[..]))
    ensures a[i] == old(a[j]) && a[j] == old(a[i])
    ensures forall k :: 0 <= k < a.Length && k != i && k != j ==> a[k] == old(a[k])
  {
    a[i], a[j] := a[j], a[i];
  }

  method SortInPlace<T(!new)>(a: array<T>, less: (T, T) -> bool)
    requires StrictWeakOrder(less)
    modifies a
    ensures multiset(a[..]) == old(multiset(a[..]))
    ensures Ordered(a[..], less)
  {
    for i := 0 to a.Length
      invariant multiset(a[..]) == old(multiset(a[..]))
      invariant forall j, k :: 0 <= j < i && j < k < a.Length ==> !less(a[k], a[j])
    {
      var m := SmallestFrom(a, i, less);
      Swap(a, i, m);
    }
  }

  /** Sorts a list that its owner goes on to reslice. */
  method SortList<T(!new)>(s: seq<T>, less: (T, T) -> bool) returns (t: seq<T>)
    requires StrictWeakOrder(less)
    ensures multiset(t) == multiset(s)
    ensures Ordered(t, less)
  {
    var a := new T[|s|](i requires 0 <= i < |s| => s[i]);
    assert a[..] == s;
    SortInPlace(a, less);
    t := a[..];
  }
}
