/** Sorting by a comparison, and facts about sequences without repetition. */
module Sorting {

  ghost predicate NoDup<T(!new)>(s: seq<T>) {
    forall i, j | 0 <= i < j < |s| :: s[i] != s[j]
  }

  ghost predicate Sorted<T(!new)>(less: (T, T) -> bool, s: seq<T>) {
    forall i, j | 0 <= i < j < |s| :: !less(s[j], s[i])
  }

  ghost predicate StrictlySorted<T(!new)>(less: (T, T) -> bool, s: seq<T>) {
    forall i, j | 0 <= i < j < |s| :: less(s[i], s[j])
  }

  /** The comparisons sorted by here: irreflexive, transitive, and so is "not less". */
  ghost predicate WeakOrder<T(!new)>(less: (T, T) -> bool) {
    && (forall x :: !less(x, x))
    && (forall x, y, z :: less(x, y) && less(y, z) ==> less(x, z))
    && (forall x, y, z :: !less(x, y) && !less(y, z) ==> !less(x, z))
  }

  /** Insertion sort; the comparisons of the program leave equal elements in either order. */
  method Sort<T(!new)>(less: (T, T) -> bool, s: seq<T>) returns (t: seq<T>)
    requires WeakOrder(less)
    ensures Sorted(less, t) && multiset(t) == multiset(s)
  {
    t := [];
    for i := 0 to |s|
      invariant Sorted(less, t) && multiset(t) == multiset(s[..i])
    {
      assert s[..i + 1] == s[..i] + [s[i]];
      var k := |t|;
      while k > 0 && less(s[i], t[k - 1])
        invariant 0 <= k <= |t|
        invariant forall j | k <= j < |t| :: less(s[i], t[j])
      {
        k := k - 1;
      }
      assert t == t[..k] + t[k..];
      assert multiset(t) == multiset(t[..k]) + multiset(t[k..]);
      ghost var before := t;
      t := t[..k] + [s[i]] + t[k..];
      forall a, b | 0 <= a < b < |t| ensures !less(t[b], t[a]) {
        InsertedInOrder(less, before, s[i], k, t, a, b);
      }
    }
    assert s[..|s|] == s;
  }

  lemma InsertedInOrder<T(!new)>(less: (T, T) -> bool, s: seq<T>, x: T, k: nat, t: seq<T>, a: nat, b: nat)
    requires WeakOrder(less) && Sorted(less, s) && k <= |s|
    requires forall j | k <= j < |s| :: less(x, s[j])
    requires k > 0 ==> !less(x, s[k - 1])
    requires t == s[..k] + [x] + s[k..] && a < b < |t|
    ensures !less(t[b], t[a])
  {
    if b == k {
      assert t[a] == s[a];
      assert a < k - 1 ==> !less(s[k - 1], s[a]);
    } else if a == k {
      assert t[b] == s[b - 1];
    } else {
      assert t[a] == if a < k then s[a] else s[a - 1];
      assert t[b] == if b < k then s[b] else s[b - 1];
    }
  }

  lemma {:induction false} CountOfNoDup<T(!new)>(s: seq<T>, x: T)
    requires NoDup(s)
    ensures multiset(s)[x] <= 1
  {
    if s != [] {
      var n := |s| - 1;
      CountOfNoDup(s[..n], x);
      assert s == s[..n] + [s[n]];
      assert s[n] !in s[..n];
    }
  }

  lemma NoDupPermutation<T(!new)>(s: seq<T>, t: seq<T>)
    requires NoDup(s) && multiset(s) == multiset(t)
    ensures NoDup(t)
  {
    forall i, j | 0 <= i < j < |t| ensures t[i] != t[j] {
      CountOfNoDup(s, t[j]);
      assert t == t[..j] + ([t[j]] + t[j + 1..]);
      assert multiset(t) == multiset(t[..j]) + multiset([t[j]]) + multiset(t[j + 1..]);
      assert t[i] in t[..j];
    }
  }

  lemma SameElements<T(!new)>(s: seq<T>, t: seq<T>)
    requires multiset(s) == multiset(t)
    ensures forall x :: x in s <==> x in t
  {
    forall x ensures x in s <==> x in t {
      assert x in s <==> x in multiset(s);
      assert x in t <==> x in multiset(t);
    }
  }

  lemma {:induction false} NoDupCard<T(!new)>(s: seq<T>, elems: set<T>)
    requires NoDup(s) && elems == (set x | x in s)
    ensures |elems| == |s|
  {
    if s != [] {
      var n := |s| - 1;
      NoDupCard(s[..n], set x | x in s[..n]);
      assert s == s[..n] + [s[n]];
      assert elems == (set x | x in s[..n]) + {s[n]};
    }
  }

  /** Two strictly sorted sequences with the same elements are the same sequence. */
  lemma {:induction false} StrictlySortedUnique<T(!new)>(less: (T, T) -> bool, s: seq<T>, t: seq<T>)
    requires WeakOrder(less) && StrictlySorted(less, s) && StrictlySorted(less, t)
    requires forall x :: x in s <==> x in t
    ensures s == t
  {
    assert t != [] ==> t[0] in t;
    if s != [] {
      assert s[0] in s;
      var i :| 0 <= i < |t| && t[i] == s[0];
      var j :| 0 <= j < |s| && s[j] == t[0];
      assert i == 0 && j == 0;
      forall x ensures x in s[1..] <==> x in t[1..] {
        assert x in s <==> x == s[0] || x in s[1..];
        assert x in t <==> x == t[0] || x in t[1..];
        assert s[0] !in s[1..] && t[0] !in t[1..];
      }
      StrictlySortedUnique(less, s[1..], t[1..]);
    }
  }

  /** The elements of a set, in any order. */
  method Listed<T(!new, ==)>(elems: set<T>) returns (list: seq<T>)
    ensures NoDup(list) && |list| == |elems| && forall x :: x in list <==> x in elems
  {
    list := [];
    var rest := elems;
    while rest != {}
      invariant rest <= elems && |list| + |rest| == |elems|
      invariant NoDup(list) && forall x :: x in list <==> x in elems && x !in rest
    {
      var x :| x in rest;
      assert forall i | 0 <= i < |list| :: list[i] in list;
      rest := rest - {x};
      list := list + [x];
    }
  }

  lemma ListOf<T(!new)>(elems: set<T>) returns (list: seq<T>)
    ensures NoDup(list) && forall x :: x in list <==> x in elems
  {
    if elems == {} {
      list := [];
    } else {
      var x :| x in elems;
      var rest := ListOf(elems - {x});
      list := rest + [x];
    }
  }
}
