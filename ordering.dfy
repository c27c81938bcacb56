/** Orders, sorting and dense index maps.

    Python's `sorted(some_set)` is modelled by `SortedOf` (a specification) and
    `SortedElements` (a method that walks the set in an arbitrary order, as
    Python's hash order is arbitrary); `{x: i for i, x in enumerate(order)}` is
    `IndexMap`; `sorted(xs, key=k)` with an integer key is `SortByKey`. */
module Ordering {

  /** `lt` is irreflexive, transitive and total on distinct values. */
  ghost predicate StrictTotalOrder<T(!new)>(lt: (T, T) -> bool) {
    && (forall x :: !lt(x, x))
    && (forall x, y, z :: lt(x, y) && lt(y, z) ==> lt(x, z))
    && (forall x, y :: x != y ==> lt(x, y) || lt(y, x))
  }

  /** Python's `<` on `int`. */
  predicate IntLess(a: int, b: int) {
    a < b
  }

  lemma IntLessIsStrictTotalOrder()
    ensures StrictTotalOrder(IntLess)
  {
  }

  predicate Distinct<T(==)>(s: seq<T>) {
    forall i, j :: 0 <= i < |s| && 0 <= j < |s| && i != j ==> s[i] != s[j]
  }

  predicate StrictlySorted<T>(s: seq<T>, lt: (T, T) -> bool) {
    forall i, j :: 0 <= i < j < |s| ==> lt(s[i], s[j])
  }

  /** `r` lists the elements of `s`, each once, in increasing order. */
  ghost predicate SortedEnumeration<T(!new)>(r: seq<T>, s: set<T>, lt: (T, T) -> bool) {
    && StrictlySorted(r, lt)
    && (forall x :: x in r <==> x in s)
  }

  lemma StrictlySortedIsDistinct<T(!new)>(r: seq<T>, lt: (T, T) -> bool)
    requires StrictTotalOrder(lt) && StrictlySorted(r, lt)
    ensures Distinct(r)
  {
    forall i, j | 0 <= i < |r| && 0 <= j < |r| && i != j
      ensures r[i] != r[j]
    {
      if i < j {
        assert lt(r[i], r[j]);
      } else {
        assert lt(r[j], r[i]);
      }
    }
  }

  /** Inserts `x` at its place in the sorted `r`. */
  function Insert<T(!new)>(r: seq<T>, x: T, lt: (T, T) -> bool): (q: seq<T>)
    requires StrictTotalOrder(lt) && StrictlySorted(r, lt) && x !in r
    ensures StrictlySorted(q, lt) && |q| == |r| + 1
    ensures forall y :: y in q <==> y in r || y == x
  {
    if r == [] then [x]
    else if lt(x, r[0]) then
      var q := [x] + r;
      assert forall j :: 0 < j < |q| ==> lt(x, q[j]) by {
        forall j | 0 < j < |q| ensures lt(x, q[j]) {
          if j > 1 { assert lt(r[0], r[j - 1]); }
        }
      }
      q
    else
      var tail := Insert(r[1..], x, lt);
      assert lt(r[0], x) by { assert x != r[0]; }
      assert forall y :: y in tail ==> lt(r[0], y) by {
        forall y | y in tail ensures lt(r[0], y) {
          if y != x {
            var j :| 0 <= j < |r[1..]| && r[1..][j] == y;
            assert r[j + 1] == y;
          }
        }
      }
      [r[0]] + tail
  }

  /** The sorted list of the elements of `s`: the value of Python's `sorted(s)`. */
  ghost function SortedOf<T(!new)>(s: set<T>, lt: (T, T) -> bool): (r: seq<T>)
    requires StrictTotalOrder(lt)
    ensures SortedEnumeration(r, s, lt)
    decreases s
  {
    if s == {} then []
    else
      var x :| x in s;
      Insert(SortedOf(s - {x}, lt), x, lt)
  }

  /** The first element of a sorted enumeration is the least element of the set. */
  lemma HeadIsLeast<T(!new)>(r: seq<T>, s: set<T>, lt: (T, T) -> bool)
    requires SortedEnumeration(r, s, lt) && r != []
    ensures forall y :: y in s ==> y == r[0] || lt(r[0], y)
  {
    forall y | y in s ensures y == r[0] || lt(r[0], y) {
      var i :| 0 <= i < |r| && r[i] == y;
      if i > 0 {
        assert lt(r[0], r[i]);
      }
    }
  }

  /** Dropping the first element of a sorted enumeration enumerates the rest of the set. */
  lemma TailEnumeratesRest<T(!new)>(r: seq<T>, s: set<T>, lt: (T, T) -> bool)
    requires StrictTotalOrder(lt) && SortedEnumeration(r, s, lt) && r != []
    ensures SortedEnumeration(r[1..], s - {r[0]}, lt)
  {
    forall x ensures x in r[1..] <==> x in s - {r[0]} {
      if x in r[1..] {
        var i :| 1 <= i < |r| && r[i] == x;
        assert lt(r[0], x);
      }
      if x in s - {r[0]} {
        var i :| 0 <= i < |r| && r[i] == x;
        assert r[1..][i - 1] == x;
      }
    }
  }

  /** A set has exactly one sorted enumeration. */
  lemma {:induction false} SortedEnumerationUnique<T(!new)>(r1: seq<T>, r2: seq<T>, s: set<T>, lt: (T, T) -> bool)
    requires StrictTotalOrder(lt)
    requires SortedEnumeration(r1, s, lt) && SortedEnumeration(r2, s, lt)
    ensures r1 == r2
    decreases |r1|
  {
    SortedEnumerationLength(r1, s, lt);
    SortedEnumerationLength(r2, s, lt);
    if r1 != [] {
      HeadIsLeast(r1, s, lt);
      HeadIsLeast(r2, s, lt);
      assert r1[0] in s && r2[0] in s;
      assert r1[0] == r2[0];
      TailEnumeratesRest(r1, s, lt);
      TailEnumeratesRest(r2, s, lt);
      SortedEnumerationUnique(r1[1..], r2[1..], s - {r1[0]}, lt);
      assert r1 == [r1[0]] + r1[1..] && r2 == [r2[0]] + r2[1..];
    }
  }

  /** A sorted enumeration has one position per element of the set. */
  lemma {:induction false} SortedEnumerationLength<T(!new)>(r: seq<T>, s: set<T>, lt: (T, T) -> bool)
    requires StrictTotalOrder(lt) && SortedEnumeration(r, s, lt)
    ensures |r| == |s|
    decreases |r|
  {
    if r != [] {
      TailEnumeratesRest(r, s, lt);
      SortedEnumerationLength(r[1..], s - {r[0]}, lt);
    } else {
      assert s == {} by {
        forall x ensures x !in s {
          assert x !in r;
        }
      }
    }
  }

  /** Python's `sorted(s)` on a set, walking the set in an arbitrary order. */
  method SortedElements<T(!new)>(s: set<T>, lt: (T, T) -> bool) returns (r: seq<T>)
    requires StrictTotalOrder(lt)
    ensures r == SortedOf(s, lt)
  {
    r := [];
    var rest := s;
    while rest != {}
      invariant rest <= s
      invariant SortedEnumeration(r, s - rest, lt)
      decreases rest
    {
      var x :| x in rest;
      r := Insert(r, x, lt);
      rest := rest - {x};
    }
    SortedEnumerationUnique(r, SortedOf(s, lt), s, lt);
  }

  /** Python's `sorted` on a set of integers. */
  ghost function SortedInts(s: set<int>): (r: seq<int>)
    ensures SortedEnumeration(r, s, IntLess) && Distinct(r) && |r| == |s|
  {
    IntLessIsStrictTotalOrder();
    StrictlySortedIsDistinct(SortedOf(s, IntLess), IntLess);
    SortedEnumerationLength(SortedOf(s, IntLess), s, IntLess);
    SortedOf(s, IntLess)
  }

  method SortInts(s: set<int>) returns (r: seq<int>)
    ensures r == SortedInts(s)
  {
    IntLessIsStrictTotalOrder();
    r := SortedElements(s, IntLess);
  }

  /** `{x: i for i, x in enumerate(order)}`. */
  function IndexMap<T(!new)>(order: seq<T>): (m: map<T, nat>)
    requires Distinct(order)
    ensures forall i :: 0 <= i < |order| ==> order[i] in m && m[order[i]] == i
    ensures forall x :: x in m <==> x in order
  {
    map i | 0 <= i < |order| :: order[i] := i
  }

  /** The number an element of the order is given is its position. */
  lemma IndexMapAt<T(!new)>(order: seq<T>, x: T)
    requires Distinct(order) && x in order
    ensures x in IndexMap(order) && IndexMap(order)[x] < |order| && order[IndexMap(order)[x]] == x
  {
    var i :| 0 <= i < |order| && order[i] == x;
  }

  /** `m` numbers the elements of `s` densely from 0 in increasing order:
      a bijection from `s` onto 0..|s|-1 that agrees with `lt`. */
  ghost predicate DenseIndex<T(!new)>(m: map<T, nat>, s: set<T>, lt: (T, T) -> bool) {
    && m.Keys == s
    && (forall x :: x in m ==> m[x] < |s|)
    && (forall i :: 0 <= i < |s| ==> i in m.Values)
    && (forall x, y :: x in m && y in m ==> (lt(x, y) <==> m[x] < m[y]))
  }

  /** Numbering the sorted elements by `enumerate` gives a dense, order-preserving index. */
  lemma SortedIndexIsDense<T(!new)>(s: set<T>, lt: (T, T) -> bool)
    requires StrictTotalOrder(lt)
    ensures Distinct(SortedOf(s, lt))
    ensures DenseIndex(IndexMap(SortedOf(s, lt)), s, lt)
  {
    var r := SortedOf(s, lt);
    StrictlySortedIsDistinct(r, lt);
    SortedEnumerationLength(r, s, lt);
    IndexMapDense(r, s, lt);
  }

  lemma IndexMapDense<T(!new)>(r: seq<T>, s: set<T>, lt: (T, T) -> bool)
    requires StrictTotalOrder(lt) && SortedEnumeration(r, s, lt) && Distinct(r) && |r| == |s|
    ensures DenseIndex(IndexMap(r), s, lt)
  {
    var m := IndexMap(r);
    assert m.Keys == s;
    forall x | x in m ensures m[x] < |s| {
      var i :| 0 <= i < |r| && r[i] == x;
    }
    forall i | 0 <= i < |s| ensures i in m.Values {
      assert r[i] in m && m[r[i]] == i;
    }
    forall x, y | x in m && y in m ensures lt(x, y) <==> m[x] < m[y] {
      IndexMapOrder(r, s, lt, x, y);
    }
  }

  lemma IndexMapOrder<T(!new)>(r: seq<T>, s: set<T>, lt: (T, T) -> bool, x: T, y: T)
    requires StrictTotalOrder(lt) && SortedEnumeration(r, s, lt) && Distinct(r)
    requires x in r && y in r
    ensures lt(x, y) <==> IndexMap(r)[x] < IndexMap(r)[y]
  {
    var i :| 0 <= i < |r| && r[i] == x;
    var j :| 0 <= j < |r| && r[j] == y;
    assert IndexMap(r)[x] == i && IndexMap(r)[y] == j;
    if i > j {
      assert lt(y, x);
    } else if i < j {
      assert lt(x, y);
    }
  }

  predicate SortedByKey<T>(s: seq<T>, key: T -> int) {
    forall i, j :: 0 <= i < j < |s| ==> key(s[i]) <= key(s[j])
  }

  /** Inserts `x` after every element whose key is not larger. */
  function InsertByKey<T>(r: seq<T>, x: T, key: T -> int): (q: seq<T>)
    requires SortedByKey(r, key)
    ensures SortedByKey(q, key)
    ensures multiset(q) == multiset(r) + multiset{x}
  {
    if r == [] then [x]
    else if key(x) < key(r[0]) then [x] + r
    else
      var tail := InsertByKey(r[1..], x, key);
      assert forall y :: y in tail ==> key(r[0]) <= key(y) by {
        forall y | y in tail ensures key(r[0]) <= key(y) {
          assert y in multiset(tail);
          if y != x {
            assert y in multiset(r[1..]);
            var j :| 0 <= j < |r[1..]| && r[1..][j] == y;
            assert r[j + 1] == y;
          }
        }
      }
      assert r == [r[0]] + r[1..];
      [r[0]] + tail
  }

  /** Python's `sorted(xs, key=key)`: a stable insertion sort on an integer key. */
  function SortByKey<T>(xs: seq<T>, key: T -> int): (r: seq<T>)
    ensures SortedByKey(r, key)
    ensures multiset(r) == multiset(xs)
  {
    if xs == [] then []
    else
      assert xs == xs[..|xs| - 1] + [xs[|xs| - 1]];
      InsertByKey(SortByKey(xs[..|xs| - 1], key), xs[|xs| - 1], key)
  }
}
