/** Python's list.sort(key=...) is a stable sort. It is modelled here as a stable
    insertion sort: every element is inserted after all elements whose key is not
    larger, so equal keys keep their original order. */
module Sorting {
  import opened Base

  ghost predicate SortedBy<T>(s: seq<T>, key: T -> int) {
    forall i, j :: 0 <= i < j < |s| ==> key(s[i]) <= key(s[j])
  }

  /** Inserts x after every leading element whose key is at most key(x). */
  function Insert<T>(x: T, s: seq<T>, key: T -> int): (r: seq<T>)
    ensures |r| == |s| + 1
  {
    if s == [] || key(x) < key(s[0]) then [x] + s
    else [s[0]] + Insert(x, s[1..], key)
  }

  lemma {:induction false} InsertPerm<T>(x: T, s: seq<T>, key: T -> int)
    ensures multiset(Insert(x, s, key)) == multiset(s) + multiset{x}
  {
    if s != [] && key(s[0]) <= key(x) {
      InsertPerm(x, s[1..], key);
      assert s == [s[0]] + s[1..];
    }
  }

  /** Stable sort by key: insert the last element into the sorted prefix. */
  function SortBy<T>(s: seq<T>, key: T -> int): (r: seq<T>)
    ensures |r| == |s|
  {
    if s == [] then []
    else Insert(s[|s| - 1], SortBy(s[..|s| - 1], key), key)
  }

  /** SortBy returns a permutation of its input. */
  lemma {:induction false} SortByPerm<T>(s: seq<T>, key: T -> int)
    ensures multiset(SortBy(s, key)) == multiset(s)
  {
    if s != [] {
      SortByPerm(s[..|s| - 1], key);
      InsertPerm(s[|s| - 1], SortBy(s[..|s| - 1], key), key);
      assert s == s[..|s| - 1] + [s[|s| - 1]];
    }
  }

  lemma {:induction false} InsertSorted<T>(x: T, s: seq<T>, key: T -> int)
    requires SortedBy(s, key)
    ensures SortedBy(Insert(x, s, key), key)
    decreases |s|
  {
    if s == [] || key(x) < key(s[0]) {
    } else {
      var t := s[1..];
      assert SortedBy(t, key);
      InsertSorted(x, t, key);
      var r := Insert(x, t, key);
      InsertPerm(x, t, key);
      forall k | 0 <= k < |r| ensures key(s[0]) <= key(r[k]) {
        assert r[k] in multiset(r);
        assert r[k] in multiset(t) || r[k] == x;
      }
    }
  }

  /** The result of SortBy is ordered by key. */
  lemma {:induction false} SortBySorted<T>(s: seq<T>, key: T -> int)
    ensures SortedBy(SortBy(s, key), key)
    decreases |s|
  {
    if s != [] {
      SortBySorted(s[..|s| - 1], key);
      InsertSorted(s[|s| - 1], SortBy(s[..|s| - 1], key), key);
    }
  }

  lemma {:induction false} InsertFront<T>(x: T, s: seq<T>, key: T -> int)
    requires forall y :: y in s ==> key(x) < key(y)
    ensures Insert(x, s, key) == [x] + s
  {
    if s != [] {
      assert s[0] in s;
    }
  }

  lemma FilterInsertFront<T>(x: T, s: seq<T>, key: T -> int, p: T -> bool)
    requires SortedBy(s, key)
    requires s != [] && key(x) < key(s[0])
    ensures Filter(Insert(x, s, key), p)
         == if p(x) then Insert(x, Filter(s, p), key) else Filter(s, p)
  {
    if p(x) {
      var fs := Filter(s, p);
      FilterMembers(s, p);
      forall y | y in fs ensures key(x) < key(y) {
        var i :| 0 <= i < |fs| && fs[i] == y;
        var j :| 0 <= j < |s| && s[j] == y;
      }
      InsertFront(x, fs, key);
    }
  }

  lemma FilterInsertEmpty<T>(x: T, key: T -> int, p: T -> bool)
    ensures Filter(Insert(x, [], key), p)
         == if p(x) then Insert(x, Filter([], p), key) else Filter([], p)
  {
    assert Insert(x, [], key) == [x];
    assert [x][1..] == [];
  }

  /** Insert(x, s) for x not before s[0], split into s[0] and the rest. */
  lemma InsertLater<T>(x: T, s: seq<T>, key: T -> int)
    requires s != [] && key(s[0]) <= key(x)
    ensures Insert(x, s, key) == [s[0]] + Insert(x, s[1..], key)
  {
  }

  lemma FilterInsertLater<T>(x: T, s: seq<T>, key: T -> int, p: T -> bool)
    requires s != [] && key(s[0]) <= key(x)
    requires Filter(Insert(x, s[1..], key), p)
          == if p(x) then Insert(x, Filter(s[1..], p), key) else Filter(s[1..], p)
    ensures Filter(Insert(x, s, key), p)
         == if p(x) then Insert(x, Filter(s, p), key) else Filter(s, p)
  {
    var t := s[1..];
    var it := Insert(x, t, key);
    InsertLater(x, s, key);
    assert ([s[0]] + it)[1..] == it;
    var ft := Filter(t, p);
    if p(x) && p(s[0]) {
      FilterInsertBoth(x, s, key, p);
    } else if p(s[0]) {
      assert Filter(Insert(x, s, key), p) == [s[0]] + Filter(it, p);
      assert Filter(it, p) == ft;
      assert Filter(s, p) == [s[0]] + ft;
    } else if p(x) {
      assert Filter(Insert(x, s, key), p) == Filter(it, p);
      assert Filter(it, p) == Insert(x, ft, key);
      assert Filter(s, p) == ft;
    } else {
      assert Filter(Insert(x, s, key), p) == Filter(it, p);
      assert Filter(it, p) == ft;
      assert Filter(s, p) == ft;
    }
  }

  lemma FilterInsertBoth<T>(x: T, s: seq<T>, key: T -> int, p: T -> bool)
    requires s != [] && key(s[0]) <= key(x) && p(x) && p(s[0])
    requires Filter(Insert(x, s[1..], key), p) == Insert(x, Filter(s[1..], p), key)
    ensures Filter(Insert(x, s, key), p) == Insert(x, Filter(s, p), key)
  {
    var t := s[1..];
    var it := Insert(x, t, key);
    var ft := Filter(t, p);
    InsertLater(x, s, key);
    assert ([s[0]] + it)[1..] == it;
    assert Filter(Insert(x, s, key), p) == [s[0]] + Filter(it, p);
    assert Filter(s, p) == [s[0]] + ft;
    assert ([s[0]] + ft)[1..] == ft;
    InsertLater(x, [s[0]] + ft, key);
  }

  lemma {:induction false} FilterInsert<T>(x: T, s: seq<T>, key: T -> int, p: T -> bool)
    requires SortedBy(s, key)
    ensures Filter(Insert(x, s, key), p)
         == if p(x) then Insert(x, Filter(s, p), key) else Filter(s, p)
    decreases |s|
  {
    if s == [] {
      FilterInsertEmpty(x, key, p);
    } else if key(x) < key(s[0]) {
      FilterInsertFront(x, s, key, p);
    } else {
      assert SortedBy(s[1..], key);
      FilterInsert(x, s[1..], key, p);
      FilterInsertLater(x, s, key, p);
    }
  }

  /** Sorting commutes with filtering: a stable sort keeps the relative order
      of the elements that the filter keeps. */
  lemma {:induction false} FilterSortBy<T>(s: seq<T>, key: T -> int, p: T -> bool)
    ensures Filter(SortBy(s, key), p) == SortBy(Filter(s, p), key)
    decreases |s|
  {
    if s != [] {
      var init, x := s[..|s| - 1], s[|s| - 1];
      assert s == init + [x];
      FilterSortBy(init, key, p);
      SortBySorted(init, key);
      FilterInsert(x, SortBy(init, key), key, p);
      FilterSnoc(init, x, p);
      if p(x) {
        assert Filter(s, p) == Filter(init, p) + [x];
        assert Filter(s, p)[..|Filter(s, p)| - 1] == Filter(init, p);
      } else {
        assert Filter(s, p) == Filter(init, p);
      }
    }
  }

  lemma {:induction false} MapInsert<T, U>(x: T, s: seq<T>, k1: T -> int, f: T -> U, k2: U -> int)
    requires forall y :: k2(f(y)) == k1(y)
    ensures Map(Insert(x, s, k1), f) == Insert(f(x), Map(s, f), k2)
    decreases |s|
  {
    if s == [] || k1(x) < k1(s[0]) {
    } else {
      MapInsert(x, s[1..], k1, f, k2);
      assert Map(s, f)[1..] == Map(s[1..], f);
    }
  }

  /** Sorting commutes with a map that keeps the sort key. */
  lemma {:induction false} MapSortBy<T, U>(s: seq<T>, k1: T -> int, f: T -> U, k2: U -> int)
    requires forall y :: k2(f(y)) == k1(y)
    ensures Map(SortBy(s, k1), f) == SortBy(Map(s, f), k2)
    decreases |s|
  {
    if s != [] {
      var init, x := s[..|s| - 1], s[|s| - 1];
      MapSortBy(init, k1, f, k2);
      MapInsert(x, SortBy(init, k1), k1, f, k2);
      assert Map(s, f)[..|s| - 1] == Map(init, f);
    }
  }
}
