/** The sort used for `Array.prototype.sort(compare)`: a stable insertion
    sort that moves each new element left past the ones the comparator says
    belong after it (`compare(y, x) > 0`). For a comparator that is a
    consistent ordering every stable sort gives this result; for one that is
    not, the order JavaScript engines produce is engine-specific and this is
    the one the model fixes. */
module Sorting {
  import opened Seqs

  /** Inserts `x` into `t`, scanning from the back. */
  function Insert<T>(t: seq<T>, x: T, cmp: (T, T) -> int): (r: seq<T>)
    ensures multiset(r) == multiset(t) + multiset{x}
  {
    if t == [] then [x]
    else if cmp(t[|t| - 1], x) > 0 then
      assert t == t[..|t| - 1] + [t[|t| - 1]];
      Insert(t[..|t| - 1], x, cmp) + [t[|t| - 1]]
    else t + [x]
  }

  /** `s` sorted with the comparator `cmp`; always a permutation of `s`. */
  function SortBy<T>(s: seq<T>, cmp: (T, T) -> int): (r: seq<T>)
    ensures multiset(r) == multiset(s)
  {
    if s == [] then []
    else
      assert s == s[..|s| - 1] + [s[|s| - 1]];
      Insert(SortBy(s[..|s| - 1], cmp), s[|s| - 1], cmp)
  }

  /** `cmp` orders the elements of `s` as the integer `key` does. */
  ghost predicate OrdersAsKey<T>(s: seq<T>, cmp: (T, T) -> int, key: T -> int) {
    forall a, b :: a in s && b in s ==> (cmp(a, b) > 0 <==> key(a) > key(b))
  }

  /** `r` is in non-decreasing order of `key`. */
  ghost predicate Ascending<T>(r: seq<T>, key: T -> int) {
    forall i, j :: 0 <= i < j < |r| ==> key(r[i]) <= key(r[j])
  }

  /** An element at least as large as everything before it extends key order. */
  lemma AscendingAppend<T>(u: seq<T>, z: T, key: T -> int)
    requires Ascending(u, key)
    requires forall y :: y in u ==> key(y) <= key(z)
    ensures Ascending(u + [z], key)
  {
    var r := u + [z];
    forall i, j | 0 <= i < j < |r| ensures key(r[i]) <= key(r[j]) {
      if j == |r| - 1 {
        assert r[i] in u;
      } else {
        assert r[i] == u[i] && r[j] == u[j];
      }
    }
  }

  /** In a key-ordered sequence every element is at most the last one. */
  lemma AscendingBelowLast<T>(t: seq<T>, key: T -> int)
    requires t != [] && Ascending(t, key)
    ensures forall y :: y in t[..|t| - 1] ==> key(y) <= key(t[|t| - 1])
  {
    forall y | y in t[..|t| - 1] ensures key(y) <= key(t[|t| - 1]) {
      var i :| 0 <= i < |t| - 1 && t[..|t| - 1][i] == y;
      assert t[i] == y;
    }
  }

  lemma {:induction false} InsertAscending<T>(t: seq<T>, x: T, cmp: (T, T) -> int, key: T -> int)
    requires Ascending(t, key)
    requires forall y :: y in t ==> (cmp(y, x) > 0 <==> key(y) > key(x))
    ensures Ascending(Insert(t, x, cmp), key)
  {
    if t != [] {
      var init, last := t[..|t| - 1], t[|t| - 1];
      assert t == init + [last];
      assert last in t;
      AscendingBelowLast(t, key);
      if cmp(last, x) > 0 {
        assert forall y :: y in init ==> y in t;
        assert Ascending(init, key);
        InsertAscending(init, x, cmp, key);
        var u := Insert(init, x, cmp);
        forall y | y in u ensures key(y) <= key(last) {
          assert y in multiset(u);
        }
        AscendingAppend(u, last, key);
      } else {
        forall y | y in t ensures key(y) <= key(x) {
          if y != last {
            assert y in init;
          }
        }
        AscendingAppend(t, x, key);
      }
    }
  }

  /** Sorting with a comparator that orders as a key gives key order. */
  lemma {:induction false} SortByAscending<T>(s: seq<T>, cmp: (T, T) -> int, key: T -> int)
    requires OrdersAsKey(s, cmp, key)
    ensures Ascending(SortBy(s, cmp), key)
  {
    if s != [] {
      var init, last := s[..|s| - 1], s[|s| - 1];
      assert forall y :: y in init ==> y in s;
      SortByAscending(init, cmp, key);
      var t := SortBy(init, cmp);
      forall y | y in t ensures cmp(y, last) > 0 <==> key(y) > key(last) {
        assert y in multiset(t);
        assert y in init;
      }
      InsertAscending(t, last, cmp, key);
    }
  }

  /** The two one-element filters commute when at most one of them keeps its element. */
  lemma SingletonFiltersCommute<T>(x: T, y: T, p: T -> bool)
    requires !(p(x) && p(y))
    ensures Filter([x], p) + Filter([y], p) == Filter([y], p) + Filter([x], p)
  {
    if p(x) {
      assert Filter([y], p) == [];
    } else {
      assert Filter([x], p) == [];
    }
  }

  lemma {:induction false} InsertFilter<T>(t: seq<T>, x: T, cmp: (T, T) -> int, p: T -> bool)
    requires p(x) ==> forall y :: y in t && p(y) ==> cmp(y, x) <= 0
    ensures Filter(Insert(t, x, cmp), p) == Filter(t, p) + Filter([x], p)
    decreases |t|, 1
  {
    if t != [] {
      var init, last := t[..|t| - 1], t[|t| - 1];
      if cmp(last, x) > 0 {
        assert t == init + [last];
        InsertFilterPast(init, last, x, cmp, p);
      } else {
        FilterAppend(t, [x], p);
      }
    }
  }

  /** The step of InsertFilter where `x` moves past the last element. */
  lemma {:induction false} InsertFilterPast<T>(init: seq<T>, last: T, x: T, cmp: (T, T) -> int, p: T -> bool)
    requires p(x) ==> forall y :: y in init + [last] && p(y) ==> cmp(y, x) <= 0
    requires cmp(last, x) > 0
    ensures Filter(Insert(init + [last], x, cmp), p) == Filter(init + [last], p) + Filter([x], p)
    decreases |init| + 1, 0
  {
    var t := init + [last];
    assert t[..|t| - 1] == init && t[|t| - 1] == last;
    var u := Insert(init, x, cmp);
    assert Insert(t, x, cmp) == u + [last];
    assert p(x) ==> forall y :: y in init && p(y) ==> cmp(y, x) <= 0 by {
      assert forall y :: y in init ==> y in t;
    }
    InsertFilter(init, x, cmp, p);
    FilterAppend(u, [last], p);
    FilterAppend(init, [last], p);
    SingletonFiltersCommute(x, last, p);
  }

  /** Elements the comparator never moves past each other keep their relative
      order: for `p` such that no two `p`-elements compare positive, the
      `p`-elements of the result are those of the input, in input order. */
  lemma {:induction false} SortByKeepsOrderOf<T>(s: seq<T>, cmp: (T, T) -> int, p: T -> bool)
    requires forall a, b :: a in s && b in s && p(a) && p(b) ==> cmp(a, b) <= 0
    ensures Filter(SortBy(s, cmp), p) == Filter(s, p)
  {
    if s != [] {
      var init, last := s[..|s| - 1], s[|s| - 1];
      assert s == init + [last];
      assert forall y :: y in init ==> y in s;
      SortByKeepsOrderOf(init, cmp, p);
      var t := SortBy(init, cmp);
      forall y | y in t ensures y in s {
        assert y in multiset(t);
        assert y in init;
      }
      InsertFilter(t, last, cmp, p);
      FilterAppend(init, [last], p);
    }
  }

  /** A comparator that never answers "after" leaves the sequence as it is. */
  lemma SortByIdentity<T>(s: seq<T>, cmp: (T, T) -> int)
    requires forall a, b :: a in s && b in s ==> cmp(a, b) <= 0
    ensures SortBy(s, cmp) == s
  {
    SortByKeepsOrderOf(s, cmp, _ => true);
    FilterAll(s, _ => true);
    FilterAll(SortBy(s, cmp), _ => true);
  }

  /** Stability: elements with equal keys keep their input order. */
  lemma SortByStable<T>(s: seq<T>, cmp: (T, T) -> int, key: T -> int, v: int)
    requires OrdersAsKey(s, cmp, key)
    ensures Filter(SortBy(s, cmp), x => key(x) == v) == Filter(s, x => key(x) == v)
  {
    SortByKeepsOrderOf(s, cmp, x => key(x) == v);
  }
}
