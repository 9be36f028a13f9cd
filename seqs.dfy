/** `Array.prototype.filter` on sequences, and what the three controllers rely
    on about it: it keeps exactly the elements that pass, in their order, and
    successive filters are one filter by the conjunction. */
module Seqs {

  /** `s.filter(p)`. */
  function Filter<T>(s: seq<T>, p: T -> bool): (r: seq<T>)
    ensures |r| <= |s|
  {
    if s == [] then []
    else if p(s[0]) then [s[0]] + Filter(s[1..], p)
    else Filter(s[1..], p)
  }

  /** Every kept element passes, and an element is kept exactly when it is in
      `s` and passes. */
  lemma {:induction false} FilterSpec<T>(s: seq<T>, p: T -> bool)
    ensures forall i :: 0 <= i < |Filter(s, p)| ==> p(Filter(s, p)[i])
    ensures forall x :: x in Filter(s, p) <==> x in s && p(x)
  {
    if s != [] {
      FilterSpec(s[1..], p);
      assert s == [s[0]] + s[1..];
    }
  }

  /** Filtering keeps every passing element as often as it occurs, and drops
      every other one. */
  lemma {:induction false} FilterMultiset<T>(s: seq<T>, p: T -> bool)
    ensures multiset(Filter(s, p)) <= multiset(s)
    ensures forall x :: x in s ==> multiset(Filter(s, p))[x] == if p(x) then multiset(s)[x] else 0
  {
    if s != [] {
      FilterMultiset(s[1..], p);
      assert s == [s[0]] + s[1..];
    }
  }

  /** `idx` places the elements of `a`, in order, at increasing positions of `b`. */
  ghost predicate Embeds<T>(idx: seq<nat>, a: seq<T>, b: seq<T>) {
    && |idx| == |a|
    && (forall k :: 0 <= k < |idx| ==> idx[k] < |b| && a[k] == b[idx[k]])
    && (forall k, l :: 0 <= k < l < |idx| ==> idx[k] < idx[l])
  }

  /** `a` is an order-preserving subsequence of `b`. */
  ghost predicate IsSubsequence<T>(a: seq<T>, b: seq<T>) {
    exists idx :: Embeds(idx, a, b)
  }

  /** Every position moved one to the right. */
  function Shifted(idx: seq<nat>): (r: seq<nat>)
    ensures |r| == |idx| && forall k :: 0 <= k < |idx| ==> r[k] == idx[k] + 1
  {
    seq(|idx|, k requires 0 <= k < |idx| => idx[k] + 1)
  }

  /** Putting `x` in front of `b` moves an embedding one step right, and
      putting `x` in front of both sides adds position 0 to it. */
  lemma EmbedsCons<T>(idx: seq<nat>, a: seq<T>, b: seq<T>, x: T)
    requires Embeds(idx, a, b)
    ensures Embeds(Shifted(idx), a, [x] + b)
    ensures Embeds([0] + Shifted(idx), [x] + a, [x] + b)
  {
    var sh := Shifted(idx);
    forall k | 0 <= k < |sh| ensures sh[k] < |[x] + b| && a[k] == ([x] + b)[sh[k]] {
      assert ([x] + b)[idx[k] + 1] == b[idx[k]];
    }
    var c := [0] + sh;
    forall k | 0 <= k < |c| ensures c[k] < |[x] + b| && ([x] + a)[k] == ([x] + b)[c[k]] {
      if k > 0 {
        assert c[k] == sh[k - 1];
      }
    }
    forall k, l | 0 <= k < l < |c| ensures c[k] < c[l] {
      if k > 0 {
        assert c[k] == sh[k - 1] && c[l] == sh[l - 1];
      }
    }
  }

  /** The filtered sequence is an order-preserving subsequence of the input:
      `idx` says where each kept element came from. */
  lemma {:induction false} FilterEmbedding<T>(s: seq<T>, p: T -> bool) returns (idx: seq<nat>)
    ensures Embeds(idx, Filter(s, p), s)
    ensures IsSubsequence(Filter(s, p), s)
  {
    if s == [] {
      idx := [];
    } else {
      var rest := FilterEmbedding(s[1..], p);
      EmbedsCons(rest, Filter(s[1..], p), s[1..], s[0]);
      assert [s[0]] + s[1..] == s;
      if p(s[0]) {
        idx := [0] + Shifted(rest);
      } else {
        idx := Shifted(rest);
      }
    }
    assert Embeds(idx, Filter(s, p), s);
  }

  /** The filtered sequence is an order-preserving subsequence of the input. */
  lemma FilterSubsequence<T>(s: seq<T>, p: T -> bool)
    ensures IsSubsequence(Filter(s, p), s)
    ensures forall x :: x in Filter(s, p) <==> x in s && p(x)
  {
    var _ := FilterEmbedding(s, p);
    FilterSpec(s, p);
  }

  /** Filtering distributes over concatenation. */
  lemma {:induction false} FilterAppend<T>(a: seq<T>, b: seq<T>, p: T -> bool)
    ensures Filter(a + b, p) == Filter(a, p) + Filter(b, p)
  {
    if a == [] {
      assert a + b == b;
    } else {
      assert (a + b)[0] == a[0];
      assert (a + b)[1..] == a[1..] + b;
      FilterAppend(a[1..], b, p);
    }
  }

  /** Filters that agree on the elements of `s` give the same result. */
  lemma {:induction false} FilterCongruent<T>(s: seq<T>, p: T -> bool, q: T -> bool)
    requires forall x :: x in s ==> p(x) == q(x)
    ensures Filter(s, p) == Filter(s, q)
  {
    if s != [] {
      FilterCongruent(s[1..], p, q);
    }
  }

  /** Two successive filters are one filter by the conjunction. */
  lemma {:induction false} FilterFilter<T>(s: seq<T>, p: T -> bool, q: T -> bool)
    ensures Filter(Filter(s, p), q) == Filter(s, x => p(x) && q(x))
  {
    if s != [] {
      FilterFilter(s[1..], p, q);
    }
  }

  /** A filter every element passes keeps the whole sequence. */
  lemma {:induction false} FilterAll<T>(s: seq<T>, p: T -> bool)
    requires forall x :: x in s ==> p(x)
    ensures Filter(s, p) == s
  {
    if s != [] {
      FilterAll(s[1..], p);
    }
  }

  /** Narrowing: when `p` implies `q`, filtering by `p` is filtering the
      `q`-result by `p`, so the `p`-result is a subsequence of the `q`-result. */
  lemma FilterNarrows<T>(s: seq<T>, p: T -> bool, q: T -> bool)
    requires forall x :: x in s && p(x) ==> q(x)
    ensures Filter(Filter(s, q), p) == Filter(s, p)
    ensures IsSubsequence(Filter(s, p), Filter(s, q))
  {
    FilterFilter(s, q, p);
    FilterCongruent(s, x => q(x) && p(x), p);
    var _ := FilterEmbedding(Filter(s, q), p);
  }
}
