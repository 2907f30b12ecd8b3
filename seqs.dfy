/**
 * Order-preserving selection over sequences: the boolean-mask row selection
 * that every filtering step of the dashboard performs.
 */
module Seqs {

  /** `t` is `s` with some elements deleted, the rest kept in their order. */
  predicate IsSubseq<T(==)>(t: seq<T>, s: seq<T>)
  {
    if t == [] then true
    else if s == [] then false
    else if t[0] == s[0] then IsSubseq(t[1..], s[1..])
    else IsSubseq(t, s[1..])
  }

  lemma {:induction false} IsSubseqDropHead<T>(t: seq<T>, s: seq<T>)
    requires s != [] && IsSubseq(t, s[1..])
    ensures IsSubseq(t, s)
  {
    if t != [] && t[0] == s[0] {
      if |s| > 1 {
        IsSubseqTail(t, s[1..]);
      }
    }
  }

  /** Dropping the head of the subsequence keeps it a subsequence. */
  lemma {:induction false} IsSubseqTail<T>(t: seq<T>, s: seq<T>)
    requires t != [] && IsSubseq(t, s)
    ensures IsSubseq(t[1..], s)
  {
    assert s != [];
    if t[0] == s[0] {
      if t[1..] != [] {
        IsSubseqDropHead(t[1..], s);
      }
    } else {
      IsSubseqTail(t, s[1..]);
      if t[1..] != [] {
        IsSubseqDropHead(t[1..], s);
      }
    }
  }

  /** No element occurs twice. */
  predicate NoDup<T(==)>(s: seq<T>)
  {
    forall i, j :: 0 <= i < j < |s| ==> s[i] != s[j]
  }

  /** A duplicate-free sequence has as many elements as its set. */
  lemma {:induction false} NoDupCard<T>(s: seq<T>)
    requires NoDup(s)
    ensures |set x | x in s| == |s|
  {
    if s != [] {
      NoDupCard(s[1..]);
      assert (set x | x in s) == {s[0]} + (set x | x in s[1..]);
      assert s[0] !in s[1..];
    }
  }

  /** The elements of `s` that satisfy `p`, in the order of `s`. */
  function Filter<T>(p: T -> bool, s: seq<T>): seq<T>
  {
    if s == [] then []
    else if p(s[0]) then [s[0]] + Filter(p, s[1..])
    else Filter(p, s[1..])
  }

  /**
   * The filtered sequence is an order-preserving subsequence of `s`, and
   * holds exactly the elements of `s` that satisfy `p`.
   */
  lemma {:induction false} FilterSpec<T>(p: T -> bool, s: seq<T>)
    ensures |Filter(p, s)| <= |s|
    ensures IsSubseq(Filter(p, s), s)
    ensures forall x :: x in Filter(p, s) ==> x in s && p(x)
    ensures forall x :: x in s && p(x) ==> x in Filter(p, s)
  {
    if s != [] {
      FilterSpec(p, s[1..]);
      var t := Filter(p, s[1..]);
      if p(s[0]) {
        assert ([s[0]] + t)[1..] == t;
      } else {
        IsSubseqDropHead(t, s);
      }
      assert s == [s[0]] + s[1..];
    }
  }

  /** Filtering keeps every copy of an element that satisfies `p` and no copy of one that does not. */
  lemma {:induction false} FilterCount<T>(p: T -> bool, s: seq<T>)
    ensures forall x :: multiset(Filter(p, s))[x] == if p(x) then multiset(s)[x] else 0
  {
    if s != [] {
      FilterCount(p, s[1..]);
      assert s == [s[0]] + s[1..];
    }
  }

  /** A sequence whose every element satisfies `p` passes through unchanged. */
  lemma {:induction false} FilterAll<T>(p: T -> bool, s: seq<T>)
    requires forall x :: x in s ==> p(x)
    ensures Filter(p, s) == s
  {
    if s != [] {
      FilterAll(p, s[1..]);
    }
  }

  /** Filtering by `q` and then by `p` is filtering once by their conjunction. */
  lemma {:induction false} FilterFilter<T>(p: T -> bool, q: T -> bool, pq: T -> bool, s: seq<T>)
    requires forall x :: pq(x) == (q(x) && p(x))
    ensures Filter(p, Filter(q, s)) == Filter(pq, s)
  {
    if s != [] {
      FilterFilter(p, q, pq, s[1..]);
    }
  }

  /** Filtering twice by the same predicate is filtering once. */
  lemma {:induction false} FilterIdempotent<T>(p: T -> bool, s: seq<T>)
    ensures Filter(p, Filter(p, s)) == Filter(p, s)
  {
    FilterSpec(p, s);
    FilterAll(p, Filter(p, s));
  }

  /** The first `n` elements, or all of them when there are fewer: pandas' `head(n)`. */
  function Take<T>(s: seq<T>, n: nat): (r: seq<T>)
    ensures |r| == if |s| < n then |s| else n
    ensures forall i :: 0 <= i < |r| ==> r[i] == s[i]
  {
    if |s| <= n then s else s[..n]
  }
}
