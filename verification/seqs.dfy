/**
 Order-preserving filtering of sequences, the behaviour of JavaScript's
 `Array.prototype.filter` on a pure predicate, and the subsequence relation
 that characterises it.
 */
module Seqs {

  /** The elements of `xs` that satisfy `p`, in their original order. */
  function Filter<T(!new)>(p: T -> bool, xs: seq<T>): (r: seq<T>)
    ensures |r| <= |xs|
    ensures forall x :: x in r <==> x in xs && p(x)
    ensures forall i :: 0 <= i < |r| ==> p(r[i])
    decreases |xs|
  {
    if xs == [] then []
    else (if p(xs[0]) then [xs[0]] else []) + Filter(p, xs[1..])
  }

  /** Filtering keeps every passing element as often as it occurs, and drops every other. */
  lemma {:induction false} FilterMultiset<T(!new)>(p: T -> bool, xs: seq<T>)
    ensures forall x :: multiset(Filter(p, xs))[x] == if p(x) then multiset(xs)[x] else 0
    decreases |xs|
  {
    if xs != [] {
      FilterMultiset(p, xs[1..]);
      assert xs == [xs[0]] + xs[1..];
      assert multiset(xs) == multiset([xs[0]]) + multiset(xs[1..]);
    }
  }

  /** `a` can be obtained from `b` by deleting elements, keeping the order. */
  predicate IsSubseq<T(==)>(a: seq<T>, b: seq<T>)
    decreases |b|
  {
    if a == [] then true
    else if b == [] then false
    else if a[0] == b[0] then IsSubseq(a[1..], b[1..])
    else IsSubseq(a, b[1..])
  }

  /** Every element is kept. */
  predicate All<T>(p: T -> bool, xs: seq<T>)
  {
    forall i :: 0 <= i < |xs| ==> p(xs[i])
  }

  /** Filtering distributes over concatenation: the order of survivors is the order of the input. */
  lemma {:induction false} FilterAppend<T(!new)>(p: T -> bool, a: seq<T>, b: seq<T>)
    ensures Filter(p, a + b) == Filter(p, a) + Filter(p, b)
    decreases |a|
  {
    if a == [] {
      assert a + b == b;
    } else {
      assert (a + b)[0] == a[0];
      assert (a + b)[1..] == a[1..] + b;
      FilterAppend(p, a[1..], b);
    }
  }

  /** Filtering keeps the whole input exactly when every element passes. */
  lemma {:induction false} FilterAllIdentity<T(!new)>(p: T -> bool, xs: seq<T>)
    ensures Filter(p, xs) == xs <==> All(p, xs)
    decreases |xs|
  {
    if xs != [] {
      FilterAllIdentity(p, xs[1..]);
      if !p(xs[0]) {
        assert |Filter(p, xs)| < |xs|;
      } else {
        assert All(p, xs) <==> All(p, xs[1..]) by {
          forall i | 1 <= i < |xs| ensures xs[i] == xs[1..][i - 1] { }
          if All(p, xs[1..]) {
            forall i | 0 <= i < |xs| ensures p(xs[i]) {
              if i > 0 { assert xs[i] == xs[1..][i - 1]; }
            }
          }
        }
      }
    }
  }

  /** The survivors of a filter are a subsequence of the input. */
  lemma {:induction false} FilterIsSubseq<T(!new)>(p: T -> bool, xs: seq<T>)
    ensures IsSubseq(Filter(p, xs), xs)
    decreases |xs|
  {
    if xs != [] {
      FilterIsSubseq(p, xs[1..]);
      if p(xs[0]) {
        assert Filter(p, xs) == [xs[0]] + Filter(p, xs[1..]);
      } else {
        assert Filter(p, xs) == Filter(p, xs[1..]);
        SubseqDropHead(Filter(p, xs[1..]), xs);
      }
    }
  }

  /** A subsequence of the tail is a subsequence of the whole. */
  lemma {:induction false} SubseqDropHead<T>(a: seq<T>, b: seq<T>)
    requires b != []
    requires IsSubseq(a, b[1..])
    ensures IsSubseq(a, b)
    decreases |a| + |b|
  {
    if a != [] && a[0] == b[0] {
      // Matching the head of `a` against `b[0]` leaves `a[1..]` to be found in `b[1..]`.
      SubseqTail(a, b[1..]);
    }
  }

  /** Dropping the head of a subsequence keeps it a subsequence. */
  lemma {:induction false} SubseqTail<T>(a: seq<T>, b: seq<T>)
    requires a != []
    requires IsSubseq(a, b)
    ensures IsSubseq(a[1..], b)
    decreases |a| + |b|
  {
    if b != [] {
      if a[0] == b[0] {
        SubseqDropHead(a[1..], b);
      } else {
        SubseqTail(a, b[1..]);
        SubseqDropHead(a[1..], b);
      }
    }
  }
}
