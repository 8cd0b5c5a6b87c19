/**
 Order-preserving sequence operations shared by the aggregator and the views:
 `Array.prototype.filter`, the insertion order of a `Set`, and the
 subsequence relation that states "keeps the original order".
 */
module Seqs {

  /** `a` is `b` with some elements deleted and the rest kept in order.
      Matching greedily from the back decides this exactly. */
  ghost predicate IsSubseq<T>(a: seq<T>, b: seq<T>)
    decreases |b|
  {
    if a == [] then true
    else if b == [] then false
    else if a[|a| - 1] == b[|b| - 1] then IsSubseq(a[..|a| - 1], b[..|b| - 1])
    else IsSubseq(a, b[..|b| - 1])
  }

  lemma {:induction false} IsSubseqDropLast<T>(a: seq<T>, b: seq<T>)
    requires a != [] && IsSubseq(a, b)
    ensures IsSubseq(a[..|a| - 1], b)
    decreases |b|
  {
    var a' := a[..|a| - 1];
    var b' := b[..|b| - 1];
    if a' != [] && a'[|a'| - 1] == b[|b| - 1] {
      // the greedy match pairs the last of a' with the last of b
      if a[|a| - 1] == b[|b| - 1] {
        IsSubseqDropLast(a', b');
      } else {
        IsSubseqDropLast(a, b');
        IsSubseqDropLast(a', b');
      }
    } else if a' != [] && a[|a| - 1] != b[|b| - 1] {
      IsSubseqDropLast(a, b');
    }
  }

  /** Appending to the longer sequence keeps a subsequence a subsequence. */
  lemma {:induction false} IsSubseqExtend<T>(a: seq<T>, b: seq<T>, x: T)
    requires IsSubseq(a, b)
    ensures IsSubseq(a, b + [x])
  {
    assert (b + [x])[..|b|] == b;
    if a != [] && a[|a| - 1] == x {
      IsSubseqDropLast(a, b);
    }
  }

  lemma {:induction false} IsSubseqRefl<T>(s: seq<T>)
    ensures IsSubseq(s, s)
    decreases |s|
  {
    if s != [] {
      IsSubseqRefl(s[..|s| - 1]);
    }
  }

  /** `s.filter(p)`: exactly the elements `p` accepts, each as often as in `s`. */
  function Filter<T(!new)>(s: seq<T>, p: T -> bool): (r: seq<T>)
    ensures forall i :: 0 <= i < |r| ==> p(r[i])
    ensures forall x :: multiset(r)[x] == if p(x) then multiset(s)[x] else 0
  {
    if s == [] then []
    else
      var prefix := s[..|s| - 1];
      var x := s[|s| - 1];
      assert multiset(s) == multiset(prefix) + multiset{x} by {
        assert s == prefix + [x];
      }
      var r' := Filter(prefix, p);
      if p(x) then r' + [x] else r'
  }

  /** The filtered elements keep their original order. */
  lemma {:induction false} FilterKeepsOrder<T(!new)>(s: seq<T>, p: T -> bool)
    ensures IsSubseq(Filter(s, p), s)
  {
    if s != [] {
      var prefix := s[..|s| - 1];
      var x := s[|s| - 1];
      var r' := Filter(prefix, p);
      FilterKeepsOrder(prefix, p);
      if p(x) {
        assert (r' + [x])[..|r'|] == r';
      } else {
        IsSubseqExtend(r', prefix, x);
        assert prefix + [x] == s;
      }
    }
  }

  /** Filtering depends only on what the callback answers. */
  lemma {:induction false} FilterCongruent<T(!new)>(s: seq<T>, p: T -> bool, q: T -> bool)
    requires forall x :: p(x) == q(x)
    ensures Filter(s, p) == Filter(s, q)
  {
    if s != [] {
      FilterCongruent(s[..|s| - 1], p, q);
    }
  }

  /** The position of the first occurrence of `x` in `s`. */
  function IndexOf<T(==)>(s: seq<T>, x: T): (k: nat)
    requires x in s
    ensures k < |s| && s[k] == x
    ensures forall j :: 0 <= j < k ==> s[j] != x
  {
    if s[0] == x then 0 else 1 + IndexOf(s[1..], x)
  }

  lemma {:induction false} IndexOfAppend<T>(s: seq<T>, y: T, x: T)
    requires x in s
    ensures IndexOf(s + [y], x) == IndexOf(s, x)
  {
    var k := IndexOf(s, x);
    var k' := IndexOf(s + [y], x);
    assert (s + [y])[k] == x;
    assert k' <= k;
  }

  lemma IndexOfAppendNew<T>(s: seq<T>, x: T)
    requires x !in s
    ensures IndexOf(s + [x], x) == |s|
  {
    assert forall j :: 0 <= j < |s| ==> (s + [x])[j] == s[j];
  }

  /** `[...new Set(s)]`: every distinct element once, in order of first appearance. */
  function Dedup<T(==,!new)>(s: seq<T>): (r: seq<T>)
    ensures forall x :: x in r <==> x in s
    ensures forall i, j :: 0 <= i < j < |r| ==> r[i] != r[j]
    ensures forall i, j :: 0 <= i < j < |r| ==> IndexOf(s, r[i]) < IndexOf(s, r[j])
  {
    if s == [] then []
    else
      var prefix := s[..|s| - 1];
      var x := s[|s| - 1];
      assert s == prefix + [x];
      var r' := Dedup(prefix);
      forall y | y in prefix
        ensures IndexOf(s, y) == IndexOf(prefix, y)
      {
        IndexOfAppend(prefix, x, y);
      }
      if x in r' then r'
      else
        assert IndexOf(s, x) == |prefix|;
        r' + [x]
  }
}
