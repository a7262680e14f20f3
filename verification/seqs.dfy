/**
 * Sequence helpers shared by the model: JavaScript's `Array.prototype.map`
 * and `Array.prototype.filter`, and "is a subsequence of".
 */
module Seqs {

  /** `Array.prototype.map`: `f` applied to each element, in order. */
  function Map<A, B>(f: A -> B, xs: seq<A>): (ys: seq<B>)
    ensures |ys| == |xs|
    ensures forall i :: 0 <= i < |xs| ==> ys[i] == f(xs[i])
  {
    seq(|xs|, i requires 0 <= i < |xs| => f(xs[i]))
  }

  /** Mapping a longer sequence adds the image of the new last element. */
  lemma MapSnoc<A, B>(f: A -> B, xs: seq<A>, x: A)
    ensures Map(f, xs + [x]) == Map(f, xs) + [f(x)]
  {
    var a := Map(f, xs + [x]);
    var b := Map(f, xs) + [f(x)];
    forall j | 0 <= j < |a| ensures a[j] == b[j] {
      if j < |xs| {
        assert (xs + [x])[j] == xs[j];
      }
    }
  }

  /** Mapping a sequence with a new head adds the image of that head. */
  lemma MapCons<A, B>(f: A -> B, x: A, xs: seq<A>)
    ensures Map(f, [x] + xs) == [f(x)] + Map(f, xs)
  {
    var a := Map(f, [x] + xs);
    var b := [f(x)] + Map(f, xs);
    forall j | 0 <= j < |a| ensures a[j] == b[j] {
      if j > 0 {
        assert ([x] + xs)[j] == xs[j - 1];
      }
    }
  }

  /** A prefix stays a prefix when the same head is put on both. */
  lemma PrefixCons<T>(o: seq<T>, w: seq<T>, a: seq<T>)
    requires |w| <= |a| && w == a[..|w|]
    ensures |o + w| <= |o + a| && o + w == (o + a)[..|o + w|]
  {
    var x := o + w;
    var y := (o + a)[..|o + w|];
    forall i | 0 <= i < |x| ensures x[i] == y[i] {
      if i >= |o| {
        assert x[i] == w[i - |o|] == a[i - |o|];
      }
    }
  }

  /** `a` is `b` with some elements removed, the rest in order. */
  predicate SubseqOf<T(==)>(a: seq<T>, b: seq<T>)
    decreases |b|
  {
    if |a| == 0 then true
    else if |b| == 0 then false
    else if a[0] == b[0] then SubseqOf(a[1..], b[1..])
    else SubseqOf(a, b[1..])
  }

  /** `Array.prototype.filter`: the elements passing `keep`, in order. */
  function FilterBy<T>(keep: T -> bool, l: seq<T>): (r: seq<T>)
    ensures forall x :: x in r ==> keep(x)
    decreases |l|
  {
    if |l| == 0 then []
    else
      var rest := FilterBy(keep, l[1..]);
      if keep(l[0]) then [l[0]] + rest else rest
  }

  /** A filter keeps the order of what it keeps. */
  lemma {:induction false} FilterByIsSubseq<T>(keep: T -> bool, l: seq<T>)
    ensures SubseqOf(FilterBy(keep, l), l)
    decreases |l|
  {
    if |l| > 0 {
      FilterByIsSubseq(keep, l[1..]);
      var rest := FilterBy(keep, l[1..]);
      if keep(l[0]) {
        assert ([l[0]] + rest)[1..] == rest;
      } else {
        SubseqSkip(rest, l);
      }
    }
  }

  /** Dropping the head of the longer sequence keeps a subsequence one. */
  lemma SubseqSkip<T>(a: seq<T>, b: seq<T>)
    requires |b| > 0 && SubseqOf(a, b[1..])
    ensures SubseqOf(a, b)
    decreases |b|, 0
  {
    if |a| > 0 && a[0] == b[0] {
      SubseqDropHead(a, b[1..]);
    }
  }

  /** A subsequence stays one when its head is dropped. */
  lemma SubseqDropHead<T>(a: seq<T>, b: seq<T>)
    requires |a| > 0 && SubseqOf(a, b)
    ensures SubseqOf(a[1..], b)
    decreases |b|, 1
  {
    if |b| > 0 {
      if a[0] == b[0] {
        SubseqSkip(a[1..], b);
      } else {
        SubseqDropHead(a, b[1..]);
        SubseqSkip(a[1..], b);
      }
    }
  }

  /** A filter keeps every occurrence of an element that passes and none of
      one that fails. */
  lemma {:induction false} FilterByCounts<T>(keep: T -> bool, l: seq<T>, x: T)
    ensures multiset(FilterBy(keep, l))[x] == if keep(x) then multiset(l)[x] else 0
    decreases |l|
  {
    if |l| > 0 {
      FilterByCounts(keep, l[1..], x);
      var rest := FilterBy(keep, l[1..]);
      assert l == [l[0]] + l[1..];
      if keep(l[0]) {
        assert multiset([l[0]] + rest) == multiset{l[0]} + multiset(rest);
      }
    }
  }

  /** Filtering twice with the same test is filtering once. */
  lemma {:induction false} FilterByIdempotent<T>(keep: T -> bool, l: seq<T>)
    ensures FilterBy(keep, FilterBy(keep, l)) == FilterBy(keep, l)
    decreases |l|
  {
    if |l| > 0 {
      FilterByIdempotent(keep, l[1..]);
      var rest := FilterBy(keep, l[1..]);
      if keep(l[0]) {
        assert ([l[0]] + rest)[1..] == rest;
      }
    }
  }

  /** A filter whose test every element passes returns the list. */
  lemma {:induction false} FilterByAll<T>(keep: T -> bool, l: seq<T>)
    requires forall i :: 0 <= i < |l| ==> keep(l[i])
    ensures FilterBy(keep, l) == l
    decreases |l|
  {
    if |l| > 0 {
      FilterByAll(keep, l[1..]);
      assert [l[0]] + l[1..] == l;
    }
  }
}
