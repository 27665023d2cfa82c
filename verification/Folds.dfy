/** Sums over lists of records, the shape of every dashboard figure:
    `list.filter(p).reduce((acc, x) => acc + f(x), 0)`. `Sum` is the reference
    definition; `Reduce` is the left fold `Array.prototype.reduce` performs. */
module Folds {

  /** The sum of `f` over `xs`. */
  function Sum<T>(xs: seq<T>, f: T -> real): real
    decreases |xs|
  {
    if |xs| == 0 then 0.0 else f(xs[0]) + Sum(xs[1..], f)
  }

  /** `xs.reduce((acc, x) => acc + f(x), acc)`: adds from the left, and ends at
      the initial value plus the sum. */
  function Reduce<T>(xs: seq<T>, f: T -> real, acc: real): (r: real)
    ensures r == acc + Sum(xs, f)
    decreases |xs|
  {
    if |xs| == 0 then acc else Reduce(xs[1..], f, acc + f(xs[0]))
  }

  /** `xs.filter(p)`: the elements satisfying `p`, in their order. */
  function Filter<T>(xs: seq<T>, p: T -> bool): (ys: seq<T>)
    ensures |ys| <= |xs|
    ensures forall i :: 0 <= i < |ys| ==> p(ys[i]) && ys[i] in xs
    ensures forall i :: 0 <= i < |xs| && p(xs[i]) ==> xs[i] in ys
    decreases |xs|
  {
    if |xs| == 0 then []
    else if p(xs[0]) then [xs[0]] + Filter(xs[1..], p)
    else Filter(xs[1..], p)
  }

  lemma {:induction false} SumAppend<T>(xs: seq<T>, ys: seq<T>, f: T -> real)
    ensures Sum(xs + ys, f) == Sum(xs, f) + Sum(ys, f)
    decreases |xs|
  {
    if |xs| > 0 {
      assert (xs + ys)[1..] == xs[1..] + ys;
      SumAppend(xs[1..], ys, f);
    } else {
      assert xs + ys == ys;
    }
  }

  /** Adding one more record raises the total by exactly its amount. */
  lemma ReduceAppend<T>(xs: seq<T>, x: T, f: T -> real)
    ensures Reduce(xs + [x], f, 0.0) == Reduce(xs, f, 0.0) + f(x)
  {
    SumAppend(xs, [x], f);
  }

  /** Splitting a list by a predicate and its negation splits its sum. */
  lemma {:induction false} SumPartition<T>(xs: seq<T>, p: T -> bool, q: T -> bool, f: T -> real)
    requires forall x :: q(x) == !p(x)
    ensures Sum(xs, f) == Sum(Filter(xs, p), f) + Sum(Filter(xs, q), f)
    decreases |xs|
  {
    if |xs| > 0 {
      SumPartition(xs[1..], p, q, f);
    }
  }

  /** A sum of non-negative amounts is non-negative. */
  lemma {:induction false} SumNonNegative<T>(xs: seq<T>, f: T -> real)
    requires forall i :: 0 <= i < |xs| ==> f(xs[i]) >= 0.0
    ensures Sum(xs, f) >= 0.0
    decreases |xs|
  {
    if |xs| > 0 {
      SumNonNegative(xs[1..], f);
    }
  }

  /** Removing the element at `i` takes exactly its amount off the sum. */
  lemma {:induction false} SumRemove<T>(ys: seq<T>, i: nat, f: T -> real)
    requires i < |ys|
    ensures Sum(ys, f) == f(ys[i]) + Sum(ys[..i] + ys[i + 1..], f)
    decreases i
  {
    var rest := ys[..i] + ys[i + 1..];
    if i == 0 {
      assert rest == ys[1..];
    } else {
      var tail := ys[1..];
      SumRemove(tail, i - 1, f);
      assert rest[0] == ys[0] && rest[1..] == tail[..i - 1] + tail[i..];
      assert tail[i - 1] == ys[i];
    }
  }

  lemma MultisetRemove<T>(ys: seq<T>, i: nat)
    requires i < |ys|
    ensures multiset(ys[..i] + ys[i + 1..]) == multiset(ys) - multiset{ys[i]}
  {
    assert ys == ys[..i] + [ys[i]] + ys[i + 1..];
  }

  /** The sum does not depend on the order of the list. */
  lemma {:induction false} SumPermutation<T>(xs: seq<T>, ys: seq<T>, f: T -> real)
    requires multiset(xs) == multiset(ys)
    ensures Sum(xs, f) == Sum(ys, f)
    decreases |xs|
  {
    if |xs| == 0 {
      assert |ys| == |multiset(ys)| == 0;
    } else {
      var x := xs[0];
      assert x in multiset(ys) by {
        assert x in multiset(xs);
      }
      var i :| 0 <= i < |ys| && ys[i] == x;
      var rest := ys[..i] + ys[i + 1..];
      assert multiset(xs[1..]) == multiset(rest) by {
        assert xs == [x] + xs[1..];
        MultisetRemove(ys, i);
      }
      SumPermutation(xs[1..], rest, f);
      SumRemove(ys, i, f);
    }
  }

  /** Filtering distributes over concatenation. */
  lemma {:induction false} FilterAppend<T>(xs: seq<T>, ys: seq<T>, p: T -> bool)
    ensures Filter(xs + ys, p) == Filter(xs, p) + Filter(ys, p)
    decreases |xs|
  {
    if |xs| == 0 {
      assert xs + ys == ys;
    } else {
      assert (xs + ys)[1..] == xs[1..] + ys;
      FilterAppend(xs[1..], ys, p);
    }
  }

  /** The sum over a list with one element picked out. */
  lemma SumSplice<T>(before: seq<T>, x: T, after: seq<T>, f: T -> real)
    ensures Sum(before + [x] + after, f) == Sum(before, f) + f(x) + Sum(after, f)
  {
    SumAppend(before + [x], after, f);
    SumAppend(before, [x], f);
  }

  /** The filtered sum over a list with one element picked out: that element
      contributes its amount exactly when it passes the filter. */
  lemma SumFilterSplice<T>(before: seq<T>, x: T, after: seq<T>, p: T -> bool, f: T -> real)
    ensures Sum(Filter(before + [x] + after, p), f)
      == Sum(Filter(before, p), f) + (if p(x) then f(x) else 0.0) + Sum(Filter(after, p), f)
  {
    var fb, fa := Filter(before, p), Filter(after, p);
    FilterAppend(before + [x], after, p);
    FilterAppend(before, [x], p);
    assert [x][1..] == [];
    if p(x) {
      assert Filter([x], p) == [x];
      SumSplice(fb, x, fa, f);
    } else {
      assert Filter([x], p) == [];
      assert fb + [] + fa == fb + fa;
      SumAppend(fb, fa, f);
    }
  }

  /** Every element satisfies `p`. */
  predicate All<T>(xs: seq<T>, p: T -> bool) {
    forall i :: 0 <= i < |xs| ==> p(xs[i])
  }

  lemma AllConcat<T>(xs: seq<T>, ys: seq<T>, p: T -> bool)
    ensures All(xs + ys, p) <==> All(xs, p) && All(ys, p)
  {
    if All(xs + ys, p) {
      forall i | 0 <= i < |xs|
        ensures p(xs[i])
      {
        assert (xs + ys)[i] == xs[i];
      }
      forall i | 0 <= i < |ys|
        ensures p(ys[i])
      {
        assert (xs + ys)[|xs| + i] == ys[i];
      }
    }
  }

  /** Every element passing the filter satisfies `q` exactly when every
      element of the list that passes it does. */
  lemma AllFilter<T>(xs: seq<T>, p: T -> bool, q: T -> bool)
    ensures All(Filter(xs, p), q) <==> forall i :: 0 <= i < |xs| && p(xs[i]) ==> q(xs[i])
  {
    var ys := Filter(xs, p);
    if All(ys, q) {
      forall i | 0 <= i < |xs| && p(xs[i])
        ensures q(xs[i])
      {
        var k :| 0 <= k < |ys| && ys[k] == xs[i];
      }
    }
    if forall i :: 0 <= i < |xs| && p(xs[i]) ==> q(xs[i]) {
      forall k | 0 <= k < |ys|
        ensures q(ys[k])
      {
        var i :| 0 <= i < |xs| && xs[i] == ys[k];
      }
    }
  }

  /** Splitting a list by a predicate and its negation splits `All`. */
  lemma AllPartition<T>(xs: seq<T>, p: T -> bool, q: T -> bool, r: T -> bool)
    requires forall x :: q(x) == !p(x)
    ensures All(xs, r) <==> All(Filter(xs, p), r) && All(Filter(xs, q), r)
  {
    AllFilter(xs, p, r);
    AllFilter(xs, q, r);
    if All(Filter(xs, p), r) && All(Filter(xs, q), r) {
      forall i | 0 <= i < |xs|
        ensures r(xs[i])
      {
        if !p(xs[i]) {
          assert q(xs[i]);
        }
      }
    }
  }

  /** `All` over a list with one element picked out. */
  lemma AllSplice<T>(before: seq<T>, x: T, after: seq<T>, q: T -> bool)
    ensures All(before + [x] + after, q) <==> All(before, q) && q(x) && All(after, q)
  {
    AllConcat(before + [x], after, q);
    AllConcat(before, [x], q);
    assert All([x], q) <==> q(x) by {
      assert [x][0] == x;
    }
  }

  /** `All` over the filtered list with one element picked out: that element
      matters exactly when it passes the filter. */
  lemma AllFilterSplice<T>(before: seq<T>, x: T, after: seq<T>, p: T -> bool, q: T -> bool)
    ensures All(Filter(before + [x] + after, p), q)
      <==> All(Filter(before, p), q) && (p(x) ==> q(x)) && All(Filter(after, p), q)
  {
    FilterAppend(before + [x], after, p);
    FilterAppend(before, [x], p);
    assert [x][1..] == [];
    AllConcat(Filter(before, p) + Filter([x], p), Filter(after, p), q);
    AllConcat(Filter(before, p), Filter([x], p), q);
  }
}
