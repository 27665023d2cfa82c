/** A stable insertion sort over any order that is a strict weak order on
    the elements being sorted, the guarantee `Array.prototype.sort` gives
    for a comparator consistent on its input: the result is a permutation of
    the input in which no element comes before one that belongs strictly
    before it. */
module Sorting {

  /** `lt` is a strict weak order: irreflexive, transitive, and every
      element is comparable with at least one end of each strict pair. */
  ghost predicate StrictWeakOrder<T(!new)>(lt: (T, T) -> bool) {
    && (forall a :: !lt(a, a))
    && (forall a, b, c :: lt(a, b) && lt(b, c) ==> lt(a, c))
    && (forall a, b, c {:trigger lt(a, c), lt(b, c)} {:trigger lt(a, c), lt(a, b)} :: lt(a, c) ==> lt(a, b) || lt(b, c))
  }

  /** The same three laws, asked only of the elements of `xs`: all a sort
      of `xs` needs of its comparator. */
  predicate StrictWeakOrderOn<T(==)>(xs: seq<T>, lt: (T, T) -> bool) {
    && (forall a :: a in xs ==> !lt(a, a))
    && (forall a, b, c {:trigger lt(a, b), lt(b, c)} :: a in xs && b in xs && c in xs && lt(a, b) && lt(b, c) ==> lt(a, c))
    && (forall a, b, c {:trigger lt(a, c), lt(b, c)} {:trigger lt(a, c), lt(a, b)} ::
          a in xs && b in xs && c in xs && lt(a, c) ==> lt(a, b) || lt(b, c))
  }

  /** An order that is a strict weak order everywhere is one on every list. */
  lemma StrictWeakOrderOnAny<T(!new)>(xs: seq<T>, lt: (T, T) -> bool)
    requires StrictWeakOrder(lt)
    ensures StrictWeakOrderOn(xs, lt)
  {
  }

  /** The laws carry over to a list whose elements all occur in `ys`. */
  lemma StrictWeakOrderOnSub<T>(xs: seq<T>, ys: seq<T>, lt: (T, T) -> bool)
    requires StrictWeakOrderOn(ys, lt)
    requires forall x :: x in xs ==> x in ys
    ensures StrictWeakOrderOn(xs, lt)
  {
  }

  /** On a list of at most two distinct elements the laws reduce to
      irreflexivity and asymmetry. */
  lemma StrictWeakOrderOnPair<T>(xs: seq<T>, x: T, y: T, lt: (T, T) -> bool)
    requires forall e :: e in xs ==> e == x || e == y
    requires !lt(x, x) && !lt(y, y) && !(lt(x, y) && lt(y, x))
    ensures StrictWeakOrderOn(xs, lt)
  {
  }

  predicate Sorted<T>(xs: seq<T>, lt: (T, T) -> bool) {
    forall i, j :: 0 <= i < j < |xs| ==> !lt(xs[j], xs[i])
  }

  /** No element of `ys` belongs strictly before `x`. */
  predicate NoneBefore<T>(x: T, ys: seq<T>, lt: (T, T) -> bool) {
    forall i :: 0 <= i < |ys| ==> !lt(ys[i], x)
  }

  lemma SortedCons<T>(x: T, ys: seq<T>, lt: (T, T) -> bool)
    requires Sorted(ys, lt) && NoneBefore(x, ys, lt)
    ensures Sorted([x] + ys, lt)
  {
    forall i, j | 0 <= i < j < |[x] + ys|
      ensures !lt(([x] + ys)[j], ([x] + ys)[i])
    {
      assert ([x] + ys)[j] == ys[j - 1];
      if i > 0 {
        assert ([x] + ys)[i] == ys[i - 1];
      }
    }
  }

  /** Inserting behind a head that belongs strictly before the new
      element. */
  lemma InsertBehindHead<T>(xs: seq<T>, e: T, rest: seq<T>, lt: (T, T) -> bool)
    requires StrictWeakOrderOn([e] + xs, lt)
    requires |xs| > 0 && Sorted(xs, lt) && lt(xs[0], e)
    requires Sorted(rest, lt) && multiset(rest) == multiset(xs[1..]) + multiset{e}
    ensures Sorted([xs[0]] + rest, lt)
    ensures multiset([xs[0]] + rest) == multiset(xs) + multiset{e}
  {
    assert e in [e] + xs && xs[0] in [e] + xs;
    assert !lt(e, xs[0]) by {
      assert !lt(e, e);
    }
    forall i | 0 <= i < |rest|
      ensures !lt(rest[i], xs[0])
    {
      assert rest[i] in multiset(rest);
      if rest[i] != e {
        assert rest[i] in multiset(xs[1..]);
        var k :| 0 <= k < |xs[1..]| && xs[1..][k] == rest[i];
        assert xs[k + 1] == rest[i];
      }
    }
    SortedCons(xs[0], rest, lt);
    assert xs == [xs[0]] + xs[1..];
  }

  /** Inserting in front of a head that does not belong strictly before the
      new element. */
  lemma InsertAtFront<T>(e: T, xs: seq<T>, lt: (T, T) -> bool)
    requires StrictWeakOrderOn([e] + xs, lt)
    requires |xs| > 0 && Sorted(xs, lt) && !lt(xs[0], e)
    ensures Sorted([e] + xs, lt)
  {
    forall j | 0 <= j < |xs|
      ensures !lt(xs[j], e)
    {
      if j > 0 {
        assert !lt(xs[j], xs[0]);
        assert e in [e] + xs && xs[0] in [e] + xs && xs[j] in [e] + xs;
      }
    }
    SortedCons(e, xs, lt);
  }

  /** Insertion into a sorted list, behind every element that belongs
      strictly before the new one, so equivalent elements keep their order. */
  function Insert<T>(e: T, xs: seq<T>, lt: (T, T) -> bool): (r: seq<T>)
    requires StrictWeakOrderOn([e] + xs, lt) && Sorted(xs, lt)
    ensures Sorted(r, lt)
    ensures multiset(r) == multiset(xs) + multiset{e}
    decreases |xs|
  {
    if |xs| == 0 then [e]
    else if lt(xs[0], e) then
      StrictWeakOrderOnSub([e] + xs[1..], [e] + xs, lt);
      var rest := Insert(e, xs[1..], lt);
      InsertBehindHead(xs, e, rest, lt);
      [xs[0]] + rest
    else
      InsertAtFront(e, xs, lt);
      [e] + xs
  }

  /** A sorted permutation of `xs`. */
  function Sort<T>(xs: seq<T>, lt: (T, T) -> bool): (r: seq<T>)
    requires StrictWeakOrderOn(xs, lt)
    ensures Sorted(r, lt)
    ensures multiset(r) == multiset(xs)
    decreases |xs|
  {
    if |xs| == 0 then []
    else
      assert xs == [xs[0]] + xs[1..];
      StrictWeakOrderOnSub(xs[1..], xs, lt);
      var sorted := Sort(xs[1..], lt);
      assert forall x :: x in [xs[0]] + sorted ==> x in xs by {
        forall x | x in [xs[0]] + sorted
          ensures x in xs
        {
          if x != xs[0] {
            assert x in multiset(sorted);
          }
        }
      }
      StrictWeakOrderOnSub([xs[0]] + sorted, xs, lt);
      Insert(xs[0], sorted, lt)
  }

  /** A sorted arrangement of two elements, one strictly before the other,
      puts that one first. */
  lemma SortedPair<T>(xs: seq<T>, a: T, b: T, lt: (T, T) -> bool)
    requires Sorted(xs, lt) && multiset(xs) == multiset{a, b}
    requires lt(a, b) && !lt(a, a)
    ensures xs == [a, b]
  {
    assert |xs| == 2 by {
      assert |multiset(xs)| == 2;
    }
    assert a in multiset(xs) && b in multiset(xs);
    assert !lt(xs[1], xs[0]);
  }
}
