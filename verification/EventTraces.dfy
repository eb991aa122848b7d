/** Filtering, counting and summing over finite sequences, for reasoning about event traces. */
module EventTraces {

  /** The elements of `es` that satisfy `p`, in order. */
  function Filter<T(!new)>(es: seq<T>, p: T -> bool): (r: seq<T>)
    ensures forall e :: e in r <==> e in es && p(e)
  {
    if es == [] then [] else
    var front := Filter(es[..|es| - 1], p);
    if p(es[|es| - 1]) then front + [es[|es| - 1]] else front
  }

  /** The sum of the weights `w` over `es`. */
  function Sum<T(!new)>(es: seq<T>, w: T -> int): int {
    if es == [] then 0 else Sum(es[..|es| - 1], w) + w(es[|es| - 1])
  }

  /** Filtering by a weaker predicate first does not change the outcome. */
  lemma {:induction false} FilterTwice<T(!new)>(es: seq<T>, p: T -> bool, q: T -> bool)
    requires forall e :: e in es && p(e) ==> q(e)
    ensures Filter(Filter(es, q), p) == Filter(es, p)
  {
    if es != [] {
      var pre, e := es[..|es| - 1], es[|es| - 1];
      assert e in es;
      FilterTwice(pre, p, q);
      if q(e) {
        var front := Filter(pre, q);
        assert (front + [e])[..|front|] == front;
      }
    }
  }

  /** A filter keeps every copy of the elements it selects. */
  lemma {:induction false} FilterCount<T(!new)>(es: seq<T>, p: T -> bool, e: T)
    ensures multiset(Filter(es, p))[e] == if p(e) then multiset(es)[e] else 0
  {
    if es != [] {
      FilterCount(es[..|es| - 1], p, e);
      assert es == es[..|es| - 1] + [es[|es| - 1]];
    }
  }

  /** Elements of weight zero can be dropped from a sum. */
  lemma {:induction false} SumFilter<T(!new)>(es: seq<T>, w: T -> int, p: T -> bool)
    requires forall e :: e in es && !p(e) ==> w(e) == 0
    ensures Sum(Filter(es, p), w) == Sum(es, w)
  {
    if es != [] {
      var pre, e := es[..|es| - 1], es[|es| - 1];
      assert e in es;
      SumFilter(pre, w, p);
      if p(e) {
        var front := Filter(pre, p);
        assert (front + [e])[..|front|] == front;
      }
    }
  }

  lemma {:induction false} SumConcat<T(!new)>(a: seq<T>, b: seq<T>, w: T -> int)
    ensures Sum(a + b, w) == Sum(a, w) + Sum(b, w)
  {
    if b == [] {
      assert a + b == a;
    } else {
      SumConcat(a, b[..|b| - 1], w);
      assert (a + b)[..|a + b| - 1] == a + b[..|b| - 1];
    }
  }

  lemma SumWithout<T(!new)>(l: seq<T>, e: T, r: seq<T>, w: T -> int)
    ensures Sum(l + [e] + r, w) == Sum(l + r, w) + w(e)
  {
    SumConcat(l + [e], r, w);
    SumConcat(l, r, w);
    assert (l + [e])[..|l|] == l;
  }

  /** A sum does not depend on the order of its terms. */
  lemma {:induction false} SumPermutation<T(!new)>(a: seq<T>, b: seq<T>, w: T -> int)
    requires multiset(a) == multiset(b)
    ensures Sum(a, w) == Sum(b, w)
  {
    if a == [] {
      assert |b| == |multiset(b)| == 0;
    } else {
      var pre, e := a[..|a| - 1], a[|a| - 1];
      assert a == pre + [e];
      assert e in multiset(b);
      var i :| 0 <= i < |b| && b[i] == e;
      var l, r := b[..i], b[i + 1..];
      assert b == l + [e] + r;
      SamePermutation(pre, e, l, r);
      SumPermutation(pre, l + r, w);
      SumWithout(l, e, r, w);
    }
  }

  lemma SamePermutation<T(!new)>(pre: seq<T>, e: T, l: seq<T>, r: seq<T>)
    requires multiset(pre + [e]) == multiset(l + [e] + r)
    ensures multiset(pre) == multiset(l + r)
  {
    assert multiset(l + [e] + r) == multiset(l + r) + multiset{e};
    assert multiset(pre + [e]) == multiset(pre) + multiset{e};
    assert multiset(pre) == multiset(pre + [e]) - multiset{e};
    assert multiset(l + r) == multiset(l + [e] + r) - multiset{e};
  }

  lemma {:induction false} FilterNone<T(!new)>(es: seq<T>, p: T -> bool)
    requires forall e :: e in es ==> !p(e)
    ensures Filter(es, p) == []
  {
    if es != [] {
      assert es[|es| - 1] in es;
      FilterNone(es[..|es| - 1], p);
    }
  }

  /** A last element that is kept comes last. */
  lemma FilterLast<T(!new)>(es: seq<T>, p: T -> bool)
    requires es != [] && p(es[|es| - 1])
    ensures var r := Filter(es, p);
            r != [] && r[|r| - 1] == es[|es| - 1] && r[..|r| - 1] == Filter(es[..|es| - 1], p)
  {
  }

  lemma FilterSnoc<T(!new)>(es: seq<T>, e: T, p: T -> bool)
    ensures Filter(es + [e], p) == Filter(es, p) + if p(e) then [e] else []
  {
    assert (es + [e])[..|es|] == es;
  }

  lemma {:induction false} FilterConcat<T(!new)>(a: seq<T>, b: seq<T>, p: T -> bool)
    ensures Filter(a + b, p) == Filter(a, p) + Filter(b, p)
  {
    if b == [] {
      assert a + b == a;
    } else {
      var pre, e := b[..|b| - 1], b[|b| - 1];
      FilterConcat(a, pre, p);
      FilterSnoc(a + pre, e, p);
      FilterSnoc(pre, e, p);
      assert b == pre + [e] && a + b == a + pre + [e];
    }
  }

  lemma {:induction false} SameFilter<T(!new)>(es: seq<T>, p: T -> bool, q: T -> bool)
    requires forall e :: e in es ==> (p(e) <==> q(e))
    ensures Filter(es, p) == Filter(es, q)
  {
    if es != [] {
      assert es[|es| - 1] in es;
      SameFilter(es[..|es| - 1], p, q);
    }
  }
}
