/** Filtering a sequence by a predicate, as Python's `[x for x in xs if p(x)]` does. */
module Seqs {

  function Filter<T>(p: T -> bool, xs: seq<T>): (r: seq<T>)
    ensures |r| <= |xs|
    ensures forall i :: 0 <= i < |r| ==> p(r[i])
  {
    if xs == [] then []
    else (if p(xs[0]) then [xs[0]] else []) + Filter(p, xs[1..])
  }

  /** Filtering keeps the relative order: it distributes over concatenation. */
  lemma {:induction false} FilterAppend<T>(p: T -> bool, xs: seq<T>, ys: seq<T>)
    ensures Filter(p, xs + ys) == Filter(p, xs) + Filter(p, ys)
  {
    if xs == [] {
      assert xs + ys == ys;
    } else {
      assert (xs + ys)[0] == xs[0] && (xs + ys)[1..] == xs[1..] + ys;
      FilterAppend(p, xs[1..], ys);
    }
  }

  /** An element is kept exactly when it occurs and satisfies the predicate. */
  lemma {:induction false} FilterMember<T>(p: T -> bool, xs: seq<T>, x: T)
    ensures x in Filter(p, xs) <==> x in xs && p(x)
  {
    if xs != [] {
      FilterMember(p, xs[1..], x);
      assert x in xs <==> x == xs[0] || x in xs[1..];
    }
  }

  /** Filtering a sequence with a first element: that element, if kept, then the filtered rest. */
  lemma FilterCons<T>(p: T -> bool, x: T, t: seq<T>)
    ensures Filter(p, [x] + t) == (if p(x) then [x] else []) + Filter(p, t)
  {
    assert ([x] + t)[0] == x && ([x] + t)[1..] == t;
  }

  /** Filtering by a predicate and by its negation splits the sequence: together the two are a permutation of it. */
  lemma {:induction false} FilterSplit<T>(p: T -> bool, q: T -> bool, xs: seq<T>)
    requires forall x :: q(x) == !p(x)
    ensures multiset(Filter(p, xs)) + multiset(Filter(q, xs)) == multiset(xs)
  {
    if xs != [] {
      var x, t := xs[0], xs[1..];
      FilterSplit(p, q, t);
      assert xs == [x] + t;
      FilterCons(p, x, t);
      FilterCons(q, x, t);
      var a, b := if p(x) then [x] else [], if q(x) then [x] else [];
      assert q(x) == !p(x);
      assert multiset(a) + multiset(b) == multiset{x};
      MultisetConsSplit(a, b, Filter(p, t), Filter(q, t), x, t);
    }
  }

  /** Splitting the head and the rest of a sequence separately splits the whole sequence. */
  lemma MultisetConsSplit<T>(a: seq<T>, b: seq<T>, c: seq<T>, d: seq<T>, x: T, t: seq<T>)
    requires multiset(a) + multiset(b) == multiset{x}
    requires multiset(c) + multiset(d) == multiset(t)
    ensures multiset(a + c) + multiset(b + d) == multiset([x] + t)
  {
    calc {
      multiset(a + c) + multiset(b + d);
      (multiset(a) + multiset(b)) + (multiset(c) + multiset(d));
      multiset([x]) + multiset(t);
    }
  }

  /** A filter of one element keeps it exactly when it satisfies the predicate. */
  lemma FilterSingle<T>(p: T -> bool, x: T)
    ensures Filter(p, [x]) == if p(x) then [x] else []
  {
    assert [x][1..] == [];
  }
}
