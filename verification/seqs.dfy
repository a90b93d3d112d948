/**
 * The LINQ operators the controllers chain over query results: Where, OrderBy/ThenBy
 * (and their Descending forms), Count and Sum.
 */
module Seqs {

  /** A two-level sort key: OrderBy(major).ThenBy(minor). Descending orders negate the key. */
  datatype Key = Key(major: int, minor: int)

  predicate KeyLe(a: Key, b: Key) {
    a.major < b.major || (a.major == b.major && a.minor <= b.minor)
  }

  predicate SortedBy<T(!new)>(xs: seq<T>, key: T -> Key) {
    forall i, j | 0 <= i < j < |xs| :: KeyLe(key(xs[i]), key(xs[j]))
  }

  /** Where(p): keeps the elements satisfying `p`, in order. */
  function Filter<T(!new)>(xs: seq<T>, p: T -> bool): (r: seq<T>)
    ensures |r| <= |xs|
    ensures forall x :: x in r <==> x in xs && p(x)
  {
    if xs == [] then []
    else
      assert xs == [xs[0]] + xs[1..];
      if p(xs[0]) then [xs[0]] + Filter(xs[1..], p) else Filter(xs[1..], p)
  }

  /** Each element is kept as often as it occurs, or not at all. */
  lemma {:induction false} FilterMultiset<T(!new)>(xs: seq<T>, p: T -> bool)
    ensures forall x :: multiset(Filter(xs, p))[x] == if p(x) then multiset(xs)[x] else 0
  {
    if xs != [] {
      FilterMultiset(xs[1..], p);
      assert xs == [xs[0]] + xs[1..];
    }
  }

  /** Count(p). */
  function Count<T(!new)>(xs: seq<T>, p: T -> bool): (n: nat)
    ensures n <= |xs|
  {
    if xs == [] then 0 else (if p(xs[0]) then 1 else 0) + Count(xs[1..], p)
  }

  /** Count(p) is the length of Where(p). */
  lemma {:induction false} FilterLength<T(!new)>(xs: seq<T>, p: T -> bool)
    ensures |Filter(xs, p)| == Count(xs, p)
  {
    if xs != [] {
      FilterLength(xs[1..], p);
    }
  }

  /** Sum(f). */
  function Sum<T(!new)>(xs: seq<T>, f: T -> int): int {
    if xs == [] then 0 else f(xs[0]) + Sum(xs[1..], f)
  }

  /** Places `x` in front of the first element whose key is not below its own. */
  function Insert<T(!new)>(x: T, xs: seq<T>, key: T -> Key): (r: seq<T>)
    requires SortedBy(xs, key)
    ensures SortedBy(r, key)
    ensures |r| == |xs| + 1
    ensures multiset(r) == multiset(xs) + multiset{x}
    ensures forall y :: y in r <==> y in xs || y == x
  {
    if xs == [] || KeyLe(key(x), key(xs[0])) then [x] + xs
    else
      assert xs == [xs[0]] + xs[1..];
      var rest := Insert(x, xs[1..], key);
      assert forall y | y in rest :: KeyLe(key(xs[0]), key(y));
      [xs[0]] + rest
  }

  /** OrderBy(key): a sorted permutation of `xs`. */
  function SortBy<T(!new)>(xs: seq<T>, key: T -> Key): (r: seq<T>)
    ensures SortedBy(r, key)
    ensures |r| == |xs|
    ensures multiset(r) == multiset(xs)
    ensures forall y :: y in r <==> y in xs
  {
    if xs == [] then []
    else
      assert xs == [xs[0]] + xs[1..];
      Insert(xs[0], SortBy(xs[1..], key), key)
  }

  lemma {:induction false} SumAppend<T(!new)>(xs: seq<T>, ys: seq<T>, f: T -> int)
    ensures Sum(xs + ys, f) == Sum(xs, f) + Sum(ys, f)
  {
    if xs == [] {
      assert xs + ys == ys;
    } else {
      assert (xs + ys)[1..] == xs[1..] + ys;
      SumAppend(xs[1..], ys, f);
    }
  }

  /** Taking one summand out of a sum. */
  lemma {:induction false} SumRemove<T(!new)>(ys: seq<T>, i: int, f: T -> int)
    requires 0 <= i < |ys|
    ensures Sum(ys, f) == f(ys[i]) + Sum(ys[..i] + ys[i + 1..], f)
  {
    var before, after := ys[..i], ys[i + 1..];
    var tail := [ys[i]] + after;
    assert ys == before + tail;
    assert tail[1..] == after;
    assert Sum(tail, f) == f(ys[i]) + Sum(after, f);
    SumAppend(before, tail, f);
    SumAppend(before, after, f);
  }

  /** Sums do not depend on the order of the summands. */
  lemma {:induction false} SumPermutation<T(!new)>(xs: seq<T>, ys: seq<T>, f: T -> int)
    requires multiset(xs) == multiset(ys)
    ensures Sum(xs, f) == Sum(ys, f)
    decreases |xs|
  {
    if xs == [] {
      assert |ys| == |multiset(ys)| == 0;
    } else {
      var x := xs[0];
      assert x in multiset(ys) by {
        assert xs == [x] + xs[1..];
      }
      var i :| 0 <= i < |ys| && ys[i] == x;
      var rest := ys[..i] + ys[i + 1..];
      assert multiset(rest) == multiset(ys) - multiset{x} by {
        assert ys == ys[..i] + [x] + ys[i + 1..];
      }
      assert multiset(xs[1..]) == multiset(xs) - multiset{x} by {
        assert xs == [x] + xs[1..];
      }
      SumPermutation(xs[1..], rest, f);
      SumRemove(ys, i, f);
    }
  }

  /** Replacing one element changes the sum by the difference of the two summands. */
  lemma {:induction false} SumUpdate<T(!new)>(xs: seq<T>, i: int, v: T, f: T -> int)
    requires 0 <= i < |xs|
    ensures Sum(xs[i := v], f) == Sum(xs, f) - f(xs[i]) + f(v)
  {
    if i == 0 {
      assert xs[i := v][1..] == xs[1..];
    } else {
      assert xs[i := v][1..] == xs[1..][i - 1 := v];
      SumUpdate(xs[1..], i - 1, v, f);
    }
  }

  /** `f` on the elements satisfying `p`, zero elsewhere. */
  function Masked<T>(p: T -> bool, f: T -> int): T -> int {
    x => if p(x) then f(x) else 0
  }

  /** One on the elements satisfying `p`, zero elsewhere. */
  function Indicator<T>(p: T -> bool): T -> int {
    x => if p(x) then 1 else 0
  }

  /** Where(p).Sum(f) is the sum of f over the elements that satisfy p. */
  lemma {:induction false} SumFilter<T(!new)>(xs: seq<T>, p: T -> bool, f: T -> int)
    ensures Sum(Filter(xs, p), f) == Sum(xs, Masked(p, f))
  {
    if xs != [] {
      SumFilter(xs[1..], p, f);
    }
  }

  /** Where(p).Count() is the number of elements that satisfy p. */
  lemma {:induction false} CountIsSum<T(!new)>(xs: seq<T>, p: T -> bool)
    ensures Count(xs, p) == Sum(xs, Indicator(p))
  {
    if xs != [] {
      CountIsSum(xs[1..], p);
    }
  }

  /** Sums of two summands that agree on every element are equal. */
  lemma {:induction false} SumCongruent<T(!new)>(xs: seq<T>, f: T -> int, g: T -> int)
    requires forall x | x in xs :: f(x) == g(x)
    ensures Sum(xs, f) == Sum(xs, g)
  {
    if xs != [] {
      assert forall x | x in xs[1..] :: x in xs;
      SumCongruent(xs[1..], f, g);
    }
  }

  /** Filtering by two predicates that agree on every element gives the same result. */
  lemma {:induction false} FilterCongruent<T(!new)>(xs: seq<T>, p: T -> bool, q: T -> bool)
    requires forall x | x in xs :: p(x) == q(x)
    ensures Filter(xs, p) == Filter(xs, q)
  {
    if xs != [] {
      assert forall x | x in xs[1..] :: x in xs;
      FilterCongruent(xs[1..], p, q);
    }
  }

  /** Where(x => true) keeps everything. */
  lemma {:induction false} FilterAll<T(!new)>(xs: seq<T>)
    ensures Filter(xs, x => true) == xs
  {
    if xs != [] {
      FilterAll(xs[1..]);
      assert xs == [xs[0]] + xs[1..];
    }
  }

  /** Counting by a disjoint union is adding the counts. */
  lemma {:induction false} CountUnion<T(!new)>(xs: seq<T>, p: T -> bool, q: T -> bool, u: T -> bool)
    requires forall x | x in xs :: u(x) == (p(x) || q(x)) && !(p(x) && q(x))
    ensures Count(xs, u) == Count(xs, p) + Count(xs, q)
  {
    if xs != [] {
      assert forall x | x in xs[1..] :: x in xs;
      CountUnion(xs[1..], p, q, u);
    }
  }

  /** A weaker condition counts at least as many elements. */
  lemma {:induction false} CountMonotonic<T(!new)>(xs: seq<T>, p: T -> bool, q: T -> bool)
    requires forall x | x in xs :: p(x) ==> q(x)
    ensures Count(xs, p) <= Count(xs, q)
  {
    if xs != [] {
      assert forall x | x in xs[1..] :: x in xs;
      CountMonotonic(xs[1..], p, q);
    }
  }

  /** The first element of a sorted sequence has the least key. */
  lemma SortedHeadIsLeast<T(!new)>(xs: seq<T>, key: T -> Key, x: T)
    requires SortedBy(xs, key) && x in xs
    ensures xs != [] && KeyLe(key(xs[0]), key(x))
  {
    var i :| 0 <= i < |xs| && xs[i] == x;
    if i > 0 {
      assert KeyLe(key(xs[0]), key(xs[i]));
    }
  }
}
