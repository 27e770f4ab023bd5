/** `Array.prototype.filter` and `map`, as used by the make-real pipeline. */
module Seqs {

  /**
   * `xs.filter(p)`: the elements satisfying `p`, in their original order;
   * every element that passes keeps its multiplicity, every other one is gone.
   */
  function Filter<T(==, !new)>(p: T -> bool, xs: seq<T>): (r: seq<T>)
    ensures |r| <= |xs|
    ensures forall i :: 0 <= i < |r| ==> p(r[i]) && r[i] in xs
    ensures forall e {:trigger multiset(r)[e]} :: multiset(r)[e] == if p(e) then multiset(xs)[e] else 0
  {
    if xs == [] then []
    else
      assert xs == [xs[0]] + xs[1..];
      if p(xs[0]) then [xs[0]] + Filter(p, xs[1..]) else Filter(p, xs[1..])
  }

  /**
   * Filtering keeps the input order: the survivors of `xs + ys` are those
   * of `xs` followed by those of `ys`.
   */
  lemma {:induction false} FilterAppend<T(!new)>(p: T -> bool, xs: seq<T>, ys: seq<T>)
    ensures Filter(p, xs + ys) == Filter(p, xs) + Filter(p, ys)
  {
    if xs != [] {
      assert (xs + ys)[0] == xs[0] && (xs + ys)[1..] == xs[1..] + ys;
      FilterAppend(p, xs[1..], ys);
      if p(xs[0]) {
        assert Filter(p, xs) + Filter(p, ys) == [xs[0]] + (Filter(p, xs[1..]) + Filter(p, ys));
      }
    } else {
      assert xs + ys == ys;
    }
  }

  /** `xs.map(f)`. */
  function Map<T, U>(f: T -> U, xs: seq<T>): (r: seq<U>)
    ensures |r| == |xs|
    ensures forall i :: 0 <= i < |xs| ==> r[i] == f(xs[i])
  {
    seq(|xs|, i requires 0 <= i < |xs| => f(xs[i]))
  }
}
