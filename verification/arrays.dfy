/** The two `Array.prototype` operations that `Trail.totalDistance` is
    written with: `map` (which the trail module writes as a sequence
    comprehension) and `reduce` called without an initial value.
 */
module Arrays {
  import opened Outcomes

  /** The accumulation `reduce` performs: the callback is applied to the
      running value and each remaining element, left to right. */
  function FoldLeft<T>(f: (T, T) -> T, acc: T, xs: seq<T>): T
    decreases |xs|
  {
    if xs == [] then acc else FoldLeft(f, f(acc, xs[0]), xs[1..])
  }

  /** `xs.reduce(f)` with no initial value: the first element seeds the
      accumulation, and an empty array throws a `TypeError`. */
  function Reduce<T>(xs: seq<T>, f: (T, T) -> T): (r: Result<T>)
    ensures r.Err? <==> xs == []
    ensures r.Err? ==> r.error == EmptyReduce
    ensures |xs| == 1 ==> r == Ok(xs[0])
  {
    if xs == [] then Err(EmptyReduce) else Ok(FoldLeft(f, xs[0], xs[1..]))
  }

  /** The callback `(previousValue, currentValue) => previousValue + currentValue`. */
  function Plus(a: real, b: real): real { a + b }

  /** The mathematical sum of a sequence, the reference for `Reduce(xs, Plus)`. */
  function Sum(xs: seq<real>): real
  {
    if xs == [] then 0.0 else xs[0] + Sum(xs[1..])
  }

  /** Summing one more element at the back adds it to the sum. */
  lemma {:induction false} SumSnoc(xs: seq<real>, x: real)
    ensures Sum(xs + [x]) == Sum(xs) + x
  {
    if xs != [] {
      assert (xs + [x])[1..] == xs[1..] + [x];
      SumSnoc(xs[1..], x);
    }
  }

  /** Folding `Plus` from an accumulator adds the accumulator to the sum. */
  lemma {:induction false} FoldPlusIsSum(acc: real, xs: seq<real>)
    ensures FoldLeft(Plus, acc, xs) == acc + Sum(xs)
    decreases |xs|
  {
    if xs != [] {
      FoldPlusIsSum(acc + xs[0], xs[1..]);
    }
  }

  /** On a non-empty array, summing with `reduce` yields the sum of its elements. */
  lemma ReducePlusIsSum(xs: seq<real>)
    requires xs != []
    ensures Reduce(xs, Plus) == Ok(Sum(xs))
  {
    FoldPlusIsSum(xs[0], xs[1..]);
  }
}
