/** Points of the unit interval, as paths into a binary tree: `false` steps
    into the left half, `true` into the right half.  Once a path runs out it
    keeps to the left, so the left-most point of a sub-interval is reached by
    the path that stops there. */
module Paths {

  /** Whether the next step goes into the left child. */
  predicate GoesLeft(p: seq<bool>)
  {
    |p| == 0 || !p[0]
  }

  /** What remains of the path after the next step. */
  function Rest(p: seq<bool>): (q: seq<bool>)
    ensures |q| == if |p| == 0 then 0 else |p| - 1
  {
    if |p| == 0 then p else p[1..]
  }

  lemma LeftPath(q: seq<bool>)
    ensures GoesLeft([false] + q) && Rest([false] + q) == q
  {
    assert ([false] + q)[1..] == q;
  }

  lemma RightPath(q: seq<bool>)
    ensures !GoesLeft([true] + q) && Rest([true] + q) == q
  {
    assert ([true] + q)[1..] == q;
  }

}
