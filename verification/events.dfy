/** The event (history) tree of an Interval Tree Clock: an offset-compressed
    binary tree.  A leaf holds a count; a node holds an offset `n` that is
    added to every value beneath it.  Counters are unbounded naturals; the
    only place where the fixed-width source could wrap, `Sink`, carries the
    no-underflow condition as a precondition.

    The comparison and the join are written with the lifts the source
    applies to subtrees kept pending as two offsets (`LeqAt`, `JoinAt`), so
    that they recurse on plain subtrees; `EventOrder` proves that the
    public `Leq` and `Join` satisfy the source's case equations, lifts
    included. */
module Events {
  import opened Paths

  datatype Event = ELeaf(n: nat) | ENode(n: nat, left: Event, right: Event)

  function Height(e: Event): nat
  {
    match e
    case ELeaf(_) => 0
    case ENode(_, l, r) => 1 + Larger(Height(l), Height(r))
  }

  function Larger(a: nat, b: nat): nat
  {
    if a > b then a else b
  }

  function Smaller(a: nat, b: nat): nat
  {
    if a < b then a else b
  }

  /** The meaning of a history: the count it records at the point of the
      unit interval that path `p` reaches, the offsets along the way added
      up. */
  function Value(e: Event, p: seq<bool>): nat
  {
    match e
    case ELeaf(n) => n
    case ENode(n, l, r) =>
      if GoesLeft(p) then n + Value(l, Rest(p)) else n + Value(r, Rest(p))
  }

  /** A fresh flat history at `value`. */
  function NewEvent(value: nat): (e: Event)
    ensures forall p :: Value(e, p) == value
  {
    ELeaf(value)
  }

  /** Smallest value the tree denotes anywhere: the offsets along a path plus
      the leaf, minimised over all paths. */
  function Min(e: Event): (m: nat)
    ensures e.n <= m
  {
    match e
    case ELeaf(n) => n
    case ENode(n, l, r) => n + Smaller(Min(l), Min(r))
  }

  /** Largest value the tree denotes anywhere. */
  function Max(e: Event): (m: nat)
    ensures e.n <= m
  {
    match e
    case ELeaf(n) => n
    case ENode(n, l, r) => n + Larger(Max(l), Max(r))
  }

  /** The two-argument `Min(a, b)` helper: the smaller of the two trees' minima. */
  function MinOf(a: Event, b: Event): (m: nat)
    ensures m <= Min(a) && m <= Min(b)
    ensures m == Min(a) || m == Min(b)
  {
    Smaller(Min(a), Min(b))
  }

  /** The two-argument `Max(a, b)` helper: the larger of the two trees' maxima. */
  function MaxOf(a: Event, b: Event): (m: nat)
    ensures Max(a) <= m && Max(b) <= m
    ensures m == Max(a) || m == Max(b)
  {
    Larger(Max(a), Max(b))
  }

  /** Raises the root value by `m`; the children are shared unchanged, so
      every value the tree denotes rises by `m`. */
  function Lift(e: Event, m: nat): (r: Event)
    ensures r.n == e.n + m
    ensures r.ELeaf? == e.ELeaf?
    ensures r.ENode? ==> r.left == e.left && r.right == e.right
    ensures Height(r) == Height(e)
  {
    match e
    case ELeaf(n) => ELeaf(n + m)
    case ENode(n, l, r) => ENode(n + m, l, r)
  }

  /** Lowers the root value by `m`; the inverse of `Lift`.  The source works
      on uint32 and would wrap when `m` exceeds the root value, so that case
      is excluded here. */
  function Sink(e: Event, m: nat): (r: Event)
    requires m <= e.n
    ensures Lift(r, m) == e
  {
    match e
    case ELeaf(n) => ELeaf(n - m)
    case ENode(n, l, r) => ENode(n - m, l, r)
  }

  /** Canonical form: every node has a child whose root is 0 (the node's
      offset is the tree's minimum) and no node has two equal leaves. */
  predicate Normalized(e: Event)
  {
    match e
    case ELeaf(_) => true
    case ENode(_, l, r) =>
      && Normalized(l) && Normalized(r)
      && (l.n == 0 || r.n == 0)
      && !(l.ELeaf? && r.ELeaf? && l.n == r.n)
  }

  /** `Norm` can be applied without underflow: either the node collapses, or
      the hoisted minimum is at most both children's root values. */
  predicate CanNorm(e: Event)
  {
    || e.ELeaf?
    || (e.left.ELeaf? && e.right.ELeaf? && e.left.n == e.right.n)
    || (MinOf(e.left, e.right) <= e.left.n && MinOf(e.left, e.right) <= e.right.n)
  }

  /** One level of normalisation.  A leaf is kept; a node with two equal
      leaves collapses; otherwise the children's common minimum is hoisted
      into the offset.  The new root is the tree's minimum, and a node whose
      children are canonical (each rooted at its own minimum) becomes
      canonical. */
  function Norm(e: Event): (r: Event)
    requires CanNorm(e)
    ensures e.ELeaf? ==> r == e
    ensures r.n == Min(e) && Min(r) == Min(e) && Max(r) == Max(e)
    ensures (&& e.ENode? && Normalized(e.left) && Normalized(e.right)
             && Min(e.left) == e.left.n && Min(e.right) == e.right.n) ==> Normalized(r)
  {
    match e
    case ELeaf(_) => e
    case ENode(n, l, r) =>
      if l.ELeaf? && r.ELeaf? && l.n == r.n then
        ELeaf(n + l.n)
      else
        var m := MinOf(l, r);
        ENode(n + m, Sink(l, m), Sink(r, m))
  }

  /** `LeqAt(o1, e1, o2, e2)` is `Leq(Lift(e1, o1), Lift(e2, o2))`: the
      comparison with the lifts it applies to subtrees kept as offsets.
      Cases 1 and 2 (a leaf on the left) compare root values; case 3 (a node
      against a leaf) also compares both lifted children with the leaf; the
      node/node case compares the lifted children pairwise, the rule the
      stamp comparison documents.  The source differs in two places, both
      modelled in `AsWritten`: itc/Event.go:103 lifts the whole node instead
      of its left child, and itc/Event.go:106 answers false for two nodes. */
  predicate LeqAt(o1: nat, e1: Event, o2: nat, e2: Event)
    decreases e1
  {
    if e1.ELeaf? then
      o1 + e1.n <= o2 + e2.n
    else if e2.ELeaf? then
      && o1 + e1.n <= o2 + e2.n
      && LeqAt(o1 + e1.n, e1.left, o2, e2)
      && LeqAt(o1 + e1.n, e1.right, o2, e2)
    else
      && o1 + e1.n <= o2 + e2.n
      && LeqAt(o1 + e1.n, e1.left, o2 + e2.n, e2.left)
      && LeqAt(o1 + e1.n, e1.right, o2 + e2.n, e2.right)
  }

  /** The partial order "e1's history is dominated by e2's". */
  predicate Leq(e1: Event, e2: Event)
  {
    LeqAt(0, e1, 0, e2)
  }

  /** A leaf `n` rewritten as the node `(n, 0, 0)`: one level deep, and
      denoting the same flat history. */
  function Promote(n: nat): (r: Event)
    ensures r.ENode? && r.n == n && Height(r) == 1
    ensures forall p :: Value(r, p) == n
  {
    ENode(n, ELeaf(0), ELeaf(0))
  }

  function LeafCount(e1: Event, e2: Event): nat
  {
    (if e1.ELeaf? then 1 else 0) + (if e2.ELeaf? then 1 else 0)
  }

  /** `JoinAt(o1, e1, o2, e2)` is `Join(Lift(e1, o1), Lift(e2, o2))`.  Two
      leaves give the larger value; a leaf operand is promoted to `(n, 0, 0)`;
      operands are swapped so the smaller root comes first; two nodes have
      their children joined, the second operand's children re-based on the
      first root, and the result normalised.  The result is always
      canonical.  Trees are values here, so the source's in-place promotion
      of its second argument (itc/Event.go:150-152) has no counterpart. */
  function JoinAt(o1: nat, e1: Event, o2: nat, e2: Event): (r: Event)
    ensures Normalized(r) && Min(r) == r.n
    decreases Larger(Height(e1), Height(e2)), LeafCount(e1, e2),
              if o1 + e1.n > o2 + e2.n then 1 else 0
  {
    if e1.ELeaf? && e2.ELeaf? then
      ELeaf(Larger(o1 + e1.n, o2 + e2.n))
    else if e1.ELeaf? then
      JoinAt(0, Promote(o1 + e1.n), o2, e2)
    else if e2.ELeaf? then
      JoinAt(o1, e1, 0, Promote(o2 + e2.n))
    else if o1 + e1.n > o2 + e2.n then
      JoinAt(o2, e2, o1, e1)
    else
      var base := o1 + e1.n;
      var d := o2 + e2.n - base;
      var left := JoinAt(0, e1.left, d, e2.left);
      var right := JoinAt(0, e1.right, d, e2.right);
      Norm(ENode(base, left, right))
  }

  /** Least upper bound of two histories. */
  function Join(e1: Event, e2: Event): (r: Event)
    ensures Normalized(r)
  {
    JoinAt(0, e1, 0, e2)
  }

  // ---------------------------------------------------------------------
  // Facts about Min, Max and normal form
  // ---------------------------------------------------------------------

  lemma {:induction false} MinLeMax(e: Event)
    ensures Min(e) <= Max(e)
  {
    match e
    case ELeaf(_) =>
    case ENode(_, l, r) =>
      MinLeMax(l);
      MinLeMax(r);
  }

  /** In canonical form the root value is the minimum of the whole tree. */
  lemma {:induction false} NormalizedRootIsMin(e: Event)
    requires Normalized(e)
    ensures Min(e) == e.n
  {
    match e
    case ELeaf(_) =>
    case ENode(_, l, r) =>
      NormalizedRootIsMin(l);
      NormalizedRootIsMin(r);
  }

  /** A canonical node always denotes a non-constant history. */
  lemma {:induction false} NormalizedNodeMinLtMax(e: Event)
    requires Normalized(e) && e.ENode?
    ensures Min(e) < Max(e)
  {
    var l, r := e.left, e.right;
    NormalizedRootIsMin(l);
    NormalizedRootIsMin(r);
    MinLeMax(l);
    MinLeMax(r);
    if l.ENode? {
      NormalizedNodeMinLtMax(l);
    } else if r.ENode? {
      NormalizedNodeMinLtMax(r);
    }
  }

  /** Lifting shifts every value the tree denotes by the same amount. */
  lemma LiftShifts(e: Event, m: nat)
    ensures Min(Lift(e, m)) == Min(e) + m && Max(Lift(e, m)) == Max(e) + m
    ensures forall p :: Value(Lift(e, m), p) == Value(e, p) + m
  {
  }

  lemma LiftPreservesNormalized(e: Event, m: nat)
    ensures Normalized(Lift(e, m)) == Normalized(e)
  {
  }

  /** Given canonical children, `Norm` is defined and yields a canonical tree. */
  lemma NormCanonical(e: Event)
    requires e.ENode? && Normalized(e.left) && Normalized(e.right)
    ensures CanNorm(e) && Normalized(Norm(e))
  {
    NormalizedRootIsMin(e.left);
    NormalizedRootIsMin(e.right);
  }

  /** Normalising an already canonical tree changes nothing. */
  lemma NormOfNormalized(e: Event)
    requires Normalized(e)
    ensures CanNorm(e) && Norm(e) == e
  {
    if e.ENode? {
      NormalizedRootIsMin(e.left);
      NormalizedRootIsMin(e.right);
    }
  }

  /** `Norm` is idempotent on a node whose children are canonical. */
  lemma NormIdempotent(e: Event)
    requires e.ENode? && Normalized(e.left) && Normalized(e.right)
    ensures CanNorm(e) && CanNorm(Norm(e)) && Norm(Norm(e)) == Norm(e)
  {
    NormCanonical(e);
    NormOfNormalized(Norm(e));
  }

  /** `Norm` never changes the history a tree denotes. */
  lemma NormKeepsValue(e: Event, p: seq<bool>)
    requires CanNorm(e)
    ensures Value(Norm(e), p) == Value(e, p)
  {
  }

}
