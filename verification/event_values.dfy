/** The history an event tree denotes, read pointwise through `Value`:
    where the minimum and maximum are reached, what `LeqAt` and `JoinAt`
    mean pointwise, and the uniqueness of the canonical form. */
module EventValues {
  import opened Paths
  import opened Events

  /** Two trees denote the same history. */
  ghost predicate SameValues(a: Event, b: Event)
  {
    forall p :: Value(a, p) == Value(b, p)
  }

  /** `a` lifted by `o1` is pointwise at most `b` lifted by `o2`. */
  ghost predicate PointwiseLeq(o1: nat, a: Event, o2: nat, b: Event)
  {
    forall p :: o1 + Value(a, p) <= o2 + Value(b, p)
  }

  // ---------------------------------------------------------------------
  // Paths into a node
  // ---------------------------------------------------------------------

  lemma ValueLeft(e: Event, q: seq<bool>)
    requires e.ENode?
    ensures Value(e, [false] + q) == e.n + Value(e.left, q)
  {
    LeftPath(q);
  }

  lemma ValueRight(e: Event, q: seq<bool>)
    requires e.ENode?
    ensures Value(e, [true] + q) == e.n + Value(e.right, q)
  {
    RightPath(q);
  }

  // ---------------------------------------------------------------------
  // Where the extremes are reached
  // ---------------------------------------------------------------------

  lemma {:induction false} ValueBounds(e: Event, p: seq<bool>)
    ensures Min(e) <= Value(e, p) <= Max(e)
  {
    match e
    case ELeaf(_) =>
    case ENode(_, l, r) =>
      if GoesLeft(p) {
        ValueBounds(l, Rest(p));
      } else {
        ValueBounds(r, Rest(p));
      }
  }

  lemma {:induction false} MinWitness(e: Event) returns (p: seq<bool>)
    ensures Value(e, p) == Min(e)
  {
    match e
    case ELeaf(_) =>
      p := [];
    case ENode(_, l, r) =>
      if Min(l) <= Min(r) {
        var q := MinWitness(l);
        ValueLeft(e, q);
        p := [false] + q;
      } else {
        var q := MinWitness(r);
        ValueRight(e, q);
        p := [true] + q;
      }
  }

  lemma {:induction false} MaxWitness(e: Event) returns (p: seq<bool>)
    ensures Value(e, p) == Max(e)
  {
    match e
    case ELeaf(_) =>
      p := [];
    case ENode(_, l, r) =>
      if Max(l) >= Max(r) {
        var q := MaxWitness(l);
        ValueLeft(e, q);
        p := [false] + q;
      } else {
        var q := MaxWitness(r);
        ValueRight(e, q);
        p := [true] + q;
      }
  }

  /** Pointwise comparison with a flat history is a comparison of the
      maximum. */
  lemma PointwiseBelowLeaf(o1: nat, a: Event, o2: nat, n: nat)
    ensures PointwiseLeq(o1, a, o2, ELeaf(n)) <==> o1 + Max(a) <= o2 + n
  {
    if o1 + Max(a) <= o2 + n {
      forall p
        ensures o1 + Value(a, p) <= o2 + Value(ELeaf(n), p)
      {
        ValueBounds(a, p);
      }
    } else {
      var p := MaxWitness(a);
      assert o1 + Value(a, p) > o2 + Value(ELeaf(n), p);
    }
  }

  /** Pointwise comparison from a flat history is a comparison with the
      minimum. */
  lemma PointwiseAboveLeaf(o1: nat, n: nat, o2: nat, b: Event)
    ensures PointwiseLeq(o1, ELeaf(n), o2, b) <==> o1 + n <= o2 + Min(b)
  {
    if o1 + n <= o2 + Min(b) {
      forall p
        ensures o1 + Value(ELeaf(n), p) <= o2 + Value(b, p)
      {
        ValueBounds(b, p);
      }
    } else {
      var p := MinWitness(b);
      assert o1 + Value(ELeaf(n), p) > o2 + Value(b, p);
    }
  }

  // ---------------------------------------------------------------------
  // Splitting a pointwise comparison at a node
  // ---------------------------------------------------------------------

  /** A node is pointwise below a flat history exactly when both its lifted
      children are. */
  lemma PointwiseSplitLeaf(o1: nat, a: Event, o2: nat, c: Event)
    requires a.ENode? && c.ELeaf?
    ensures PointwiseLeq(o1, a, o2, c) <==>
      PointwiseLeq(o1 + a.n, a.left, o2, c) && PointwiseLeq(o1 + a.n, a.right, o2, c)
  {
    if PointwiseLeq(o1, a, o2, c) {
      forall q
        ensures o1 + a.n + Value(a.left, q) <= o2 + Value(c, q)
        ensures o1 + a.n + Value(a.right, q) <= o2 + Value(c, q)
      {
        ValueLeft(a, q);
        ValueRight(a, q);
        assert o1 + Value(a, [false] + q) <= o2 + Value(c, [false] + q);
        assert o1 + Value(a, [true] + q) <= o2 + Value(c, [true] + q);
      }
    }
    if PointwiseLeq(o1 + a.n, a.left, o2, c) && PointwiseLeq(o1 + a.n, a.right, o2, c) {
      forall p
        ensures o1 + Value(a, p) <= o2 + Value(c, p)
      {
        var q := Rest(p);
        assert o1 + a.n + Value(a.left, q) <= o2 + Value(c, q);
        assert o1 + a.n + Value(a.right, q) <= o2 + Value(c, q);
      }
    }
  }

  /** Two nodes compare pointwise exactly when their lifted children do,
      side by side. */
  lemma PointwiseSplitNodes(o1: nat, a: Event, o2: nat, b: Event)
    requires a.ENode? && b.ENode?
    ensures PointwiseLeq(o1, a, o2, b) <==>
      PointwiseLeq(o1 + a.n, a.left, o2 + b.n, b.left)
      && PointwiseLeq(o1 + a.n, a.right, o2 + b.n, b.right)
  {
    if PointwiseLeq(o1, a, o2, b) {
      forall q
        ensures o1 + a.n + Value(a.left, q) <= o2 + b.n + Value(b.left, q)
        ensures o1 + a.n + Value(a.right, q) <= o2 + b.n + Value(b.right, q)
      {
        ValueLeft(a, q);
        ValueRight(a, q);
        ValueLeft(b, q);
        ValueRight(b, q);
        assert o1 + Value(a, [false] + q) <= o2 + Value(b, [false] + q);
        assert o1 + Value(a, [true] + q) <= o2 + Value(b, [true] + q);
      }
    }
    if && PointwiseLeq(o1 + a.n, a.left, o2 + b.n, b.left)
       && PointwiseLeq(o1 + a.n, a.right, o2 + b.n, b.right)
    {
      forall p
        ensures o1 + Value(a, p) <= o2 + Value(b, p)
      {
        var q := Rest(p);
        assert o1 + a.n + Value(a.left, q) <= o2 + b.n + Value(b.left, q);
        assert o1 + a.n + Value(a.right, q) <= o2 + b.n + Value(b.right, q);
      }
    }
  }

  // ---------------------------------------------------------------------
  // What LeqAt means
  // ---------------------------------------------------------------------

  /** Against a canonical tree, `LeqAt` is exactly the pointwise order of
      the two lifted histories. */
  lemma {:induction false} LeqAtMeaning(o1: nat, a: Event, o2: nat, b: Event)
    requires Normalized(b)
    ensures LeqAt(o1, a, o2, b) <==> PointwiseLeq(o1, a, o2, b)
    decreases a
  {
    NormalizedRootIsMin(b);
    if a.ELeaf? {
      PointwiseAboveLeaf(o1, a.n, o2, b);
    } else if b.ELeaf? {
      LeqAtMeaning(o1 + a.n, a.left, o2, b);
      LeqAtMeaning(o1 + a.n, a.right, o2, b);
      PointwiseSplitLeaf(o1, a, o2, b);
      PointwiseBelowLeaf(o1 + a.n, a.left, o2, b.n);
    } else {
      LeqAtMeaning(o1 + a.n, a.left, o2 + b.n, b.left);
      LeqAtMeaning(o1 + a.n, a.right, o2 + b.n, b.right);
      PointwiseSplitNodes(o1, a, o2, b);
      if PointwiseLeq(o1, a, o2, b) {
        RootsFollow(o1, a, o2, b);
      }
    }
  }

  /** Between nodes, with the right one canonical, the pointwise order of
      the children already orders the roots. */
  lemma RootsFollow(o1: nat, a: Event, o2: nat, b: Event)
    requires a.ENode? && b.ENode? && Normalized(b)
    requires PointwiseLeq(o1 + a.n, a.left, o2 + b.n, b.left)
    requires PointwiseLeq(o1 + a.n, a.right, o2 + b.n, b.right)
    ensures o1 + a.n <= o2 + b.n
  {
    if b.left.n == 0 {
      NormalizedRootIsMin(b.left);
      var q := MinWitness(b.left);
      assert o1 + a.n + Value(a.left, q) <= o2 + b.n + Value(b.left, q);
    } else {
      NormalizedRootIsMin(b.right);
      var q := MinWitness(b.right);
      assert o1 + a.n + Value(a.right, q) <= o2 + b.n + Value(b.right, q);
    }
  }

  /** Against a canonical tree, `Leq` is the pointwise order of histories. */
  lemma LeqMeaning(a: Event, b: Event)
    requires Normalized(b)
    ensures Leq(a, b) <==> forall p :: Value(a, p) <= Value(b, p)
  {
    LeqAtMeaning(0, a, 0, b);
    assert Leq(a, b) == LeqAt(0, a, 0, b);
    if Leq(a, b) {
      forall p
        ensures Value(a, p) <= Value(b, p)
      {
        assert 0 + Value(a, p) <= 0 + Value(b, p);
      }
    } else {
      var p :| !(0 + Value(a, p) <= 0 + Value(b, p));
      assert !(Value(a, p) <= Value(b, p));
    }
  }

  // ---------------------------------------------------------------------
  // What JoinAt means
  // ---------------------------------------------------------------------

  /** The join is the pointwise maximum of the two lifted histories. */
  lemma {:induction false} JoinAtValue(o1: nat, a: Event, o2: nat, b: Event, p: seq<bool>)
    ensures Value(JoinAt(o1, a, o2, b), p) == Larger(o1 + Value(a, p), o2 + Value(b, p))
    decreases Larger(Height(a), Height(b)), LeafCount(a, b), if o1 + a.n > o2 + b.n then 1 else 0, 1
  {
    if a.ELeaf? && b.ELeaf? {
    } else if a.ELeaf? {
      JoinAtValue(0, Promote(o1 + a.n), o2, b, p);
      PromoteStep(o1, a, o2, b, p);
    } else if b.ELeaf? {
      JoinAtValue(o1, a, 0, Promote(o2 + b.n), p);
      PromoteStep(o2, b, o1, a, p);
      assert JoinAt(o1, a, o2, b) == JoinAt(o1, a, 0, Promote(o2 + b.n));
    } else if o1 + a.n > o2 + b.n {
      JoinAtValue(o2, b, o1, a, p);
      assert JoinAt(o1, a, o2, b) == JoinAt(o2, b, o1, a);
    } else {
      NodesStep(o1, a, o2, b, p);
    }
  }

  /** Promoting a leaf operand does not change the value it contributes. */
  lemma PromoteStep(o1: nat, a: Event, o2: nat, b: Event, p: seq<bool>)
    requires a.ELeaf?
    ensures 0 + Value(Promote(o1 + a.n), p) == o1 + Value(a, p)
  {
  }

  /** The node/node case of `JoinAtValue`, given the claim for the children. */
  lemma {:induction false} NodesStep(o1: nat, a: Event, o2: nat, b: Event, p: seq<bool>)
    requires a.ENode? && b.ENode? && o1 + a.n <= o2 + b.n
    ensures Value(JoinAt(o1, a, o2, b), p) == Larger(o1 + Value(a, p), o2 + Value(b, p))
    decreases Larger(Height(a), Height(b)), LeafCount(a, b), 0, 0
  {
    var base := o1 + a.n;
    var d := o2 + b.n - base;
    var jl, jr := JoinAt(0, a.left, d, b.left), JoinAt(0, a.right, d, b.right);
    var y := ENode(base, jl, jr);
    assert JoinAt(o1, a, o2, b) == Norm(y);
    NormKeepsValue(y, p);
    var q := Rest(p);
    if GoesLeft(p) {
      JoinAtValue(0, a.left, d, b.left, q);
      LeftStep(o1, a, o2, b, p, jl, jr);
    } else {
      JoinAtValue(0, a.right, d, b.right, q);
      RightStep(o1, a, o2, b, p, jl, jr);
    }
  }

  /** A path entering the left children: the node joining them under the
      smaller root takes the larger of the two lifted values there. */
  lemma LeftStep(o1: nat, a: Event, o2: nat, b: Event, p: seq<bool>, jl: Event, jr: Event)
    requires a.ENode? && b.ENode? && o1 + a.n <= o2 + b.n && GoesLeft(p)
    requires Value(jl, Rest(p)) == Larger(0 + Value(a.left, Rest(p)), o2 + b.n - (o1 + a.n) + Value(b.left, Rest(p)))
    ensures Value(ENode(o1 + a.n, jl, jr), p) == Larger(o1 + Value(a, p), o2 + Value(b, p))
  {
  }

  /** A path entering the right children. */
  lemma RightStep(o1: nat, a: Event, o2: nat, b: Event, p: seq<bool>, jl: Event, jr: Event)
    requires a.ENode? && b.ENode? && o1 + a.n <= o2 + b.n && !GoesLeft(p)
    requires Value(jr, Rest(p)) == Larger(0 + Value(a.right, Rest(p)), o2 + b.n - (o1 + a.n) + Value(b.right, Rest(p)))
    ensures Value(ENode(o1 + a.n, jl, jr), p) == Larger(o1 + Value(a, p), o2 + Value(b, p))
  {
  }

  lemma JoinValue(a: Event, b: Event, p: seq<bool>)
    ensures Value(Join(a, b), p) == Larger(Value(a, p), Value(b, p))
  {
    JoinAtValue(0, a, 0, b, p);
  }

  // ---------------------------------------------------------------------
  // The canonical form is unique
  // ---------------------------------------------------------------------

  /** Two canonical trees that denote the same history are the same tree. */
  lemma {:induction false} CanonicalUnique(a: Event, b: Event)
    requires Normalized(a) && Normalized(b) && SameValues(a, b)
    ensures a == b
    decreases a
  {
    if a.ELeaf? && b.ELeaf? {
      assert Value(a, []) == Value(b, []);
    } else if a.ELeaf? {
      NotFlat(b, a.n);
    } else if b.ELeaf? {
      NotFlat(a, b.n);
    } else {
      var pa := MinWitness(a);
      var pb := MinWitness(b);
      ValueBounds(a, pb);
      ValueBounds(b, pa);
      NormalizedRootIsMin(a);
      NormalizedRootIsMin(b);
      assert a.n == b.n;
      forall q
        ensures Value(a.left, q) == Value(b.left, q)
        ensures Value(a.right, q) == Value(b.right, q)
      {
        ValueLeft(a, q);
        ValueLeft(b, q);
        ValueRight(a, q);
        ValueRight(b, q);
      }
      CanonicalUnique(a.left, b.left);
      CanonicalUnique(a.right, b.right);
    }
  }

  /** A canonical node does not denote a flat history. */
  lemma NotFlat(e: Event, n: nat)
    requires Normalized(e) && e.ENode?
    ensures !SameValues(e, ELeaf(n))
  {
    NormalizedNodeMinLtMax(e);
    var lo := MinWitness(e);
    var hi := MaxWitness(e);
    assert Value(e, lo) != Value(e, hi);
  }

}
