/** The order and the join on event trees as the source states them: the
    case equations of `Leq` and `Join` with explicit lifts, and the
    semilattice laws that make `Join` the least upper bound of `Leq` on
    canonical trees. */
module EventOrder {
  import opened Events
  import opened EventValues

  // ---------------------------------------------------------------------
  // Pending offsets are lifts
  // ---------------------------------------------------------------------

  /** An offset pending on the left tree is a lift of its root. */
  lemma LeqAtShiftLeft(o1: nat, k: nat, a: Event, o2: nat, b: Event)
    ensures LeqAt(o1 + k, a, o2, b) == LeqAt(o1, Lift(a, k), o2, b)
  {
  }

  /** An offset pending on the right tree is a lift of its root. */
  lemma {:induction false} LeqAtShiftRight(o1: nat, a: Event, o2: nat, k: nat, b: Event)
    ensures LeqAt(o1, a, o2 + k, b) == LeqAt(o1, a, o2, Lift(b, k))
    decreases a
  {
    if a.ENode? && b.ELeaf? {
      LeqAtShiftRight(o1 + a.n, a.left, o2, k, b);
      LeqAtShiftRight(o1 + a.n, a.right, o2, k, b);
    }
  }

  /** `LeqAt` compares the two trees lifted by their offsets. */
  lemma LeqAtLift(o1: nat, a: Event, o2: nat, b: Event)
    ensures LeqAt(o1, a, o2, b) == Leq(Lift(a, o1), Lift(b, o2))
  {
    LeqAtShiftLeft(0, o1, a, o2, b);
    LeqAtShiftRight(0, Lift(a, o1), 0, o2, b);
  }

  /** The comparison satisfies the source's equations: a leaf on the left
      compares root values, a node against a leaf compares both lifted
      children with the leaf, and two nodes compare their roots and their
      lifted children pairwise. */
  lemma LeqCases(e1: Event, e2: Event)
    ensures e1.ELeaf? ==> (Leq(e1, e2) <==> e1.n <= e2.n)
    ensures e1.ENode? && e2.ELeaf? ==>
      (Leq(e1, e2) <==>
         && e1.n <= e2.n
         && Leq(Lift(e1.left, e1.n), e2)
         && Leq(Lift(e1.right, e1.n), e2))
    ensures e1.ENode? && e2.ENode? ==>
      (Leq(e1, e2) <==>
         && e1.n <= e2.n
         && Leq(Lift(e1.left, e1.n), Lift(e2.left, e2.n))
         && Leq(Lift(e1.right, e1.n), Lift(e2.right, e2.n)))
  {
    if e1.ENode? {
      if e2.ELeaf? {
        assert Lift(e2, 0) == e2;
        LeqAtLift(e1.n, e1.left, 0, e2);
        LeqAtLift(e1.n, e1.right, 0, e2);
      } else {
        LeqAtLift(e1.n, e1.left, e2.n, e2.left);
        LeqAtLift(e1.n, e1.right, e2.n, e2.right);
      }
    }
  }

  /** Comparing against a leaf or against its promotion `(n, 0, 0)` is the
      same comparison. */
  lemma LeqAtPromote(o1: nat, a: Event, o2: nat, n: nat)
    ensures LeqAt(o1, a, o2, ELeaf(n)) == LeqAt(o1, a, o2, Promote(n))
  {
    if a.ENode? {
      LeqAtShiftRight(o1 + a.n, a.left, o2, n, ELeaf(0));
      LeqAtShiftRight(o1 + a.n, a.right, o2, n, ELeaf(0));
    }
  }

  /** A tree is below a flat history exactly when its maximum is. */
  lemma LeqLeaf(e: Event, n: nat)
    ensures Leq(e, ELeaf(n)) <==> Max(e) <= n
  {
    LeqAtMeaning(0, e, 0, ELeaf(n));
    PointwiseBelowLeaf(0, e, 0, n);
  }

  /** `JoinAt` joins the two trees lifted by their offsets. */
  lemma JoinAtLift(o1: nat, a: Event, o2: nat, b: Event)
    ensures JoinAt(o1, a, o2, b) == Join(Lift(a, o1), Lift(b, o2))
  {
    var x, y := JoinAt(o1, a, o2, b), Join(Lift(a, o1), Lift(b, o2));
    forall p
      ensures Value(x, p) == Value(y, p)
    {
      JoinAtLiftAt(o1, a, o2, b, p);
    }
    CanonicalUnique(x, y);
  }

  /** One point of `JoinAtLift`: the pending join and the join of the
      lifted trees have the same count there. */
  lemma JoinAtLiftAt(o1: nat, a: Event, o2: nat, b: Event, p: seq<bool>)
    ensures Value(JoinAt(o1, a, o2, b), p) == Value(Join(Lift(a, o1), Lift(b, o2)), p)
  {
    JoinAtValue(o1, a, o2, b, p);
    JoinValue(Lift(a, o1), Lift(b, o2), p);
    LiftShifts(a, o1);
    LiftShifts(b, o2);
  }

  /** The join satisfies the source's equations: two leaves give the larger
      maximum; a leaf operand is first rewritten as the node `(n, 0, 0)`;
      the operand with the smaller root goes first; two nodes join their
      children, the second's lifted by the difference of the roots, under
      the first root, and the result is normalised. */
  lemma JoinCases(e1: Event, e2: Event)
    ensures e1.ELeaf? && e2.ELeaf? ==> Join(e1, e2) == ELeaf(MaxOf(e1, e2))
    ensures e1.ELeaf? && e2.ENode? ==> Join(e1, e2) == Join(Promote(e1.n), e2)
    ensures e1.ENode? && e2.ELeaf? ==> Join(e1, e2) == Join(e1, Promote(e2.n))
    ensures e1.ENode? && e2.ENode? && e1.n > e2.n ==> Join(e1, e2) == Join(e2, e1)
    ensures e1.ENode? && e2.ENode? && e1.n <= e2.n ==>
      var y := ENode(e1.n, Join(e1.left, Lift(e2.left, e2.n - e1.n)),
                           Join(e1.right, Lift(e2.right, e2.n - e1.n)));
      CanNorm(y) && Join(e1, e2) == Norm(y)
  {
    if e1.ENode? && e2.ENode? && e1.n <= e2.n {
      var d := e2.n - e1.n;
      assert Lift(e1.left, 0) == e1.left && Lift(e1.right, 0) == e1.right;
      JoinAtLift(0, e1.left, d, e2.left);
      JoinAtLift(0, e1.right, d, e2.right);
      var y := ENode(e1.n, Join(e1.left, Lift(e2.left, d)), Join(e1.right, Lift(e2.right, d)));
      NormCanonical(y);
      assert Join(e1, e2) == Norm(y);
    }
  }

  // ---------------------------------------------------------------------
  // Partial order
  // ---------------------------------------------------------------------

  lemma {:induction false} LeqAtReflexive(o: nat, e: Event)
    ensures LeqAt(o, e, o, e)
    decreases e
  {
    if e.ENode? {
      LeqAtReflexive(o + e.n, e.left);
      LeqAtReflexive(o + e.n, e.right);
    }
  }

  /** Every tree is below itself, canonical or not. */
  lemma LeqReflexive(e: Event)
    ensures Leq(e, e)
  {
    LeqAtReflexive(0, e);
  }

  lemma LeqTransitive(a: Event, b: Event, c: Event)
    requires Normalized(b) && Normalized(c)
    requires Leq(a, b) && Leq(b, c)
    ensures Leq(a, c)
  {
    LeqMeaning(a, b);
    LeqMeaning(b, c);
    LeqMeaning(a, c);
  }

  lemma LeqAntisymmetric(a: Event, b: Event)
    requires Normalized(a) && Normalized(b)
    requires Leq(a, b) && Leq(b, a)
    ensures a == b
  {
    LeqMeaning(a, b);
    LeqMeaning(b, a);
    CanonicalUnique(a, b);
  }

  // ---------------------------------------------------------------------
  // Join is the least upper bound
  // ---------------------------------------------------------------------

  lemma JoinUpper(a: Event, b: Event)
    ensures Leq(a, Join(a, b)) && Leq(b, Join(a, b))
  {
    var j := Join(a, b);
    forall p
      ensures Value(a, p) <= Value(j, p) && Value(b, p) <= Value(j, p)
    {
      JoinValue(a, b, p);
    }
    LeqMeaning(a, j);
    LeqMeaning(b, j);
  }

  lemma JoinLeast(a: Event, b: Event, c: Event)
    requires Normalized(c) && Leq(a, c) && Leq(b, c)
    ensures Leq(Join(a, b), c)
  {
    var j := Join(a, b);
    LeqMeaning(a, c);
    LeqMeaning(b, c);
    forall p
      ensures Value(j, p) <= Value(c, p)
    {
      JoinValue(a, b, p);
    }
    LeqMeaning(j, c);
  }

  /** Against a canonical tree, being below is being absorbed by the join. */
  lemma LeqIffJoin(a: Event, b: Event)
    requires Normalized(b)
    ensures Leq(a, b) <==> Join(a, b) == b
  {
    if Leq(a, b) {
      LeqMeaning(a, b);
      forall p
        ensures Value(Join(a, b), p) == Value(b, p)
      {
        JoinValue(a, b, p);
      }
      CanonicalUnique(Join(a, b), b);
    }
    if Join(a, b) == b {
      JoinUpper(a, b);
    }
  }

  lemma JoinCommutative(a: Event, b: Event)
    ensures Join(a, b) == Join(b, a)
  {
    forall p
      ensures Value(Join(a, b), p) == Value(Join(b, a), p)
    {
      JoinValue(a, b, p);
      JoinValue(b, a, p);
    }
    CanonicalUnique(Join(a, b), Join(b, a));
  }

  lemma JoinAssociative(a: Event, b: Event, c: Event)
    ensures Join(Join(a, b), c) == Join(a, Join(b, c))
  {
    var x, y := Join(Join(a, b), c), Join(a, Join(b, c));
    forall p
      ensures Value(x, p) == Value(y, p)
    {
      JoinValue(Join(a, b), c, p);
      JoinValue(a, b, p);
      JoinValue(a, Join(b, c), p);
      JoinValue(b, c, p);
    }
    CanonicalUnique(x, y);
  }

  lemma JoinIdempotent(a: Event)
    requires Normalized(a)
    ensures Join(a, a) == a
  {
    forall p
      ensures Value(Join(a, a), p) == Value(a, p)
    {
      JoinValue(a, a, p);
    }
    CanonicalUnique(Join(a, a), a);
  }

}
