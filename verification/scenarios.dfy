/** Concrete runs of the clock: the examples the repository's own tests
    exercise, evaluated on the model. */
module Scenarios {
  import opened Wrappers
  import opened Events
  import EventOrder
  import Ids
  import Stamps

  // ---------------------------------------------------------------------
  // Events
  // ---------------------------------------------------------------------

  /** A node with two equal leaves collapses into one leaf; a leaf is kept. */
  lemma NormExamples()
    ensures CanNorm(ENode(3, ELeaf(1), ELeaf(1))) && Norm(ENode(3, ELeaf(1), ELeaf(1))) == ELeaf(4)
    ensures Norm(ELeaf(3)) == ELeaf(3)
  {
  }

  lemma MinMaxExamples()
    ensures Min(ENode(1, ELeaf(2), ELeaf(3))) == 3 && Max(ENode(1, ELeaf(2), ELeaf(3))) == 4
    ensures Min(ELeaf(3)) == 3 && Max(ELeaf(3)) == 3
  {
  }

  lemma LeqExamples()
    ensures Leq(ELeaf(0), ELeaf(1))
    ensures Leq(ELeaf(1), ENode(2, ELeaf(5), ELeaf(3)))
    ensures !Leq(ENode(2, ELeaf(5), ELeaf(3)), ELeaf(1))
  {
  }

  // ---------------------------------------------------------------------
  // Identities
  // ---------------------------------------------------------------------

  lemma SplitExamples()
    ensures Ids.Split(Ids.IdLeaf(0)) == (Ids.IdLeaf(0), Ids.IdLeaf(0))
    ensures Ids.Split(Ids.IdLeaf(1))
      == (Ids.IdNode(Ids.IdLeaf(1), Ids.IdLeaf(0)), Ids.IdNode(Ids.IdLeaf(0), Ids.IdLeaf(1)))
    ensures Ids.Split(Ids.IdNode(Ids.IdLeaf(0), Ids.IdLeaf(1)))
      == (Ids.IdNode(Ids.IdLeaf(0), Ids.IdNode(Ids.IdLeaf(1), Ids.IdLeaf(0))),
          Ids.IdNode(Ids.IdLeaf(0), Ids.IdNode(Ids.IdLeaf(0), Ids.IdLeaf(1))))
  {
  }

  lemma SumExamples()
    ensures Ids.Sum(Ids.IdLeaf(0), Ids.IdLeaf(1)) == Some(Ids.IdLeaf(1))
    ensures Ids.Sum(Ids.IdLeaf(1), Ids.IdLeaf(0)) == Some(Ids.IdLeaf(1))
    ensures Ids.Sum(Ids.IdNode(Ids.IdLeaf(1), Ids.IdLeaf(0)), Ids.IdNode(Ids.IdLeaf(0), Ids.IdLeaf(1)))
      == Some(Ids.IdLeaf(1))
    ensures Ids.Sum(Ids.IdLeaf(1), Ids.IdLeaf(1)) == None
  {
  }

  lemma IdNormExamples()
    ensures Ids.Norm(Ids.IdNode(Ids.IdLeaf(0), Ids.IdLeaf(0))) == Ids.IdLeaf(0)
    ensures Ids.Norm(Ids.IdNode(Ids.IdLeaf(1), Ids.IdLeaf(1))) == Ids.IdLeaf(1)
    ensures Ids.Norm(Ids.IdLeaf(1)) == Ids.IdLeaf(1)
  {
  }

  // ---------------------------------------------------------------------
  // Stamps
  // ---------------------------------------------------------------------

  /** The seed is below the flat history 1. */
  lemma SeedBelowFlat()
    ensures Stamps.Leq(Stamps.Seed(), Stamps.Stamp(Ids.IdLeaf(1), ELeaf(1)))
  {
  }

  /** The tree `(1, 3, 5)` normalises to `(4, 0, 2)`, which is above the
      seed. */
  lemma SeedBelowTree()
    ensures CanNorm(ENode(1, ELeaf(3), ELeaf(5)))
    ensures Norm(ENode(1, ELeaf(3), ELeaf(5))) == ENode(4, ELeaf(0), ELeaf(2))
    ensures Stamps.Leq(Stamps.Seed(), Stamps.Stamp(Ids.IdLeaf(0), ENode(4, ELeaf(0), ELeaf(2))))
  {
    assert MinOf(ELeaf(3), ELeaf(5)) == 3;
  }

  /** The tree `(0, 3, 5)` is not below the seed, though its root is. */
  lemma TreeNotBelowSeed()
    ensures !Stamps.Leq(Stamps.Stamp(Ids.IdLeaf(0), ENode(0, ELeaf(3), ELeaf(5))), Stamps.Seed())
  {
    assert Stamps.Seed().event == ELeaf(0);
    assert !LeqAt(0, ELeaf(3), 0, ELeaf(0));
  }

  /** The tree `(0, 1, 1)` is below the flat history 1. */
  lemma TreeBelowFlat()
    ensures Stamps.Leq(Stamps.Stamp(Ids.IdLeaf(0), ENode(0, ELeaf(1), ELeaf(1))),
                       Stamps.Stamp(Ids.IdLeaf(1), ELeaf(1)))
  {
  }

  /** The seed advances twice, forks, both halves advance once, and the
      halves join back into the seed's identity with the flat history 3. */
  lemma TwoReplicaForkJoin()
    ensures Stamps.Advance(Stamps.Seed()) == Some(Stamps.Stamp(Ids.IdLeaf(1), ELeaf(1)))
    ensures Stamps.Advance(Stamps.Stamp(Ids.IdLeaf(1), ELeaf(1))) == Some(Stamps.Stamp(Ids.IdLeaf(1), ELeaf(2)))
    ensures Stamps.Fork(Stamps.Stamp(Ids.IdLeaf(1), ELeaf(2)))
      == (Stamps.Stamp(Ids.IdNode(Ids.IdLeaf(1), Ids.IdLeaf(0)), ELeaf(2)),
          Stamps.Stamp(Ids.IdNode(Ids.IdLeaf(0), Ids.IdLeaf(1)), ELeaf(2)))
    ensures Stamps.Advance(Stamps.Stamp(Ids.IdNode(Ids.IdLeaf(1), Ids.IdLeaf(0)), ELeaf(2)))
      == Some(Stamps.Stamp(Ids.IdNode(Ids.IdLeaf(1), Ids.IdLeaf(0)), ENode(2, ELeaf(1), ELeaf(0))))
    ensures Stamps.Advance(Stamps.Stamp(Ids.IdNode(Ids.IdLeaf(0), Ids.IdLeaf(1)), ELeaf(2)))
      == Some(Stamps.Stamp(Ids.IdNode(Ids.IdLeaf(0), Ids.IdLeaf(1)), ENode(2, ELeaf(0), ELeaf(1))))
    ensures Stamps.Join(Stamps.Stamp(Ids.IdNode(Ids.IdLeaf(1), Ids.IdLeaf(0)), ENode(2, ELeaf(1), ELeaf(0))),
                        Stamps.Stamp(Ids.IdNode(Ids.IdLeaf(0), Ids.IdLeaf(1)), ENode(2, ELeaf(0), ELeaf(1))))
      == Some(Stamps.Stamp(Ids.IdLeaf(1), ELeaf(3)))
  {
  }

  /** The right half of a forked seed advances: it cannot fill a flat
      history, so it expands the leaf and grows the right side. */
  lemma AsymmetricFirstAdvance()
    ensures Stamps.Advance(Stamps.Stamp(Ids.IdNode(Ids.IdLeaf(0), Ids.IdLeaf(1)), ELeaf(0)))
      == Some(Stamps.Stamp(Ids.IdNode(Ids.IdLeaf(0), Ids.IdLeaf(1)), ENode(0, ELeaf(0), ELeaf(1))))
  {
  }

  /** It advances again: filling changes nothing, so the right leaf grows. */
  lemma AsymmetricSecondAdvance()
    ensures Stamps.Advance(Stamps.Stamp(Ids.IdNode(Ids.IdLeaf(0), Ids.IdLeaf(1)), ENode(0, ELeaf(0), ELeaf(1))))
      == Some(Stamps.Stamp(Ids.IdNode(Ids.IdLeaf(0), Ids.IdLeaf(1)), ENode(0, ELeaf(0), ELeaf(2))))
  {
    assert Stamps.Fill(Ids.IdNode(Ids.IdLeaf(0), Ids.IdLeaf(1)), ENode(0, ELeaf(0), ELeaf(1)))
      == Some(ENode(0, ELeaf(0), ELeaf(1)));
  }

  /** The untouched left half joins the advanced right half. */
  lemma AsymmetricJoin()
    ensures Stamps.Join(Stamps.Stamp(Ids.IdNode(Ids.IdLeaf(1), Ids.IdLeaf(0)), ELeaf(0)),
                        Stamps.Stamp(Ids.IdNode(Ids.IdLeaf(0), Ids.IdLeaf(1)), ENode(0, ELeaf(0), ELeaf(2))))
      == Some(Stamps.Stamp(Ids.IdLeaf(1), ENode(0, ELeaf(0), ELeaf(2))))
  {
    SumExamples();
    assert Leq(ELeaf(0), ENode(0, ELeaf(0), ELeaf(2)));
    EventOrder.LeqIffJoin(ELeaf(0), ENode(0, ELeaf(0), ELeaf(2)));
  }

  /** Identity `((1, 0), (0, 1))` over the history `(0, 0, 0)`: both sides
      grow at the same cost, and the right side grows. */
  lemma GrowTieGoesRight()
    ensures
      var i := Ids.IdNode(Ids.IdNode(Ids.IdLeaf(1), Ids.IdLeaf(0)), Ids.IdNode(Ids.IdLeaf(0), Ids.IdLeaf(1)));
      Stamps.Grow(i, ENode(0, ELeaf(0), ELeaf(0)))
        == Some((ENode(0, ELeaf(0), ENode(0, ELeaf(0), ELeaf(1))), 1 + 1 + Stamps.GrowIncrement))
  {
  }

}
