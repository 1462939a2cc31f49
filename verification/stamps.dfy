/** Stamps: an identity paired with an event tree.  A stamp records an
    event by inflating its history where its identity owns the interval
    (`Advance`, built from `Fill` and `Grow`), hands out half of its
    identity to a new replica (`Fork`), and absorbs another replica's
    identity and history (`Join`). */
module Stamps {
  import opened Wrappers
  import opened Paths
  import opened Events
  import opened EventValues
  import opened EventOrder
  import Ids

  /** Cost added when `Grow` has to expand a leaf into a node, so that any
      growth inside the existing tree shape is preferred. */
  const GrowIncrement: nat := 1000

  datatype Stamp = Stamp(id: Ids.Id, event: Event)

  /** The initial stamp: owns the whole interval and has seen nothing. */
  function Seed(): (s: Stamp)
    ensures s.event.ELeaf? && s.id.IdLeaf?
    ensures forall p :: Ids.Owns(s.id, p) && Value(s.event, p) == 0
  {
    Stamp(Ids.NewId(1), NewEvent(0))
  }

  /** Stamps are ordered by their histories alone, by the event order.  The
      source repeats the event cases here and, between two nodes, compares
      the left child against the whole second history
      (itc/Stamp.go:34); `AsWritten.StampLeqAsWritten` models that. */
  predicate Leq(s1: Stamp, s2: Stamp)
  {
    Events.Leq(s1.event, s2.event)
  }

  /** Both new stamps keep the history; the identity is split in two. */
  function Fork(s: Stamp): (r: (Stamp, Stamp))
  {
    var (i1, i2) := Ids.Split(s.id);
    (Stamp(i1, s.event), Stamp(i2, s.event))
  }

  /** The merged identity with the joined history; fails when the
      identities cannot be merged. */
  function Join(s1: Stamp, s2: Stamp): (r: Option<Stamp>)
    ensures r.Some? ==> Normalized(r.value.event)
  {
    match Ids.Sum(s1.id, s2.id)
    case None => None
    case Some(i) => Some(Stamp(i, Events.Join(s1.event, s2.event)))
  }

  /** Normalises the node `(n, l, r)`.  Fails where the source's unsigned
      subtraction in `Sink` would wrap around, which can only happen when a
      child is not canonical. */
  function NormNode(n: nat, l: Event, r: Event): (res: Option<Event>)
    ensures res.Some? ==> Max(res.value) == Max(ENode(n, l, r))
  {
    var y := ENode(n, l, r);
    if CanNorm(y) then Some(Norm(y)) else None
  }

  /** `NormNode` keeps the history and succeeds on canonical children with
      a canonical result. */
  lemma NormNodeSpec(n: nat, l: Event, r: Event, p: seq<bool>)
    ensures NormNode(n, l, r).Some? ==> Value(NormNode(n, l, r).value, p) == Value(ENode(n, l, r), p)
    ensures Normalized(l) && Normalized(r) ==>
      NormNode(n, l, r).Some? && Normalized(NormNode(n, l, r).value)
  {
    var y := ENode(n, l, r);
    if CanNorm(y) {
      NormKeepsValue(y, p);
    }
    if Normalized(l) && Normalized(r) {
      NormCanonical(y);
    }
  }

  /** Raises the history, where the identity owns the interval, as far as
      it can go without exceeding the largest count already present:
      identity 0 changes nothing; identity 1 flattens the tree to its
      maximum; a leaf history is kept; a node identity with a side equal to
      1 fills the other side and raises the owned side to the larger of its
      own maximum and the filled side's minimum, then normalises; any other
      node identity fills both sides and normalises.  The source has no
      case for the last shape (itc/Stamp.go:128-130); `AsWritten.FillAsWritten`
      models it as written.  (The source tests the
      owned side by its value field alone; a node identity carries value 0
      there, so the test means "is the leaf 1".) */
  function Fill(i: Ids.Id, e: Event): (r: Option<Event>)
    decreases i
  {
    if i == Ids.IdLeaf(0) then Some(e)
    else if i == Ids.IdLeaf(1) then Some(ELeaf(Max(e)))
    else if i.IdLeaf? || e.ELeaf? then Some(e)
    else if i.left == Ids.IdLeaf(1) then
      match Fill(i.right, e.right)
      case None => None
      case Some(er) => NormNode(e.n, ELeaf(Larger(Max(e.left), Min(er))), er)
    else if i.right == Ids.IdLeaf(1) then
      match Fill(i.left, e.left)
      case None => None
      case Some(el) => NormNode(e.n, el, ELeaf(Larger(Max(e.right), Min(el))))
    else
      var fl, fr := Fill(i.left, e.left), Fill(i.right, e.right);
      if fl.Some? && fr.Some? then NormNode(e.n, fl.value, fr.value) else None
  }

  /** Inflates the history by one event at a point the identity owns,
      returning the new tree and a cost.  Identity 1 on a leaf increments
      it at cost 0.  A node identity on a leaf expands the leaf to
      `(n, 0, 0)` first, at cost `GrowIncrement`.  A node identity with a
      zero side grows the other side, at cost one more.  Otherwise both
      sides are tried and the cheaper one is kept, the right one on a tie;
      a side that cannot grow counts as cost 0.  Identity 0, and identity 1
      on a node, cannot grow.  Where the source would build a node around a
      side that could not grow (a nil child), the model fails. */
  function Grow(i: Ids.Id, e: Event): (r: Option<(Event, nat)>)
    decreases i, if e.ELeaf? then 1 else 0
  {
    if i == Ids.IdLeaf(1) && e.ELeaf? then
      Some((ELeaf(e.n + 1), 0))
    else if i.IdLeaf? then
      None
    else if e.ELeaf? then
      match Grow(i, Promote(e.n))
      case None => None
      case Some((g, c)) => Some((g, c + GrowIncrement))
    else if i.left == Ids.IdLeaf(0) then
      match Grow(i.right, e.right)
      case None => None
      case Some((g, c)) => Some((ENode(e.n, e.left, g), c + 1))
    else if i.right == Ids.IdLeaf(0) then
      match Grow(i.left, e.left)
      case None => None
      case Some((g, c)) => Some((ENode(e.n, g, e.right), c + 1))
    else
      Cheaper(e, Grow(i.left, e.left), Grow(i.right, e.right))
  }

  /** The last case of `Grow`: given what growing each side of the node
      `e` gave, keeps the cheaper growth, the right one on a tie.  A side
      that could not grow counts as cost 0; when it is the one chosen, the
      growth fails. */
  function Cheaper(e: Event, gl: Option<(Event, nat)>, gr: Option<(Event, nat)>): Option<(Event, nat)>
    requires e.ENode?
  {
    var cl := if gl.Some? then gl.value.1 else 0;
    var cr := if gr.Some? then gr.value.1 else 0;
    if cl < cr then
      (if gl.Some? then Some((ENode(e.n, gl.value.0, e.right), cl + 1)) else None)
    else
      (if gr.Some? then Some((ENode(e.n, e.left, gr.value.0), cr + 1)) else None)
  }

  /** Records one event: fills the history if that changes it, and grows
      it otherwise.  When `Fill` fails (its normalisation would wrap) the
      stamp grows.  The source returns the old stamp when filling changes
      the history (itc/Stamp.go:253-254); `AsWritten.AdvanceAsWritten`
      models that. */
  function Advance(s: Stamp): (r: Option<Stamp>)
    ensures r.Some? ==> r.value.id == s.id
  {
    var f := Fill(s.id, s.event);
    if f.Some? && f.value != s.event then
      Some(Stamp(s.id, f.value))
    else
      match Grow(s.id, s.event)
      case None => None
      case Some((g, _)) => Some(Stamp(s.id, g))
  }

  // ---------------------------------------------------------------------
  // Order, fork and join
  // ---------------------------------------------------------------------

  /** Against a stamp with a canonical history, the order is the pointwise
      order of histories. */
  lemma LeqHistories(s1: Stamp, s2: Stamp)
    requires Normalized(s2.event)
    ensures Leq(s1, s2) <==> forall p :: Value(s1.event, p) <= Value(s2.event, p)
  {
    LeqMeaning(s1.event, s2.event);
  }

  /** The two forked stamps keep the history and own disjoint parts that
      together make up the original identity. */
  lemma ForkPartitions(s: Stamp, p: seq<bool>)
    ensures Fork(s).0.event == s.event && Fork(s).1.event == s.event
    ensures Ids.Owns(s.id, p) <==> Ids.Owns(Fork(s).0.id, p) || Ids.Owns(Fork(s).1.id, p)
    ensures !(Ids.Owns(Fork(s).0.id, p) && Ids.Owns(Fork(s).1.id, p))
  {
    Ids.SplitPartitions(s.id, p);
  }

  /** Joining the two halves of a fork gives the stamp back. */
  lemma JoinFork(s: Stamp)
    requires Ids.Normalized(s.id) && Normalized(s.event)
    ensures Join(Fork(s).0, Fork(s).1) == Some(s)
  {
    Ids.SumSplit(s.id);
    JoinIdempotent(s.event);
  }

  /** A join is above both stamps and owns what both owned. */
  lemma JoinUpperBound(s1: Stamp, s2: Stamp, p: seq<bool>)
    requires Join(s1, s2).Some?
    ensures Leq(s1, Join(s1, s2).value) && Leq(s2, Join(s1, s2).value)
    ensures Ids.Owns(Join(s1, s2).value.id, p) <==> Ids.Owns(s1.id, p) || Ids.Owns(s2.id, p)
  {
    JoinUpper(s1.event, s2.event);
    Ids.SumUnion(s1.id, s2.id, p);
  }

  // ---------------------------------------------------------------------
  // Fill
  // ---------------------------------------------------------------------

  /** A fill never lowers a count and changes nothing outside the
      identity. */
  lemma {:induction false} FillValues(i: Ids.Id, e: Event, p: seq<bool>)
    requires Fill(i, e).Some?
    ensures Value(e, p) <= Value(Fill(i, e).value, p)
    ensures !Ids.Owns(i, p) ==> Value(Fill(i, e).value, p) == Value(e, p)
    decreases i
  {
    if i == Ids.IdLeaf(1) {
      ValueBounds(e, p);
    } else if i.IdNode? && e.ENode? && i.left == Ids.IdLeaf(1) {
      var er := Fill(i.right, e.right).value;
      var x := Larger(Max(e.left), Min(er));
      var y := ENode(e.n, ELeaf(x), er);
      if GoesLeft(p) {
        OwnedSideStep(i, e, y, x, p);
      } else {
        FillValues(i.right, e.right, Rest(p));
        FilledSideStep(i, i.right, e, y, e.right, er, p);
      }
      NormNodeSpec(e.n, ELeaf(x), er, p);
    } else if i.IdNode? && e.ENode? && i.right == Ids.IdLeaf(1) {
      var el := Fill(i.left, e.left).value;
      var x := Larger(Max(e.right), Min(el));
      var y := ENode(e.n, el, ELeaf(x));
      if GoesLeft(p) {
        FillValues(i.left, e.left, Rest(p));
        FilledSideStep(i, i.left, e, y, e.left, el, p);
      } else {
        OwnedSideStep(i, e, y, x, p);
      }
      NormNodeSpec(e.n, el, ELeaf(x), p);
    } else if i.IdNode? && e.ENode? {
      var el, er := Fill(i.left, e.left).value, Fill(i.right, e.right).value;
      var y := ENode(e.n, el, er);
      if GoesLeft(p) {
        FillValues(i.left, e.left, Rest(p));
        FilledSideStep(i, i.left, e, y, e.left, el, p);
      } else {
        FillValues(i.right, e.right, Rest(p));
        FilledSideStep(i, i.right, e, y, e.right, er, p);
      }
      NormNodeSpec(e.n, el, er, p);
    }
  }

  /** A step of `FillValues` at a point on the owned side of a node
      identity: the owned subtree `a` was replaced by the leaf `x`, which is
      at least its maximum, and the point is owned. */
  lemma OwnedSideStep(i: Ids.Id, e: Event, y: Event, x: nat, p: seq<bool>)
    requires i.IdNode? && e.ENode? && y.ENode? && y.n == e.n
    requires GoesLeft(p) ==> i.left == Ids.IdLeaf(1) && y.left == ELeaf(x) && Max(e.left) <= x
    requires !GoesLeft(p) ==> i.right == Ids.IdLeaf(1) && y.right == ELeaf(x) && Max(e.right) <= x
    ensures Ids.Owns(i, p) && Value(e, p) <= Value(y, p)
  {
    var a := if GoesLeft(p) then e.left else e.right;
    ValueBounds(a, Rest(p));
  }

  /** A step of `FillValues` at a point on the filled side of a node
      identity: the subtree there was filled from `a` to `b` under the
      identity `j` of that side. */
  lemma FilledSideStep(i: Ids.Id, j: Ids.Id, e: Event, y: Event, a: Event, b: Event, p: seq<bool>)
    requires i.IdNode? && e.ENode? && y.ENode? && y.n == e.n
    requires GoesLeft(p) ==> i.left == j && e.left == a && y.left == b
    requires !GoesLeft(p) ==> i.right == j && e.right == a && y.right == b
    requires Value(a, Rest(p)) <= Value(b, Rest(p))
    requires !Ids.Owns(j, Rest(p)) ==> Value(b, Rest(p)) == Value(a, Rest(p))
    ensures Value(e, p) <= Value(y, p)
    ensures !Ids.Owns(i, p) ==> Value(y, p) == Value(e, p)
  {
  }

  /** A fill keeps the largest count. */
  lemma {:induction false} FillKeepsMax(i: Ids.Id, e: Event)
    requires Fill(i, e).Some?
    ensures Max(Fill(i, e).value) == Max(e)
    decreases i
  {
    if i.IdNode? && e.ENode? && i.left == Ids.IdLeaf(1) {
      var er := Fill(i.right, e.right).value;
      FillKeepsMax(i.right, e.right);
      MinLeMax(er);
      var x := Larger(Max(e.left), Min(er));
      assert Fill(i, e) == NormNode(e.n, ELeaf(x), er);
      assert Max(ENode(e.n, ELeaf(x), er)) == e.n + Larger(x, Max(er));
    } else if i.IdNode? && e.ENode? && i.right == Ids.IdLeaf(1) {
      var el := Fill(i.left, e.left).value;
      FillKeepsMax(i.left, e.left);
      MinLeMax(el);
      var x := Larger(Max(e.right), Min(el));
      assert Fill(i, e) == NormNode(e.n, el, ELeaf(x));
      assert Max(ENode(e.n, el, ELeaf(x))) == e.n + Larger(Max(el), x);
    } else if i.IdNode? && e.ENode? {
      var el, er := Fill(i.left, e.left).value, Fill(i.right, e.right).value;
      FillKeepsMax(i.left, e.left);
      FillKeepsMax(i.right, e.right);
      assert Fill(i, e) == NormNode(e.n, el, er);
    }
  }

  /** Filling a canonical history succeeds and gives a canonical history. */
  lemma {:induction false} FillNormalized(i: Ids.Id, e: Event)
    requires Normalized(e)
    ensures Fill(i, e).Some? && Normalized(Fill(i, e).value)
    decreases i
  {
    if i.IdNode? && e.ENode? {
      if i.left == Ids.IdLeaf(1) {
        FillNormalized(i.right, e.right);
        var er := Fill(i.right, e.right).value;
        NormNodeSpec(e.n, ELeaf(Larger(Max(e.left), Min(er))), er, []);
      } else if i.right == Ids.IdLeaf(1) {
        FillNormalized(i.left, e.left);
        var el := Fill(i.left, e.left).value;
        NormNodeSpec(e.n, el, ELeaf(Larger(Max(e.right), Min(el))), []);
      } else {
        FillNormalized(i.left, e.left);
        FillNormalized(i.right, e.right);
        NormNodeSpec(e.n, Fill(i.left, e.left).value, Fill(i.right, e.right).value, []);
      }
    }
  }

  /** A normalisation that keeps the root of a node changed nothing below
      it. */
  lemma NormNodeFixed(n: nat, l: Event, r: Event, a: Event, b: Event)
    requires NormNode(n, l, r) == Some(ENode(n, a, b))
    ensures l == a && r == b
  {
  }

  /** Every part of the history that the identity owns outright is flat:
      there filling has nothing left to raise. */
  predicate Settled(i: Ids.Id, e: Event)
  {
    match i
    case IdLeaf(b) => b == 1 ==> e.ELeaf?
    case IdNode(l, r) => e.ELeaf? || (Settled(l, e.left) && Settled(r, e.right))
  }

  /** Every identity is settled over a leaf history. */
  lemma SettledLeaf(i: Ids.Id, n: nat)
    ensures Settled(i, ELeaf(n))
  {
  }

  /** A history that filling leaves unchanged is settled. */
  lemma {:induction false} FillFixedSettled(i: Ids.Id, e: Event)
    requires Fill(i, e) == Some(e)
    ensures Settled(i, e)
    decreases i
  {
    if i.IdNode? && e.ENode? {
      if i.left == Ids.IdLeaf(1) {
        var er := Fill(i.right, e.right).value;
        NormNodeFixed(e.n, ELeaf(Larger(Max(e.left), Min(er))), er, e.left, e.right);
        FillFixedSettled(i.right, e.right);
      } else if i.right == Ids.IdLeaf(1) {
        var el := Fill(i.left, e.left).value;
        NormNodeFixed(e.n, el, ELeaf(Larger(Max(e.right), Min(el))), e.left, e.right);
        FillFixedSettled(i.left, e.left);
      } else {
        NormNodeFixed(e.n, Fill(i.left, e.left).value, Fill(i.right, e.right).value, e.left, e.right);
        FillFixedSettled(i.left, e.left);
        FillFixedSettled(i.right, e.right);
      }
    }
  }

  // ---------------------------------------------------------------------
  // Grow
  // ---------------------------------------------------------------------

  /** In the case where both sides of a node are tried, whether `Grow`
      keeps the left side's growth. */
  predicate GrowsLeft(i: Ids.Id, e: Event)
    requires i.IdNode? && e.ENode?
  {
    var gl := Grow(i.left, e.left);
    var gr := Grow(i.right, e.right);
    (if gl.Some? then gl.value.1 else 0) < (if gr.Some? then gr.value.1 else 0)
  }

  /** Where both sides of a node identity are tried and both can grow, the
      left side grows exactly when it is strictly cheaper, so a tie grows
      the right side; the cost is one more than the chosen side's. */
  lemma GrowPicksCheaper(i: Ids.Id, e: Event, gl: Event, cl: nat, gr: Event, cr: nat)
    requires i.IdNode? && e.ENode? && i.left != Ids.IdLeaf(0) && i.right != Ids.IdLeaf(0)
    requires Grow(i.left, e.left) == Some((gl, cl)) && Grow(i.right, e.right) == Some((gr, cr))
    ensures cl < cr ==> Grow(i, e) == Some((ENode(e.n, gl, e.right), cl + 1))
    ensures cl >= cr ==> Grow(i, e) == Some((ENode(e.n, e.left, gr), cr + 1))
  {
    GrowLastCase(i, e);
    CheaperPicks(e, gl, cl, gr, cr);
  }

  /** A node identity with no zero side over a node history grows by the
      choice `Cheaper` makes. */
  lemma GrowLastCase(i: Ids.Id, e: Event)
    requires i.IdNode? && e.ENode? && i.left != Ids.IdLeaf(0) && i.right != Ids.IdLeaf(0)
    ensures Grow(i, e) == Cheaper(e, Grow(i.left, e.left), Grow(i.right, e.right))
  {
  }

  /** Between two sides that both grew, `Cheaper` keeps the strictly
      cheaper left one, and the right one otherwise. */
  lemma CheaperPicks(e: Event, gl: Event, cl: nat, gr: Event, cr: nat)
    requires e.ENode?
    ensures cl < cr ==> Cheaper(e, Some((gl, cl)), Some((gr, cr))) == Some((ENode(e.n, gl, e.right), cl + 1))
    ensures cl >= cr ==> Cheaper(e, Some((gl, cl)), Some((gr, cr))) == Some((ENode(e.n, e.left, gr), cr + 1))
  {
  }

  /** A canonical identity other than 0 can always grow a settled history. */
  lemma {:induction false} GrowDefined(i: Ids.Id, e: Event)
    requires Ids.Normalized(i) && i != Ids.IdLeaf(0) && Settled(i, e)
    ensures Grow(i, e).Some?
    decreases i, if e.ELeaf? then 1 else 0
  {
    if i.IdNode? && e.ELeaf? {
      SettledLeaf(i.left, 0);
      SettledLeaf(i.right, 0);
      GrowDefined(i, Promote(e.n));
    } else if i.IdNode? {
      if i.left == Ids.IdLeaf(0) {
        GrowDefined(i.right, e.right);
      } else if i.right == Ids.IdLeaf(0) {
        GrowDefined(i.left, e.left);
      } else {
        GrowDefined(i.left, e.left);
        GrowDefined(i.right, e.right);
      }
    }
  }

  /** Both sides of a fill fixed point are fill fixed points. */
  lemma FixedSides(i: Ids.Id, e: Event)
    requires i.IdNode? && e.ENode? && Fill(i, e) == Some(e)
    ensures Fill(i.left, e.left) == Some(e.left) && Fill(i.right, e.right) == Some(e.right)
  {
    if i.left == Ids.IdLeaf(1) {
      var er := Fill(i.right, e.right).value;
      NormNodeFixed(e.n, ELeaf(Larger(Max(e.left), Min(er))), er, e.left, e.right);
    } else if i.right == Ids.IdLeaf(1) {
      var el := Fill(i.left, e.left).value;
      NormNodeFixed(e.n, el, ELeaf(Larger(Max(e.right), Min(el))), e.left, e.right);
    } else {
      NormNodeFixed(e.n, Fill(i.left, e.left).value, Fill(i.right, e.right).value, e.left, e.right);
    }
  }

  /** At a fill fixed point over a canonical history, a side the identity
      owns outright is a leaf and the other side's root is 0: the leaf is
      already as high as the other side's minimum, its root. */
  lemma FixedOwnedSide(i: Ids.Id, e: Event)
    requires Normalized(e) && i.IdNode? && e.ENode? && Fill(i, e) == Some(e)
    ensures i.left == Ids.IdLeaf(1) ==> e.left.ELeaf? && e.right.n == 0
    ensures i.left != Ids.IdLeaf(1) && i.right == Ids.IdLeaf(1) ==> e.right.ELeaf? && e.left.n == 0
  {
    if i.left == Ids.IdLeaf(1) {
      var er := Fill(i.right, e.right).value;
      NormNodeFixed(e.n, ELeaf(Larger(Max(e.left), Min(er))), er, e.left, e.right);
      NormalizedRootIsMin(e.right);
    } else if i.right == Ids.IdLeaf(1) {
      var el := Fill(i.left, e.left).value;
      NormNodeFixed(e.n, el, ELeaf(Larger(Max(e.right), Min(el))), e.left, e.right);
      NormalizedRootIsMin(e.left);
    }
  }

  /** Growing a node history under a node identity keeps the root and
      grows exactly one side, under that side's identity. */
  lemma NodeGrowShape(i: Ids.Id, e: Event)
    requires i.IdNode? && e.ENode? && Grow(i, e).Some?
    ensures var g := Grow(i, e).value.0;
      || (Grow(i.left, e.left).Some? && g == ENode(e.n, Grow(i.left, e.left).value.0, e.right))
      || (Grow(i.right, e.right).Some? && g == ENode(e.n, e.left, Grow(i.right, e.right).value.0))
  {
    if i.left != Ids.IdLeaf(0) && i.right != Ids.IdLeaf(0) {
      GrowLastCase(i, e);
    }
  }

  /** Under a node identity, growth gives a node with the old root. */
  lemma GrowRoot(i: Ids.Id, e: Event)
    requires i.IdNode? && Grow(i, e).Some?
    ensures Grow(i, e).value.0.ENode? && Grow(i, e).value.0.n == e.n
  {
    if e.ELeaf? {
      NodeGrowShape(i, Promote(e.n));
    } else {
      NodeGrowShape(i, e);
    }
  }

  /** Growing a canonical history that filling leaves unchanged, under a
      canonical identity, gives a canonical history. */
  lemma {:induction false} GrowNormalized(i: Ids.Id, e: Event)
    requires Ids.Normalized(i) && Normalized(e) && Fill(i, e) == Some(e) && Grow(i, e).Some?
    ensures Normalized(Grow(i, e).value.0)
    decreases i, 1
  {
    if i.IdNode? && e.ELeaf? {
      var g := Grow(i, Promote(e.n));
      assert Grow(i, e).value.0 == g.value.0;
      NodeGrowShape(i, Promote(e.n));
      if Grow(i.left, ELeaf(0)).Some? && g.value.0 == ENode(e.n, Grow(i.left, ELeaf(0)).value.0, ELeaf(0)) {
        PromotedSideNormalized(i.left);
      } else {
        PromotedSideNormalized(i.right);
      }
    } else if i.IdNode? {
      var g := Grow(i, e).value.0;
      NodeGrowShape(i, e);
      FixedSides(i, e);
      FixedOwnedSide(i, e);
      if Grow(i.left, e.left).Some? && g == ENode(e.n, Grow(i.left, e.left).value.0, e.right) {
        if i.left != Ids.IdLeaf(1) {
          GrowNormalized(i.left, e.left);
          GrowRoot(i.left, e.left);
        }
      } else {
        if i.right != Ids.IdLeaf(1) {
          GrowNormalized(i.right, e.right);
          GrowRoot(i.right, e.right);
        }
      }
    }
  }

  /** A side of an expanded leaf `(n, 0, 0)` grows from 0 into a canonical
      tree other than the leaf 0. */
  lemma PromotedSideNormalized(j: Ids.Id)
    requires Ids.Normalized(j) && Grow(j, ELeaf(0)).Some?
    ensures Normalized(Grow(j, ELeaf(0)).value.0) && Grow(j, ELeaf(0)).value.0 != ELeaf(0)
    decreases j, 2
  {
    if j.IdNode? {
      GrowNormalized(j, ELeaf(0));
      GrowRoot(j, ELeaf(0));
    }
  }

  /** A grown history is strictly above the old one under the comparison,
      at every pending offset. */
  lemma {:induction false} GrowInflatesAt(i: Ids.Id, e: Event, o: nat)
    requires Grow(i, e).Some?
    ensures LeqAt(o, e, o, Grow(i, e).value.0)
    ensures !LeqAt(o, Grow(i, e).value.0, o, e)
    decreases i, if e.ELeaf? then 1 else 0
  {
    var g := Grow(i, e).value.0;
    if i == Ids.IdLeaf(1) && e.ELeaf? {
    } else if e.ELeaf? {
      GrowInflatesAt(i, Promote(e.n), o);
      LeqAtPromote(o, g, o, e.n);
    } else if i.left == Ids.IdLeaf(0) || (i.right != Ids.IdLeaf(0) && !GrowsLeft(i, e)) {
      var gr := Grow(i.right, e.right).value.0;
      assert g == ENode(e.n, e.left, gr);
      GrowInflatesAt(i.right, e.right, o + e.n);
      RightGrownStep(o, e, gr);
    } else {
      var gl := Grow(i.left, e.left).value.0;
      assert g == ENode(e.n, gl, e.right);
      GrowInflatesAt(i.left, e.left, o + e.n);
      LeftGrownStep(o, e, gl);
    }
  }

  /** Growing the left child strictly above itself grows the node. */
  lemma LeftGrownStep(o: nat, e: Event, gl: Event)
    requires e.ENode?
    requires LeqAt(o + e.n, e.left, o + e.n, gl) && !LeqAt(o + e.n, gl, o + e.n, e.left)
    ensures LeqAt(o, e, o, ENode(e.n, gl, e.right))
    ensures !LeqAt(o, ENode(e.n, gl, e.right), o, e)
  {
    LeqAtReflexive(o + e.n, e.right);
  }

  /** Growing the right child strictly above itself grows the node. */
  lemma RightGrownStep(o: nat, e: Event, gr: Event)
    requires e.ENode?
    requires LeqAt(o + e.n, e.right, o + e.n, gr) && !LeqAt(o + e.n, gr, o + e.n, e.right)
    ensures LeqAt(o, e, o, ENode(e.n, e.left, gr))
    ensures !LeqAt(o, ENode(e.n, e.left, gr), o, e)
  {
    LeqAtReflexive(o + e.n, e.left);
  }

  /** A grown history is strictly above the old one. */
  lemma GrowInflates(i: Ids.Id, e: Event)
    requires Grow(i, e).Some?
    ensures Events.Leq(e, Grow(i, e).value.0) && !Events.Leq(Grow(i, e).value.0, e)
  {
    GrowInflatesAt(i, e, 0);
  }

  /** Growth never lowers a count and changes nothing outside the
      identity. */
  lemma {:induction false} GrowValues(i: Ids.Id, e: Event, p: seq<bool>)
    requires Grow(i, e).Some?
    ensures Value(e, p) <= Value(Grow(i, e).value.0, p)
    ensures !Ids.Owns(i, p) ==> Value(Grow(i, e).value.0, p) == Value(e, p)
    decreases i, if e.ELeaf? then 1 else 0
  {
    var g := Grow(i, e).value.0;
    if i == Ids.IdLeaf(1) && e.ELeaf? {
    } else if e.ELeaf? {
      GrowValues(i, Promote(e.n), p);
    } else if i.left == Ids.IdLeaf(0) {
      GrowValues(i.right, e.right, Rest(p));
    } else if i.right == Ids.IdLeaf(0) {
      GrowValues(i.left, e.left, Rest(p));
    } else if GrowsLeft(i, e) {
      GrowValues(i.left, e.left, Rest(p));
    } else {
      GrowValues(i.right, e.right, Rest(p));
    }
  }

  /** Growth raises some point the identity owns. */
  lemma {:induction false} GrowWitness(i: Ids.Id, e: Event) returns (p: seq<bool>)
    requires Grow(i, e).Some?
    ensures Ids.Owns(i, p) && Value(e, p) < Value(Grow(i, e).value.0, p)
    decreases i, if e.ELeaf? then 1 else 0
  {
    var g := Grow(i, e).value.0;
    if i == Ids.IdLeaf(1) && e.ELeaf? {
      p := [];
    } else if e.ELeaf? {
      p := GrowWitness(i, Promote(e.n));
    } else if i.left == Ids.IdLeaf(0) || (i.right != Ids.IdLeaf(0) && !GrowsLeft(i, e)) {
      var q := GrowWitness(i.right, e.right);
      RightPath(q);
      p := [true] + q;
    } else {
      var q := GrowWitness(i.left, e.left);
      LeftPath(q);
      p := [false] + q;
    }
  }

  /** Two trees with the same nodes in the same places. */
  predicate SameShape(a: Event, b: Event)
  {
    match a
    case ELeaf(_) => b.ELeaf?
    case ENode(_, l, r) => b.ENode? && SameShape(l, b.left) && SameShape(r, b.right)
  }

  /** Growth that costs less than `GrowIncrement` expanded no leaf. */
  lemma {:induction false} GrowCheapKeepsShape(i: Ids.Id, e: Event)
    requires Grow(i, e).Some? && Grow(i, e).value.1 < GrowIncrement
    ensures SameShape(e, Grow(i, e).value.0)
    decreases i, if e.ELeaf? then 1 else 0
  {
    var (g, c) := Grow(i, e).value;
    if i == Ids.IdLeaf(1) && e.ELeaf? {
    } else if e.ELeaf? {
      assert false;
    } else if i.left == Ids.IdLeaf(0) {
      GrowCheapKeepsShape(i.right, e.right);
      SameShapeReflexive(e.left);
    } else if i.right == Ids.IdLeaf(0) {
      GrowCheapKeepsShape(i.left, e.left);
      SameShapeReflexive(e.right);
    } else if GrowsLeft(i, e) {
      GrowCheapKeepsShape(i.left, e.left);
      SameShapeReflexive(e.right);
    } else {
      GrowCheapKeepsShape(i.right, e.right);
      SameShapeReflexive(e.left);
    }
  }

  lemma SameShapeReflexive(e: Event)
    ensures SameShape(e, e)
  {
  }

  // ---------------------------------------------------------------------
  // Advance
  // ---------------------------------------------------------------------

  /** From a canonical history, advancing gives a strictly later stamp with
      the same identity. */
  lemma AdvanceInflates(s: Stamp)
    requires Normalized(s.event) && Advance(s).Some?
    ensures Advance(s).value.id == s.id
    ensures Leq(s, Advance(s).value) && !Leq(Advance(s).value, s)
  {
    var t := Advance(s).value;
    var f := Fill(s.id, s.event);
    if f.Some? && f.value != s.event {
      FillNormalized(s.id, s.event);
      forall p
        ensures Value(s.event, p) <= Value(f.value, p)
      {
        FillValues(s.id, s.event, p);
      }
      LeqMeaning(s.event, f.value);
      if Events.Leq(f.value, s.event) {
        LeqAntisymmetric(s.event, f.value);
      }
    } else {
      GrowInflates(s.id, s.event);
    }
  }

  /** Over a canonical identity and history, a stamp can advance exactly
      when its identity is not 0, and then it moves strictly later. */
  lemma AdvanceDefined(s: Stamp)
    requires Ids.Normalized(s.id) && Normalized(s.event)
    ensures Advance(s).Some? <==> s.id != Ids.IdLeaf(0)
    ensures Advance(s).Some? ==> Leq(s, Advance(s).value) && !Leq(Advance(s).value, s)
  {
    FillNormalized(s.id, s.event);
    if s.id != Ids.IdLeaf(0) {
      if Fill(s.id, s.event).value == s.event {
        FillFixedSettled(s.id, s.event);
        GrowDefined(s.id, s.event);
      }
      AdvanceInflates(s);
    }
  }

  /** Advancing a stamp with a canonical identity and history gives a
      canonical history. */
  lemma AdvanceNormalized(s: Stamp)
    requires Ids.Normalized(s.id) && Normalized(s.event) && Advance(s).Some?
    ensures Normalized(Advance(s).value.event)
  {
    FillNormalized(s.id, s.event);
    if Fill(s.id, s.event).value == s.event {
      GrowNormalized(s.id, s.event);
    }
  }

  /** A stamp whose identity and history are both canonical. */
  predicate Canonical(s: Stamp)
  {
    Ids.Normalized(s.id) && Normalized(s.event)
  }

  /** The seed is canonical, and forking, joining and advancing keep
      stamps canonical: the clock only ever produces canonical stamps. */
  lemma CanonicalClosed(s1: Stamp, s2: Stamp)
    ensures Canonical(Seed())
    ensures Canonical(s1) ==> Canonical(Fork(s1).0) && Canonical(Fork(s1).1)
    ensures Canonical(s1) && Canonical(s2) && Join(s1, s2).Some? ==> Canonical(Join(s1, s2).value)
    ensures Canonical(s1) && Advance(s1).Some? ==> Canonical(Advance(s1).value)
  {
    if Canonical(s1) {
      Ids.SplitNormalized(s1.id);
      if Advance(s1).Some? {
        AdvanceNormalized(s1);
      }
      if Canonical(s2) && Join(s1, s2).Some? {
        Ids.SumNormalized(s1.id, s2.id);
      }
    }
  }

  /** Advancing never lowers a count and changes nothing outside the
      stamp's identity. */
  lemma AdvanceValues(s: Stamp, p: seq<bool>)
    requires Advance(s).Some?
    ensures Value(s.event, p) <= Value(Advance(s).value.event, p)
    ensures !Ids.Owns(s.id, p) ==> Value(Advance(s).value.event, p) == Value(s.event, p)
  {
    var f := Fill(s.id, s.event);
    if f.Some? && f.value != s.event {
      FillValues(s.id, s.event, p);
    } else {
      GrowValues(s.id, s.event, p);
    }
  }

}
