/** Five operations modelled as the source writes them, next to the
    corrected definitions the rest of the model uses, with the inputs on
    which the two differ.  A run that would recurse without end or
    dereference a nil pointer is `None`. */
module AsWritten {
  import opened Wrappers
  import opened Events
  import opened EventOrder
  import Ids
  import Stamps

  /** Go's short-circuit `x && y` over outcomes that may fail: `y` is only
      reached when `x` is true. */
  function Both(x: Option<bool>, y: Option<bool>): (r: Option<bool>)
    ensures r == Some(true) <==> x == Some(true) && y == Some(true)
    ensures x == Some(false) ==> r == Some(false)
  {
    match x
    case None => None
    case Some(false) => Some(false)
    case Some(true) => y
  }

  // ---------------------------------------------------------------------
  // Event comparison
  // ---------------------------------------------------------------------

  /** The event comparison as written.  A node against a leaf lifts the
      whole node by its own root instead of its left child, so the call
      repeats on a node with a doubled root (forever when the root is 0);
      two nodes are never comparable. */
  function EventLeqAsWritten(e1: Event, e2: Event): (r: Option<bool>)
    decreases Height(e1), if e1.n <= e2.n then e2.n - e1.n + 1 else 0
  {
    if e1.ELeaf? then
      Some(e1.n <= e2.n)
    else if e2.ELeaf? then
      if !(e1.n <= e2.n) then Some(false)
      else if e1.n == 0 then None
      else Both(EventLeqAsWritten(Lift(e1, e1.n), e2),
                EventLeqAsWritten(Lift(e1.right, e1.n), e2))
    else
      Some(false)
  }

  /** As written, a leaf on the left is compared correctly, and a node on
      the left is never below anything: the comparison either fails to
      terminate (root 0 against a leaf) or answers false. */
  lemma {:induction false} EventLeqAsWrittenOutcome(e1: Event, e2: Event)
    ensures e1.ELeaf? ==> EventLeqAsWritten(e1, e2) == Some(Events.Leq(e1, e2))
    ensures e1.ENode? ==>
      EventLeqAsWritten(e1, e2) == if e2.ELeaf? && e1.n == 0 then None else Some(false)
    decreases Height(e1), if e1.n <= e2.n then e2.n - e1.n + 1 else 0
  {
    if e1.ENode? && e2.ELeaf? && e1.n <= e2.n && e1.n != 0 {
      EventLeqAsWrittenOutcome(Lift(e1, e1.n), e2);
    }
  }

  /** A node below a leaf: accepted by the corrected order, refused as
      written. */
  lemma NodeBelowLeafCounterexample()
    ensures Events.Leq(ENode(1, ELeaf(0), ELeaf(1)), ELeaf(5))
    ensures EventLeqAsWritten(ENode(1, ELeaf(0), ELeaf(1)), ELeaf(5)) == Some(false)
  {
    EventLeqAsWrittenOutcome(ENode(1, ELeaf(0), ELeaf(1)), ELeaf(5));
  }

  /** A node with root 0 below a leaf: as written the comparison calls
      itself on the same arguments without end. */
  lemma ZeroRootCounterexample()
    ensures Events.Leq(ENode(0, ELeaf(0), ELeaf(1)), ELeaf(5))
    ensures EventLeqAsWritten(ENode(0, ELeaf(0), ELeaf(1)), ELeaf(5)) == None
  {
  }

  /** A node is below itself in the corrected order, and not as written. */
  lemma NodeSelfCounterexample()
    ensures Events.Leq(ENode(0, ELeaf(1), ELeaf(0)), ENode(0, ELeaf(1), ELeaf(0)))
    ensures EventLeqAsWritten(ENode(0, ELeaf(1), ELeaf(0)), ENode(0, ELeaf(1), ELeaf(0))) == Some(false)
  {
    LeqReflexive(ENode(0, ELeaf(1), ELeaf(0)));
  }

  // ---------------------------------------------------------------------
  // Stamp comparison
  // ---------------------------------------------------------------------

  /** The stamp comparison as written.  It delegates to the event
      comparison as written, and between two nodes it compares the lifted
      left child with the whole second history lifted by its own root,
      where the rule it documents names the second history's left child. */
  function StampLeqAsWritten(s1: Stamps.Stamp, s2: Stamps.Stamp): (r: Option<bool>)
    ensures s1.event.ELeaf? ==> r == Some(Stamps.Leq(s1, s2))
  {
    var e1, e2 := s1.event, s2.event;
    if e1.ELeaf? then
      Some(e1.n <= e2.n)
    else if e2.ELeaf? then
      Both(Both(Some(e1.n <= e2.n), EventLeqAsWritten(Lift(e1.left, e1.n), e2)),
           EventLeqAsWritten(Lift(e1.right, e1.n), e2))
    else
      Both(Both(Some(e1.n <= e2.n), EventLeqAsWritten(Lift(e1.left, e1.n), Lift(e2, e2.n))),
           EventLeqAsWritten(Lift(e1.right, e1.n), Lift(e2.right, e2.n)))
  }

  /** A stamp whose history has leaf children is not below itself as
      written; only the left child's comparison is at fault, since both
      children are leaves. */
  lemma StampLeqCounterexample()
    ensures var s := Stamps.Stamp(Ids.IdLeaf(1), ENode(0, ELeaf(1), ELeaf(0)));
      Stamps.Leq(s, s) && StampLeqAsWritten(s, s) == Some(false)
  {
    LeqReflexive(ENode(0, ELeaf(1), ELeaf(0)));
  }

  // ---------------------------------------------------------------------
  // Identity split
  // ---------------------------------------------------------------------

  /** The identity split as written.  The two results start as empty nodes
      with no children, and the cases `(i, 0)` and `(i1, i2)` assign into a
      child of one of them, a nil dereference. */
  function SplitAsWritten(i: Ids.Id): (r: Option<(Ids.Id, Ids.Id)>)
    ensures r.Some? ==> r.value == Ids.Split(i)
  {
    match i
    case IdLeaf(0) => Some((Ids.IdLeaf(0), Ids.IdLeaf(0)))
    case IdLeaf(1) => Some(Ids.Split(i))
    case IdNode(l, r) =>
      if l == Ids.IdLeaf(0) then
        match SplitAsWritten(r)
        case None => None
        case Some((a, b)) => Some((Ids.IdNode(Ids.IdLeaf(0), a), Ids.IdNode(Ids.IdLeaf(0), b)))
      else
        None
  }

  /** As written, splitting fails exactly on the identities whose path of
      zero left sides ends in a node. */
  lemma {:induction false} SplitAsWrittenFails(i: Ids.Id)
    ensures SplitAsWritten(i).None? <==> FailsToSplit(i)
  {
    if i.IdNode? && i.left == Ids.IdLeaf(0) {
      SplitAsWrittenFails(i.right);
    }
  }

  /** The identities the written split cannot handle: after any number of
      `(0, _)` levels, a node whose left side is not 0. */
  predicate FailsToSplit(i: Ids.Id)
  {
    i.IdNode? && (i.left == Ids.IdLeaf(0) ==> FailsToSplit(i.right))
  }

  /** The identity `(1, 0)`, the left half of a split seed, cannot be split
      again as written; the corrected split gives `((1, 0), 0)` and
      `((0, 1), 0)`, which merge back. */
  lemma SplitCounterexample()
    ensures SplitAsWritten(Ids.IdNode(Ids.IdLeaf(1), Ids.IdLeaf(0))) == None
    ensures Ids.Split(Ids.IdNode(Ids.IdLeaf(1), Ids.IdLeaf(0)))
      == (Ids.IdNode(Ids.IdNode(Ids.IdLeaf(1), Ids.IdLeaf(0)), Ids.IdLeaf(0)),
          Ids.IdNode(Ids.IdNode(Ids.IdLeaf(0), Ids.IdLeaf(1)), Ids.IdLeaf(0)))
  {
  }

  // ---------------------------------------------------------------------
  // Fill
  // ---------------------------------------------------------------------

  /** What the written fill does: returns a history, returns nil, or gets
      stuck (dereferences a nil pointer, or normalises where the corrected
      model's `NormNode` fails). */
  datatype FillOutcome = Filled(e: Event) | Nil | Stuck

  /** The fill as written.  A node identity with neither side equal to 1
      matches none of its cases, and it returns nil.  At the root that nil
      reaches `Advance`; below the root the caller takes the nil result's
      minimum or maximum and gets stuck. */
  function FillAsWritten(i: Ids.Id, e: Event): (r: FillOutcome)
    ensures r.Filled? ==> Stamps.Fill(i, e) == Some(r.e)
    decreases i
  {
    if i == Ids.IdLeaf(0) then Filled(e)
    else if i == Ids.IdLeaf(1) then Filled(ELeaf(Max(e)))
    else if i.IdLeaf? || e.ELeaf? then Filled(e)
    else if i.left == Ids.IdLeaf(1) then
      match FillAsWritten(i.right, e.right)
      case Filled(er) =>
        (match Stamps.NormNode(e.n, ELeaf(Larger(Max(e.left), Min(er))), er)
         case Some(f) => Filled(f)
         case None => Stuck)
      case _ => Stuck
    else if i.right == Ids.IdLeaf(1) then
      match FillAsWritten(i.left, e.left)
      case Filled(el) =>
        (match Stamps.NormNode(e.n, el, ELeaf(Larger(Max(e.right), Min(el))))
         case Some(f) => Filled(f)
         case None => Stuck)
      case _ => Stuck
    else
      Nil
  }

  /** As written, fill returns nil exactly on a node identity with neither
      side equal to 1 over a node history, where the corrected fill goes on
      into both sides. */
  lemma FillNilShape(i: Ids.Id, e: Event)
    ensures FillAsWritten(i, e) == Nil
      <==> i.IdNode? && e.ENode? && i.left != Ids.IdLeaf(1) && i.right != Ids.IdLeaf(1)
  {
  }

  /** The identity `((0, (1, 0)), 1)`, which a seed reaches by three splits
      and one join, over a canonical history.  As written, advancing gets
      stuck: the left side needs the missing fill case.  Corrected, the
      stamp advances to a strictly later one. */
  lemma FillCounterexample()
    ensures
      var i := Ids.IdNode(Ids.IdNode(Ids.IdLeaf(0), Ids.IdNode(Ids.IdLeaf(1), Ids.IdLeaf(0))), Ids.IdLeaf(1));
      var s := Stamps.Stamp(i, ENode(0, ENode(0, ELeaf(0), ELeaf(1)), ENode(0, ELeaf(1), ELeaf(0))));
      && Ids.Normalized(i) && Normalized(s.event)
      && AdvanceAsWritten(s) == None
      && Stamps.Advance(s).Some?
      && Stamps.Leq(s, Stamps.Advance(s).value) && !Stamps.Leq(Stamps.Advance(s).value, s)
  {
    var i := Ids.IdNode(Ids.IdNode(Ids.IdLeaf(0), Ids.IdNode(Ids.IdLeaf(1), Ids.IdLeaf(0))), Ids.IdLeaf(1));
    var s := Stamps.Stamp(i, ENode(0, ENode(0, ELeaf(0), ELeaf(1)), ENode(0, ELeaf(1), ELeaf(0))));
    assert FillAsWritten(i.left, s.event.left) == Nil;
    Stamps.AdvanceDefined(s);
  }

  /** The identity `(0, (1, 0))`, which the written split gives from the
      right half of a split seed.  As written, its first advance grows the
      flat history 0, and every later advance returns the stamp unchanged,
      since fill returns nil at the root.  Corrected, the second advance
      moves the stamp strictly later. */
  lemma FillStallCounterexample()
    ensures
      var i := Ids.IdNode(Ids.IdLeaf(0), Ids.IdNode(Ids.IdLeaf(1), Ids.IdLeaf(0)));
      var t := Stamps.Stamp(i, ENode(0, ELeaf(0), ENode(0, ELeaf(1), ELeaf(0))));
      && SplitAsWritten(Ids.IdNode(Ids.IdLeaf(0), Ids.IdLeaf(1)))
           == Some((i, Ids.IdNode(Ids.IdLeaf(0), Ids.IdNode(Ids.IdLeaf(0), Ids.IdLeaf(1)))))
      && AdvanceAsWritten(Stamps.Stamp(i, ELeaf(0))) == Some(t)
      && AdvanceAsWritten(t) == Some(t)
      && Stamps.Advance(t).Some?
      && Stamps.Leq(t, Stamps.Advance(t).value) && !Stamps.Leq(Stamps.Advance(t).value, t)
  {
    Stamps.AdvanceDefined(Stamps.Stamp(Ids.IdNode(Ids.IdLeaf(0), Ids.IdNode(Ids.IdLeaf(1), Ids.IdLeaf(0))),
                                       ENode(0, ELeaf(0), ENode(0, ELeaf(1), ELeaf(0)))));
  }

  /** The identity of `FillCounterexample` is where three splits of the
      seed and one join lead, under the corrected split. */
  lemma FillCounterexampleReachable()
    ensures
      var (a, b) := Ids.Split(Ids.IdLeaf(1));
      var c := Ids.Split(Ids.Split(a).1).0;
      Ids.Sum(c, b) == Some(Ids.IdNode(Ids.IdNode(Ids.IdLeaf(0), Ids.IdNode(Ids.IdLeaf(1), Ids.IdLeaf(0))), Ids.IdLeaf(1)))
  {
  }

  // ---------------------------------------------------------------------
  // Advance
  // ---------------------------------------------------------------------

  /** Advance as written: when filling changes the history, or the fill
      returns nil, the stamp is returned unchanged rather than with the
      filled history; when the fill gets stuck, so does advancing. */
  function AdvanceAsWritten(s: Stamps.Stamp): (r: Option<Stamps.Stamp>)
    ensures r.Some? ==> r.value.id == s.id
  {
    match FillAsWritten(s.id, s.event)
    case Stuck => None
    case Nil => Some(s)
    case Filled(f) =>
      if f != s.event then
        Some(s)
      else
        match Stamps.Grow(s.id, s.event)
        case None => None
        case Some((g, _)) => Some(Stamps.Stamp(s.id, g))
  }

  /** As written, whenever filling would change the history, advancing
      records no event at all. */
  lemma AdvanceAsWrittenStalls(s: Stamps.Stamp)
    requires FillAsWritten(s.id, s.event).Filled? && FillAsWritten(s.id, s.event).e != s.event
    ensures AdvanceAsWritten(s) == Some(s)
    ensures Stamps.Advance(s).Some? && Stamps.Advance(s).value != s
  {
  }

  /** The seed identity over a history with a raised left side: as written
      the stamp does not move; corrected, it fills to the flat history 1,
      which is strictly later. */
  lemma AdvanceCounterexample()
    ensures var s := Stamps.Stamp(Ids.IdLeaf(1), ENode(0, ELeaf(1), ELeaf(0)));
      && AdvanceAsWritten(s) == Some(s)
      && Stamps.Advance(s) == Some(Stamps.Stamp(Ids.IdLeaf(1), ELeaf(1)))
      && Stamps.Leq(s, Stamps.Advance(s).value) && !Stamps.Leq(Stamps.Advance(s).value, s)
  {
  }

}
