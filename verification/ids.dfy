/** The identity (ownership) tree of an Interval Tree Clock.  A leaf 1 owns
    its whole sub-interval, a leaf 0 owns nothing, and a node divides its
    sub-interval into a left and a right half.  `Split` hands out disjoint
    halves of an identity when a stamp forks, and `Sum` merges two disjoint
    identities when stamps join. */
module Ids {
  import opened Wrappers
  import opened Paths

  type Bit = b: nat | b <= 1

  datatype Id = IdLeaf(b: Bit) | IdNode(left: Id, right: Id)

  /** Whether identity `i` owns the point that path `p` reaches. */
  predicate Owns(i: Id, p: seq<bool>)
  {
    match i
    case IdLeaf(b) => b == 1
    case IdNode(l, r) => if GoesLeft(p) then Owns(l, Rest(p)) else Owns(r, Rest(p))
  }

  /** Two identities never own the same point. */
  ghost predicate Disjoint(a: Id, b: Id)
  {
    forall p :: !(Owns(a, p) && Owns(b, p))
  }

  /** Any non-zero value gives the identity owning everything, zero the one
      owning nothing. */
  function NewId(v: nat): (i: Id)
    ensures i.IdLeaf?
    ensures forall p :: Owns(i, p) <==> v != 0
  {
    if v != 0 then IdLeaf(1) else IdLeaf(0)
  }

  /** Canonical form: no node has two equal leaves as children. */
  predicate Normalized(i: Id)
  {
    match i
    case IdLeaf(_) => true
    case IdNode(l, r) =>
      && Normalized(l) && Normalized(r)
      && !(l == IdLeaf(0) && r == IdLeaf(0))
      && !(l == IdLeaf(1) && r == IdLeaf(1))
  }

  /** One level of normalisation: `(0, 0)` becomes 0, `(1, 1)` becomes 1,
      anything else is kept.  Ownership is unchanged, and a node with
      canonical children becomes canonical. */
  function Norm(i: Id): (r: Id)
    ensures forall p :: Owns(r, p) == Owns(i, p)
    ensures i.IdNode? && Normalized(i.left) && Normalized(i.right) ==> Normalized(r)
    ensures i.IdLeaf? ==> r == i
  {
    if i == IdNode(IdLeaf(0), IdLeaf(0)) then IdLeaf(0)
    else if i == IdNode(IdLeaf(1), IdLeaf(1)) then IdLeaf(1)
    else i
  }

  /** Splits an identity into two disjoint halves that together own what
      it owns.  0 splits into two zeros; 1 into its left and right halves;
      a node with a zero side splits the other side; any other node gives
      its left child to one half and its right child to the other.  The
      source dereferences a missing child in the last two cases
      (itc/Id.go:64, 75 and 78); `AsWritten.SplitAsWritten` models that. */
  function Split(i: Id): (r: (Id, Id))
  {
    match i
    case IdLeaf(0) => (IdLeaf(0), IdLeaf(0))
    case IdLeaf(1) => (IdNode(IdLeaf(1), IdLeaf(0)), IdNode(IdLeaf(0), IdLeaf(1)))
    case IdNode(l, r) =>
      if l == IdLeaf(0) then
        var (a, b) := Split(r);
        (IdNode(IdLeaf(0), a), IdNode(IdLeaf(0), b))
      else if r == IdLeaf(0) then
        var (a, b) := Split(l);
        (IdNode(a, IdLeaf(0)), IdNode(b, IdLeaf(0)))
      else
        (IdNode(l, IdLeaf(0)), IdNode(IdLeaf(0), r))
  }

  /** Merges two identities.  A zero operand gives the other one; two nodes
      are merged side by side and normalised.  Any other pair (two ones, or
      a one against a node) is not handled and fails, as does a merge whose
      sides fail. */
  function Sum(a: Id, b: Id): (r: Option<Id>)
  {
    if a == IdLeaf(0) then Some(b)
    else if b == IdLeaf(0) then Some(a)
    else if a.IdNode? && b.IdNode? then
      var l := Sum(a.left, b.left);
      var r := Sum(a.right, b.right);
      if l.Some? && r.Some? then Some(Norm(IdNode(l.value, r.value))) else None
    else None
  }

  // ---------------------------------------------------------------------
  // Normal form
  // ---------------------------------------------------------------------

  lemma NormOfNormalized(i: Id)
    requires Normalized(i)
    ensures Norm(i) == i
  {
  }

  lemma NormIdempotent(i: Id)
    ensures Norm(Norm(i)) == Norm(i)
  {
  }

  /** A canonical node owns some point and misses some point. */
  lemma {:induction false} NodeIsMixed(i: Id) returns (owned: seq<bool>, missed: seq<bool>)
    requires Normalized(i) && i.IdNode?
    ensures Owns(i, owned) && !Owns(i, missed)
  {
    var l, r := i.left, i.right;
    LeftPath([]);
    RightPath([]);
    if l.IdNode? {
      var o, m := NodeIsMixed(l);
      LeftPath(o);
      LeftPath(m);
      owned, missed := [false] + o, [false] + m;
    } else if r.IdNode? {
      var o, m := NodeIsMixed(r);
      RightPath(o);
      RightPath(m);
      owned, missed := [true] + o, [true] + m;
    } else if l.b == 1 {
      owned, missed := [false], [true];
      assert Owns(i, [false] + []);
    } else {
      owned, missed := [true], [false];
      assert Owns(i, [true] + []);
    }
  }

  // ---------------------------------------------------------------------
  // Split
  // ---------------------------------------------------------------------

  /** The two halves partition what the identity owns: every owned point is
      owned by exactly one half, and the halves own nothing else. */
  lemma {:induction false} SplitPartitions(i: Id, p: seq<bool>)
    ensures Owns(i, p) <==> Owns(Split(i).0, p) || Owns(Split(i).1, p)
    ensures !(Owns(Split(i).0, p) && Owns(Split(i).1, p))
  {
    match i
    case IdLeaf(_) =>
    case IdNode(l, r) =>
      if l == IdLeaf(0) {
        SplitPartitions(r, Rest(p));
      } else if r == IdLeaf(0) {
        SplitPartitions(l, Rest(p));
      }
  }

  lemma SplitDisjoint(i: Id)
    ensures Disjoint(Split(i).0, Split(i).1)
  {
    forall p
      ensures !(Owns(Split(i).0, p) && Owns(Split(i).1, p))
    {
      SplitPartitions(i, p);
    }
  }

  /** Splitting a canonical identity gives canonical halves, and splitting a
      non-zero one gives two non-zero halves. */
  lemma {:induction false} SplitNormalized(i: Id)
    requires Normalized(i)
    ensures Normalized(Split(i).0) && Normalized(Split(i).1)
    ensures i != IdLeaf(0) ==> Split(i).0 != IdLeaf(0) && Split(i).1 != IdLeaf(0)
  {
    match i
    case IdLeaf(_) =>
    case IdNode(l, r) =>
      if l == IdLeaf(0) {
        SplitNormalized(r);
      } else if r == IdLeaf(0) {
        SplitNormalized(l);
      }
  }

  // ---------------------------------------------------------------------
  // Sum
  // ---------------------------------------------------------------------

  /** A merge owns exactly what its operands own. */
  lemma {:induction false} SumUnion(a: Id, b: Id, p: seq<bool>)
    requires Sum(a, b).Some?
    ensures Owns(Sum(a, b).value, p) <==> Owns(a, p) || Owns(b, p)
  {
    if a != IdLeaf(0) && b != IdLeaf(0) {
      SumUnion(a.left, b.left, Rest(p));
      SumUnion(a.right, b.right, Rest(p));
    }
  }

  /** Only disjoint identities can be merged. */
  lemma {:induction false} SumDefinedDisjoint(a: Id, b: Id, p: seq<bool>)
    requires Sum(a, b).Some?
    ensures !(Owns(a, p) && Owns(b, p))
  {
    if a != IdLeaf(0) && b != IdLeaf(0) {
      if GoesLeft(p) {
        SumDefinedDisjoint(a.left, b.left, Rest(p));
      } else {
        SumDefinedDisjoint(a.right, b.right, Rest(p));
      }
    }
  }

  /** Canonical identities can be merged exactly when they are disjoint. */
  lemma {:induction false} SumDefined(a: Id, b: Id)
    requires Normalized(a) && Normalized(b)
    ensures Sum(a, b).Some? <==> Disjoint(a, b)
  {
    if Sum(a, b).Some? {
      forall p
        ensures !(Owns(a, p) && Owns(b, p))
      {
        SumDefinedDisjoint(a, b, p);
      }
    }
    if Disjoint(a, b) && a != IdLeaf(0) && b != IdLeaf(0) {
      if a == IdLeaf(1) {
        if b == IdLeaf(1) {
          assert Owns(a, []) && Owns(b, []);
        } else {
          var o, _ := NodeIsMixed(b);
          assert Owns(a, o) && Owns(b, o);
        }
      } else if b == IdLeaf(1) {
        var o, _ := NodeIsMixed(a);
        assert Owns(a, o) && Owns(b, o);
      } else {
        forall q
          ensures !(Owns(a.left, q) && Owns(b.left, q))
          ensures !(Owns(a.right, q) && Owns(b.right, q))
        {
          LeftPath(q);
          RightPath(q);
          assert !(Owns(a, [false] + q) && Owns(b, [false] + q));
          assert !(Owns(a, [true] + q) && Owns(b, [true] + q));
        }
        SumDefined(a.left, b.left);
        SumDefined(a.right, b.right);
      }
    }
  }

  /** Merging canonical identities gives a canonical identity. */
  lemma {:induction false} SumNormalized(a: Id, b: Id)
    requires Normalized(a) && Normalized(b) && Sum(a, b).Some?
    ensures Normalized(Sum(a, b).value)
  {
    if a != IdLeaf(0) && b != IdLeaf(0) {
      SumNormalized(a.left, b.left);
      SumNormalized(a.right, b.right);
    }
  }

  lemma {:induction false} SumCommutative(a: Id, b: Id)
    ensures Sum(a, b) == Sum(b, a)
  {
    if a.IdNode? && b.IdNode? {
      SumCommutative(a.left, b.left);
      SumCommutative(a.right, b.right);
    }
  }

  /** Merging the two halves of a canonical identity gives it back. */
  lemma {:induction false} SumSplit(i: Id)
    requires Normalized(i)
    ensures Sum(Split(i).0, Split(i).1) == Some(i)
  {
    match i
    case IdLeaf(_) =>
    case IdNode(l, r) =>
      if l == IdLeaf(0) {
        SumSplit(r);
        SplitNormalized(r);
      } else if r == IdLeaf(0) {
        SumSplit(l);
        SplitNormalized(l);
      }
  }

}
