# Interval Tree Clocks in Dafny

A model of the go-itc implementation of Interval Tree Clocks (Almeida,
Baquero and Fonte, 2008). It covers its three algebras, with proofs.

- **Events** (`itc/Event.go`). An event tree is a history. A leaf holds a
  count. A node holds an offset that is added to every count beneath it.
  The operations are `Norm`, `Lift`, `Sink`, `Min`, `Max`, the partial
  order `Leq` and the least upper bound `Join`.
- **Identities** (`itc/Id.go`). An id tree holds 0/1 leaves that say which
  parts of the unit interval a replica owns. `Split` runs when a stamp
  forks, `Sum` runs when stamps join, and `Norm` collapses `(0, 0)` and
  `(1, 1)`.
- **Stamps** (`itc/Stamp.go`). A stamp pairs an identity with a history.
  The operations are the seed, the order, `Fork`, `Join`, and `Advance`.
  `Advance` is built from `Fill`, which raises owned parts up to the
  largest count already present, and `Grow`, which adds one event where
  it is cheapest, measured in `GrowIncrement` units.

The model works on immutable datatypes and pure functions:

- `paths.dfy` (`Paths`): points of the unit interval, as paths into a tree.
- `events.dfy` (`Events`): event trees and their operations.
- `event_values.dfy` (`EventValues`): the meaning of a tree. `Value(e, p)`
  is the count at point `p`. It gives the order and the join their
  semantics: the pointwise order and the pointwise maximum.
- `event_order.dfy` (`EventOrder`): the source's case equations, and the
  semilattice laws.
- `ids.dfy` (`Ids`): identity trees. `Owns(i, p)` says whether `i` owns
  point `p`.
- `stamps.dfy` (`Stamps`): stamps, fill, grow and advance.
- `findings.dfy` (`AsWritten`): five operations as the source writes them,
  with the inputs on which they go wrong.
- `scenarios.dfy` (`Scenarios`): the concrete runs from the repository's
  tests.

Counters are unbounded naturals. The source's `uint32` can underflow in
two places: `Sink` takes the underflow as a precondition, and `Norm` takes
it as a definedness condition (`CanNorm`). Its additions can overflow
(itc/Event.go:30 and 48, itc/Stamp.go:141 and 167); that is not modelled. Operations the source leaves undefined
return `None`: it returns nil for them, or dereferences nil, or recurses
forever.

`Leq` and `Join` recurse on subtrees that the source lifts first. The model
keeps those lifts pending as two offsets (`LeqAt`, `JoinAt`).
`EventOrder.LeqCases` and `EventOrder.JoinCases` prove that the public
operations satisfy the source's equations, lifts included.

## Model

| member | source | states |
|---|---|---|
| Events.NewEvent | itc/Event.go:229-236 | a fresh history records the given count at every point |
| Events.Lift | itc/Event.go:44-51 | raises the root by m and keeps the shape, the children and the height |
| Events.LiftShifts | itc/Event.go:44-51 | lifting by m raises every point's count, the minimum and the maximum by m |
| Events.Sink | itc/Event.go:54-61 | lowering by m, allowed only when m is at most the root, is undone by lifting by m |
| Events.MinOf | itc/Event.go:201-209 | the two-tree minimum is one of the two minima and at most both |
| Events.MaxOf | itc/Event.go:191-199 | the two-tree maximum is one of the two maxima and at least both |
| Events.MinLeMax | itc/Event.go:64-87 | a tree's minimum never exceeds its maximum |
| EventValues.ValueBounds | itc/Event.go:64-87 | every point's count lies between the tree's Min and Max |
| EventValues.MinWitness | itc/Event.go:64-74 | some point's count equals Min, so Min is the least count |
| EventValues.MaxWitness | itc/Event.go:77-87 | some point's count equals Max, so Max is the largest count |
| Events.Min | itc/Event.go:64-74 | the minimum is at least the root; see EventValues.MinWitness for what it means |
| Events.Max | itc/Event.go:77-87 | the maximum is at least the root; see EventValues.MaxWitness for what it means |
| Events.Norm | itc/Event.go:9-41 | keeps a leaf; the new root is the tree's minimum; Min and Max are unchanged; a node with canonical children becomes canonical |
| Events.NormKeepsValue | itc/Event.go:9-41 | normalising never changes the count at any point |
| Events.NormCanonical | itc/Event.go:25-38 | with canonical children, hoisting the minimum cannot underflow and gives a canonical tree |
| Events.NormOfNormalized | itc/Event.go:9-41 | a canonical tree is a fixed point of Norm |
| Events.NormalizedRootIsMin | itc/Event.go:25-38 | in canonical form the root is the tree's minimum |
| EventValues.CanonicalUnique | itc/Event.go:9-41 | two canonical trees with the same count at every point are the same tree |
| EventValues.LeqMeaning | itc/Event.go:90-107 | against a canonical tree, Leq holds exactly when every point's count is at most the other's |
| Events.LeqAt | itc/Event.go:90-107 | no contract of its own; see EventValues.LeqAtMeaning and EventOrder.LeqCases |
| Events.Leq | itc/Event.go:90-107 | no contract of its own; see EventValues.LeqMeaning and EventOrder.LeqCases |
| EventOrder.LeqCases | itc/Event.go:90-107 | Leq satisfies the leaf/leaf, leaf/node and node/leaf equations and the documented node/node rule, with the lifts |
| EventOrder.LeqLeaf | itc/Event.go:101-104 | a tree is below the leaf n exactly when its maximum is at most n |
| EventOrder.LeqReflexive | itc/Event.go:90-107 | every tree is below itself |
| EventOrder.LeqTransitive | itc/Event.go:90-107 | the order is transitive over canonical trees |
| EventOrder.LeqAntisymmetric | itc/Event.go:90-107 | two canonical trees below each other are equal |
| Events.Join | itc/Event.go:110-177 | the join is always canonical |
| Events.JoinAt | itc/Event.go:110-177 | the join with pending offsets is canonical, and its root is its minimum; see EventOrder.JoinAtLift |
| Events.Promote | itc/Event.go:140-152 | the node `(n, 0, 0)` a leaf is rewritten as has the leaf's count n at every point |
| EventValues.JoinValue | itc/Event.go:110-177 | the join's count at each point is the larger of the two counts there |
| EventOrder.JoinCases | itc/Event.go:110-177 | Join satisfies the five source equations: leaves, both promotions, the swap, and the normalised node case with the lifted second operand |
| EventOrder.JoinUpper | itc/Event.go:110-177 | the join is above both operands |
| EventOrder.JoinLeast | itc/Event.go:110-177 | the join is below every canonical common upper bound |
| EventOrder.LeqIffJoin | itc/Event.go:110-177 | against a canonical tree, a is below b exactly when joining a into b gives b |
| EventOrder.JoinCommutative | itc/Event.go:110-177 | the order of the operands does not matter |
| EventOrder.JoinAssociative | itc/Event.go:110-177 | the grouping of the operands does not matter |
| EventOrder.JoinIdempotent | itc/Event.go:110-177 | joining a canonical tree with itself gives it back |
| Ids.NewId | itc/Id.go:181-195 | a non-zero argument gives the leaf owning every point; zero gives the leaf owning none |
| Ids.Norm | itc/Id.go:126-152 | ownership is unchanged; a node with canonical children becomes canonical; a leaf is kept |
| Ids.NodeIsMixed | itc/Id.go:126-152 | a canonical node owns some point and misses another |
| Ids.Split | itc/Id.go:10-87 | no contract of its own; see Ids.SplitPartitions, Ids.SplitDisjoint and Ids.SumSplit |
| Ids.SplitPartitions | itc/Id.go:10-87 | a point is owned exactly when one of the two halves owns it, and never by both |
| Ids.SplitDisjoint | itc/Id.go:10-87 | the two halves never own the same point |
| Ids.SplitNormalized | itc/Id.go:10-87 | canonical input gives canonical halves, and a non-zero identity gives two non-zero halves |
| Ids.SumUnion | itc/Id.go:90-123 | a merge owns exactly what either operand owns |
| Ids.SumDefinedDisjoint | itc/Id.go:90-123 | only identities that never own the same point can be merged |
| Ids.SumDefined | itc/Id.go:90-123 | canonical identities can be merged exactly when they are disjoint |
| Ids.SumNormalized | itc/Id.go:90-123 | merging canonical identities gives a canonical identity |
| Ids.Sum | itc/Id.go:90-123 | no contract of its own; see Ids.SumUnion and Ids.SumDefined |
| Ids.SumCommutative | itc/Id.go:90-123 | the order of the operands does not matter |
| Ids.SumSplit | itc/Id.go:10-123 | merging the two halves of a canonical identity gives it back |
| Stamps.Seed | itc/Stamp.go:8-13 | the seed owns every point and has seen nothing at any point |
| Stamps.Leq | itc/Stamp.go:16-38 | no contract of its own; see Stamps.LeqHistories |
| Stamps.Fork | itc/Stamp.go:41-56 | no contract of its own; see Stamps.ForkPartitions |
| Stamps.LeqHistories | itc/Stamp.go:16-38 | against a stamp with a canonical history, the order is the pointwise order of histories |
| Stamps.ForkPartitions | itc/Stamp.go:41-56 | both forks keep the history and own disjoint parts that together make up the original identity |
| Stamps.JoinFork | itc/Stamp.go:41-65 | joining the two forks of a canonical stamp gives the stamp back |
| Stamps.Join | itc/Stamp.go:59-65 | a successful join has a canonical history |
| Stamps.JoinUpperBound | itc/Stamp.go:59-65 | a join is above both stamps and owns what either owned |
| Stamps.NormNode | itc/Stamp.go:100-107 | normalising the rebuilt node keeps its maximum |
| Stamps.NormNodeSpec | itc/Stamp.go:100-107 | normalising the rebuilt node keeps every count, and succeeds with a canonical tree when the children are canonical |
| Stamps.Fill | itc/Stamp.go:68-131 | no contract of its own; see Stamps.FillValues, Stamps.FillKeepsMax and Stamps.FillNormalized |
| Stamps.FillValues | itc/Stamp.go:68-131 | a fill never lowers a count and changes nothing outside the identity |
| Stamps.FillKeepsMax | itc/Stamp.go:68-131 | a fill never raises the largest count |
| Stamps.FillNormalized | itc/Stamp.go:68-131 | filling a canonical history succeeds and gives a canonical history |
| Stamps.NormNodeFixed | itc/Stamp.go:100-107 | a normalisation that keeps the node's root changed neither child |
| Stamps.FillFixedSettled | itc/Stamp.go:68-131 | when filling leaves a history unchanged, every part the identity owns outright is a leaf |
| Stamps.FixedOwnedSide | itc/Stamp.go:90-126 | at a fill fixed point over a canonical history, a side with identity 1 is a leaf and the other side's root is 0 |
| Stamps.Grow | itc/Stamp.go:135-246 | no contract of its own; see Stamps.GrowInflates, Stamps.GrowValues and Stamps.GrowDefined |
| Stamps.Cheaper | itc/Stamp.go:205-241 | no contract of its own; see Stamps.GrowPicksCheaper |
| Stamps.GrowInflatesAt | itc/Stamp.go:135-246 | a grown history is strictly above the old one, at every pending offset |
| Stamps.GrowInflates | itc/Stamp.go:135-246 | a grown history is strictly above the old one |
| Stamps.GrowValues | itc/Stamp.go:135-246 | growth never lowers a count and changes nothing outside the identity |
| Stamps.GrowWitness | itc/Stamp.go:135-246 | growth strictly raises the count at some point the identity owns |
| Stamps.GrowPicksCheaper | itc/Stamp.go:205-241 | when both sides of a node identity can grow, the left side grows exactly when it is strictly cheaper (a tie grows the right), at one more than that side's cost |
| Stamps.GrowDefined | itc/Stamp.go:135-246 | a canonical identity other than 0 can grow every history on which filling has nothing left to do |
| Stamps.GrowRoot | itc/Stamp.go:135-246 | under a node identity, growth gives a node with the old root |
| Stamps.GrowNormalized | itc/Stamp.go:135-246 | under a canonical identity, growing a canonical history that filling leaves unchanged gives a canonical history |
| Stamps.GrowCheapKeepsShape | itc/Stamp.go:5 | a growth costing less than GrowIncrement expanded no leaf |
| Stamps.Advance | itc/Stamp.go:250-259 | advancing keeps the identity |
| Stamps.AdvanceInflates | itc/Stamp.go:250-259 | from a canonical history, advancing gives a strictly later stamp |
| Stamps.AdvanceDefined | itc/Stamp.go:250-259 | over a canonical identity and history, advancing succeeds exactly when the identity is not 0, and gives a strictly later stamp |
| Stamps.AdvanceNormalized | itc/Stamp.go:250-259 | advancing a stamp with a canonical identity and history gives a canonical history |
| Stamps.CanonicalClosed | itc/Stamp.go:8-259 | the seed is canonical, and forking, joining and advancing canonical stamps give canonical stamps |
| Stamps.AdvanceValues | itc/Stamp.go:250-259 | advancing never lowers a count and changes nothing outside the stamp's identity |
| AsWritten.EventLeqAsWrittenOutcome | itc/Event.go:90-107 | as written, a node on the left is never below anything: it recurses forever (root 0 against a leaf) or answers false |
| AsWritten.EventLeqAsWritten | itc/Event.go:90-107 | no contract of its own; see AsWritten.EventLeqAsWrittenOutcome |
| AsWritten.StampLeqCounterexample | itc/Stamp.go:31-35 | as written, the stamp `(1, (0, 1, 0))` is not below itself |
| AsWritten.StampLeqAsWritten | itc/Stamp.go:16-38 | as written, with a leaf history on the left it agrees with the corrected stamp order |
| AsWritten.SplitAsWrittenFails | itc/Id.go:59-83 | as written, splitting fails exactly on the identities that reach a node whose left side is not 0 |
| AsWritten.SplitAsWritten | itc/Id.go:10-87 | wherever the written split returns, it returns the corrected split |
| AsWritten.FillAsWritten | itc/Stamp.go:68-131 | wherever the written fill returns a history, it is the corrected fill's history |
| AsWritten.FillNilShape | itc/Stamp.go:68-131 | as written, fill returns nil exactly for a node identity with neither side 1 over a node history |
| AsWritten.FillCounterexample | itc/Stamp.go:90-130 | as written, advancing the canonical stamp `((0, (1, 0)), 1)` over `(0, (0, 0, 1), (0, 1, 0))` dereferences a nil fill; corrected, it advances to a strictly later stamp |
| AsWritten.FillCounterexampleReachable | itc/Id.go:10-124 | with the corrected split, that identity is where three splits of the seed identity and one sum lead |
| AsWritten.FillStallCounterexample | itc/Stamp.go:250-259 | as written, the identity `(0, (1, 0))` from two splits of the seed records its first event and then no more; corrected, its second advance moves it strictly later |
| AsWritten.AdvanceAsWrittenStalls | itc/Stamp.go:250-259 | as written, advancing returns the stamp unchanged whenever filling would change it |
| AsWritten.AdvanceAsWritten | itc/Stamp.go:250-259 | as written, advancing keeps the identity |
| Scenarios.TwoReplicaForkJoin | itc_test/Example_test.go:17-38 | seed, two advances, fork, one advance each, and join give identity 1 with history 3 |
| Scenarios.GrowTieGoesRight | itc/Stamp.go:211-244 | for identity `((1, 0), (0, 1))` over history `(0, 0, 0)`, both sides grow at equal cost and the right side grows |

## Left out

- Printing (`Print`, and the `fmt.Println` calls in `Sum`) is diagnostics only, so it is not modelled.
- `proto.Equal` and the generated structs are replaced by datatype equality.
- `Copy` and pointer sharing are not modelled, because trees are immutable values here. This includes the in-place promotion of `Join`'s second argument (itc/Event.go:150-152), which can change a caller's tree.
- `NewStamp` is the `Stamp` constructor, since an immutable model needs no copy.
- `uint32` arithmetic is modelled with unbounded naturals. The two root subtractions that could wrap are `Sink` (a precondition) and `Norm` (`CanNorm`). Overflow of counts and of the `Grow` cost is not modelled.
- Stamps.NormNode and Stamps.Fill fail where the source's `Norm` would wrap around, and `Stamps.Advance` then grows instead of returning the wrapped fill. That happens only when a child is not canonical.
- Stamps.Fill has a sixth case the source lacks: a node identity with neither side 1 fills both sides (see Findings). As written, that shape returns nil. At the root, `Advance` then returns the stamp unchanged. Below the root, the caller takes the nil result's minimum or maximum (itc/Stamp.go:103 and 123) and dereferences nil. `AsWritten.FillAsWritten` models both.
- Stamps.Grow fails where the source would return a tree with a nil child: the chosen side could not grow. As in the source, `Grow` does not normalise its result; `Stamps.GrowNormalized` shows the result is canonical anyway whenever `Advance` calls it on a canonical stamp.
- Ids.Sum fails (`None`) for the pairs the source does not handle: two 1 leaves, or a 1 leaf against a node. It also fails when a side of a node merge fails.
- EventValues.LeqMeaning, Stamps.LeqHistories: the pointwise reading holds only against a canonical right-hand side. Against any tree, a leaf is compared with the root alone.
- EventOrder.LeqTransitive, EventOrder.LeqAntisymmetric, EventOrder.JoinLeast: stated for canonical trees. `Stamps.CanonicalClosed` shows that these are the only histories the clock produces from the seed.
- Stamps.AdvanceInflates: assumes a canonical history. `Stamps.AdvanceDefined` shows that `Advance` succeeds on every stamp with a canonical identity other than 0 and a canonical history, and `Stamps.AdvanceNormalized` that the result is canonical again.
- Ids.SumSplit, Stamps.JoinFork: stated for canonical identities and histories, since `Sum` normalises its result.
- The superseded root-level `Event.go` and `Stamp.go` are not part of this model.

## Findings

| source | as written | input that shows it | evidently intended | confidence | as-written member | corrected member |
|---|---|---|---|---|---|---|
| itc/Event.go:101-106 | a node against a leaf lifts the whole node (line 103), not its left child. That recursion never ends at root 0, and otherwise it answers false. Two nodes are never ordered (line 106). | `(1, 0, 1)` against leaf 5 is false; `(0, 0, 1)` against 5 does not terminate; `(0, 1, 0)` against itself is false | compare both lifted children with the leaf, and compare two nodes child by child | high (not executed) | AsWritten.EventLeqAsWrittenOutcome | EventOrder.LeqCases |
| itc/Stamp.go:34 | the stamp order compares the lifted left child with the whole second history lifted by its own root | stamp with history `(0, 1, 0)` against itself is false | compare with the second history's left child lifted by its root | high (not executed) | AsWritten.StampLeqCounterexample | Stamps.LeqHistories |
| itc/Id.go:64 | splitting `(i, 0)` or `(i1, i2)` assigns into a child of a fresh node that has none (lines 64, 75 and 78) | `(1, 0)`, the left half of a split seed | `((i1, 0), (i2, 0))` and `((i1, 0), (0, i2))` | high (not executed) | AsWritten.SplitAsWrittenFails | Ids.SumSplit |
| itc/Stamp.go:253-254 | when filling changes the history, the old stamp is returned | identity 1 with history `(0, 1, 0)` stays the same stamp | return the stamp with the filled history | high (not executed) | AsWritten.AdvanceAsWrittenStalls | Stamps.AdvanceInflates |
| itc/Stamp.go:128-130 | fill has no case for a node identity with neither side 1, and returns nil; below the root its caller dereferences that nil (lines 103 and 123) | identity `((0, (1, 0)), 1)` over history `(0, (0, 0, 1), (0, 1, 0))` dereferences nil; identity `(0, (1, 0))` (two splits of the seed) stops recording after one event | fill both sides and normalise, `norm(n, fill(il, el), fill(ir, er))`, as in the paper's definition | high (not executed) | AsWritten.FillCounterexample | Stamps.AdvanceDefined |
