/** Edits of the split tree, and what each does to the panes from left to right. */
module PaneEdits {
  import opened Wrappers
  import opened Sequences
  import opened PaneTree
  import opened PaneNavigation
  import opened PaneOrder

  function Contains(t: Layout, pane: PaneId): (r: bool)
    ensures r <==> pane in Leaves(t)
    decreases t, 1
  {
    match t
    case Pane(id) => id == pane
    case Split(_, _, children) => AnyContains(children, pane)
  }

  function AnyContains(ts: seq<Layout>, pane: PaneId): (r: bool)
    ensures r <==> pane in LeavesOf(ts)
    decreases ts, 0
  {
    ts != [] && (Contains(ts[0], pane) || AnyContains(ts[1..], pane))
  }

  function FirstLeaf(t: Layout): (r: Option<PaneId>)
    ensures WellFormed(t) ==> Leaves(t) != [] && r == Some(Leaves(t)[0])
  {
    match t
    case Pane(id) => Some(id)
    case Split(_, _, children) => if children == [] then None else FirstLeaf(children[0])
  }

  function SwapLeaves(t: Layout, first: PaneId, second: PaneId): Layout
    decreases t, 1
  {
    match t
    case Pane(id) => Pane(Swapped(id, first, second))
    case Split(d, weights, children) => Split(d, weights, SwapLeavesOf(children, first, second))
  }

  function SwapLeavesOf(ts: seq<Layout>, first: PaneId, second: PaneId): (r: seq<Layout>)
    ensures |r| == |ts|
    decreases ts, 0
  {
    if ts == [] then [] else [SwapLeaves(ts[0], first, second)] + SwapLeavesOf(ts[1..], first, second)
  }

  /** The axis a direction splits along, and whether the new pane comes first on it. */
  function AxisOf(direction: Direction): SplitDirection {
    if direction.ToLeft? || direction.ToRight? then Right else Down
  }

  predicate ComesFirst(direction: Direction) {
    direction.ToLeft? || direction.ToUp?
  }

  function InsertLeaf(t: Layout, pane: PaneId, target: PaneId, direction: Direction): Layout
    decreases t, 1
  {
    match t
    case Pane(id) =>
      if id == target
      then Split(AxisOf(direction), [0.5, 0.5], if ComesFirst(direction) then [Pane(pane), t] else [t, Pane(pane)])
      else t
    case Split(d, weights, children) => Split(d, weights, InsertLeafOf(children, pane, target, direction))
  }

  function InsertLeafOf(ts: seq<Layout>, pane: PaneId, target: PaneId, direction: Direction): (r: seq<Layout>)
    ensures |r| == |ts|
    decreases ts, 0
  {
    if ts == [] then []
    else [InsertLeaf(ts[0], pane, target, direction)] + InsertLeafOf(ts[1..], pane, target, direction)
  }

  /** Where a pane stands among the children themselves, not deeper. */
  function ChildPosition(ts: seq<Layout>, pane: PaneId): (r: Option<nat>)
    ensures r.Some? ==> r.value < |ts| && ts[r.value] == Pane(pane)
    ensures r.None? ==> forall i :: 0 <= i < |ts| ==> ts[i] != Pane(pane)
  {
    if ts == [] then None
    else if ts[0] == Pane(pane) then Some(0)
    else
      match ChildPosition(ts[1..], pane)
      case None => None
      case Some(i) => Some(i + 1)
  }

  function PruneLeaf(t: Layout, pane: PaneId): Layout
    decreases t, 1
  {
    match t
    case Pane(_) => t
    case Split(d, weights, children) =>
      match ChildPosition(children, pane)
      case Some(i) => Split(d, if i < |weights| then RemoveAt(weights, i) else weights, RemoveAt(children, i))
      case None => Split(d, weights, PruneLeafOf(children, pane))
  }

  function PruneLeafOf(ts: seq<Layout>, pane: PaneId): (r: seq<Layout>)
    ensures |r| == |ts|
    decreases ts, 0
  {
    if ts == [] then [] else [PruneLeaf(ts[0], pane)] + PruneLeafOf(ts[1..], pane)
  }

  /** The tree without its weights. */
  function Shape(t: Layout): Layout
    decreases t, 1
  {
    match t
    case Pane(_) => t
    case Split(d, _, children) => Split(d, [], ShapesOf(children))
  }

  function ShapesOf(ts: seq<Layout>): (r: seq<Layout>)
    ensures |r| == |ts|
    decreases ts, 0
  {
    if ts == [] then [] else [Shape(ts[0])] + ShapesOf(ts[1..])
  }

  function SameStructure(a: Layout, b: Layout): bool
    decreases a, 1
  {
    match (a, b)
    case (Pane(x), Pane(y)) => x == y
    case (Split(d, _, ac), Split(e, _, bc)) => d == e && |ac| == |bc| && AllSameStructure(ac, bc)
    case _ => false
  }

  function AllSameStructure(xs: seq<Layout>, ys: seq<Layout>): bool
    requires |xs| == |ys|
    decreases xs, 0
  {
    xs == [] || (SameStructure(xs[0], ys[0]) && AllSameStructure(xs[1..], ys[1..]))
  }

  /** The comparison of structures sees everything but the weights. */
  lemma {:induction false} SameStructureIsShape(a: Layout, b: Layout)
    ensures SameStructure(a, b) <==> Shape(a) == Shape(b)
    decreases a, 1
  {
    if a.Split? && b.Split? && |a.children| == |b.children| {
      AllSameStructureIsShapes(a.children, b.children);
    }
  }

  lemma {:induction false} AllSameStructureIsShapes(xs: seq<Layout>, ys: seq<Layout>)
    requires |xs| == |ys|
    ensures AllSameStructure(xs, ys) <==> ShapesOf(xs) == ShapesOf(ys)
    decreases xs, 0
  {
    if xs != [] {
      SameStructureIsShape(xs[0], ys[0]);
      AllSameStructureIsShapes(xs[1..], ys[1..]);
      assert ShapesOf(xs)[0] == Shape(xs[0]) && ShapesOf(xs)[1..] == ShapesOf(xs[1..]);
      assert ShapesOf(ys)[0] == Shape(ys[0]) && ShapesOf(ys)[1..] == ShapesOf(ys[1..]);
    }
  }

  lemma {:induction false} ShapeLeaves(a: Layout, b: Layout)
    requires Shape(a) == Shape(b)
    ensures Leaves(a) == Leaves(b)
    decreases a, 1
  {
    if a.Split? {
      assert ShapesOf(a.children) == ShapesOf(b.children);
      ShapesLeaves(a.children, b.children);
    }
  }

  lemma {:induction false} ShapesLeaves(xs: seq<Layout>, ys: seq<Layout>)
    requires ShapesOf(xs) == ShapesOf(ys)
    ensures LeavesOf(xs) == LeavesOf(ys)
    decreases xs, 0
  {
    if xs != [] {
      assert |xs| == |ShapesOf(xs)| == |ShapesOf(ys)| == |ys|;
      assert ShapesOf(xs)[0] == Shape(xs[0]) && ShapesOf(xs)[1..] == ShapesOf(xs[1..]);
      assert ShapesOf(ys)[0] == Shape(ys[0]) && ShapesOf(ys)[1..] == ShapesOf(ys[1..]);
      ShapeLeaves(xs[0], ys[0]);
      ShapesLeaves(xs[1..], ys[1..]);
    }
  }

  // ----- What the edits do to the panes

  lemma {:induction false} InsertLeafLeaves(t: Layout, pane: PaneId, target: PaneId, direction: Direction)
    requires WellFormed(t)
    ensures WellFormed(InsertLeaf(t, pane, target, direction))
    ensures Leaves(InsertLeaf(t, pane, target, direction)) == Beside(Leaves(t), target, pane, ComesFirst(direction))
    decreases t, 1
  {
    if t.Split? {
      InsertLeafOfLeaves(t.children, pane, target, direction);
    } else {
      BesideOne(t.id, pane, target, direction);
    }
  }

  lemma BesideOne(id: PaneId, pane: PaneId, target: PaneId, direction: Direction)
    ensures Leaves(InsertLeaf(Pane(id), pane, target, direction)) == Beside([id], target, pane, ComesFirst(direction))
  {
    assert [id][1..] == [];
    if id == target {
      var t := InsertLeaf(Pane(id), pane, target, direction);
      assert t.children == [t.children[0]] + [t.children[1]];
      LeavesOfConcat([t.children[0]], [t.children[1]]);
      assert LeavesOf([t.children[0]]) == Leaves(t.children[0]) + LeavesOf([]);
      assert LeavesOf([t.children[1]]) == Leaves(t.children[1]) + LeavesOf([]);
    }
  }

  lemma {:induction false} InsertLeafOfLeaves(ts: seq<Layout>, pane: PaneId, target: PaneId, direction: Direction)
    requires AllWellFormed(ts)
    ensures AllWellFormed(InsertLeafOf(ts, pane, target, direction))
    ensures LeavesOf(InsertLeafOf(ts, pane, target, direction))
      == Beside(LeavesOf(ts), target, pane, ComesFirst(direction))
    decreases ts, 0
  {
    if ts != [] {
      AllWellFormedTail(ts);
      InsertLeafLeaves(ts[0], pane, target, direction);
      InsertLeafOfLeaves(ts[1..], pane, target, direction);
      AllWellFormedTail(InsertLeafOf(ts, pane, target, direction));
      BesideConcat(Leaves(ts[0]), LeavesOf(ts[1..]), target, pane, ComesFirst(direction));
    }
  }

  lemma {:induction false} LeavesAround(ts: seq<Layout>, i: nat)
    requires i < |ts|
    ensures LeavesOf(ts) == LeavesOf(ts[..i]) + Leaves(ts[i]) + LeavesOf(ts[i + 1..])
  {
    assert ts == ts[..i] + ([ts[i]] + ts[i + 1..]);
    LeavesOfConcat(ts[..i], [ts[i]] + ts[i + 1..]);
  }

  lemma WithoutMiddle(left: seq<PaneId>, pane: PaneId, right: seq<PaneId>)
    requires Distinct(left + [pane] + right)
    ensures Without(left + [pane] + right, pane) == left + right
  {
    hide Without;
    DistinctConcat(left + [pane], right);
    DistinctConcat(left, [pane]);
    WithoutConcat(left + [pane], right, pane);
    WithoutConcat(left, [pane], pane);
    WithoutAbsent(left, pane);
    WithoutAbsent(right, pane);
    WithoutCons(pane, [], pane);
    NoneOf(pane, pane, false, {});
    assert [pane] + [] == [pane];
  }

  /** Pruning takes out exactly the pane; each split loses at most one child, so none becomes empty. */
  lemma {:induction false} PruneLeafLeaves(t: Layout, pane: PaneId)
    requires Canonical(t) && t.Split? && Distinct(Leaves(t))
    ensures WellFormed(PruneLeaf(t, pane))
    ensures Leaves(PruneLeaf(t, pane)) == Without(Leaves(t), pane)
    decreases t, 1
  {
    hide Without, Distinct;
    CanonicalWellFormed(t);
    match ChildPosition(t.children, pane) {
      case Some(i) =>
        RemovedChildLeaves(t.children, i, pane);
      case None =>
        PruneLeafOfLeaves(t.children, pane);
    }
  }

  lemma RemovedChildLeaves(ts: seq<Layout>, i: nat, pane: PaneId)
    requires i < |ts| && ts[i] == Pane(pane) && Distinct(LeavesOf(ts))
    ensures LeavesOf(RemoveAt(ts, i)) == Without(LeavesOf(ts), pane)
  {
    hide Without, LeavesOf, Distinct;
    var left, right := ts[..i], ts[i + 1..];
    LeavesAround(ts, i);
    WithoutMiddle(LeavesOf(left), pane, LeavesOf(right));
    LeavesOfConcat(left, right);
  }

  lemma {:induction false} PruneLeafOfLeaves(ts: seq<Layout>, pane: PaneId)
    requires forall i :: 0 <= i < |ts| ==> Canonical(ts[i]) && ts[i] != Pane(pane)
    requires Distinct(LeavesOf(ts))
    ensures AllWellFormed(PruneLeafOf(ts, pane))
    ensures LeavesOf(PruneLeafOf(ts, pane)) == Without(LeavesOf(ts), pane)
    decreases ts, 0
  {
    if ts != [] {
      DistinctConcat(Leaves(ts[0]), LeavesOf(ts[1..]));
      if ts[0].Split? {
        PruneLeafLeaves(ts[0], pane);
      } else {
        WithoutAbsent([ts[0].id], pane);
      }
      PruneLeafOfLeaves(ts[1..], pane);
      AllWellFormedTail(PruneLeafOf(ts, pane));
      WithoutConcat(Leaves(ts[0]), LeavesOf(ts[1..]), pane);
    }
  }

  lemma {:induction false} SwapLeavesLeaves(t: Layout, first: PaneId, second: PaneId)
    ensures Leaves(SwapLeaves(t, first, second)) == SwapIn(Leaves(t), first, second)
    ensures Canonical(t) ==> Canonical(SwapLeaves(t, first, second))
    decreases t, 1
  {
    if t.Split? {
      SwapLeavesOfLeaves(t.children, first, second);
      if Canonical(t) {
        var swapped := SwapLeavesOf(t.children, first, second);
        forall i | 0 <= i < |swapped| ensures Canonical(swapped[i]) && !SplitAlong(swapped[i], t.direction) {
          SwapLeavesAt(t.children, first, second, i);
          SwapLeavesLeaves(t.children[i], first, second);
        }
      }
    }
  }

  lemma {:induction false} SwapLeavesAt(ts: seq<Layout>, first: PaneId, second: PaneId, i: nat)
    requires i < |ts|
    ensures SwapLeavesOf(ts, first, second)[i] == SwapLeaves(ts[i], first, second)
  {
    if i > 0 {
      SwapLeavesAt(ts[1..], first, second, i - 1);
    }
  }

  lemma {:induction false} SwapLeavesOfLeaves(ts: seq<Layout>, first: PaneId, second: PaneId)
    ensures LeavesOf(SwapLeavesOf(ts, first, second)) == SwapIn(LeavesOf(ts), first, second)
    decreases ts, 0
  {
    if ts != [] {
      SwapLeavesLeaves(ts[0], first, second);
      SwapLeavesOfLeaves(ts[1..], first, second);
      assert SwapIn(Leaves(ts[0]) + LeavesOf(ts[1..]), first, second)
          == SwapIn(Leaves(ts[0]), first, second) + SwapIn(LeavesOf(ts[1..]), first, second);
    }
  }
}
