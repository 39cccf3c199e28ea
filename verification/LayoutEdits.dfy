/**
 The edits of a window's layout as functions from one layout to the next. A layout is a canonical
 tree of distinct panes together with the focused one; an edit that is refused yields None.
 */
module LayoutEdits {
  import opened Wrappers
  import opened Sequences
  import opened PaneTree
  import opened PaneGeometry
  import opened PaneNavigation
  import opened PaneOrder
  import opened PaneEdits

  datatype LayoutState = LayoutState(root: Layout, focused: PaneId)

  ghost predicate Valid(s: LayoutState) {
    Canonical(s.root) && Distinct(Leaves(s.root)) && s.focused in Leaves(s.root)
  }

  function Single(pane: PaneId): LayoutState {
    LayoutState(Pane(pane), pane)
  }

  /** A layout from a saved tree: refused when the tree is malformed or names a pane twice. */
  function FromMuxLayout(t: Layout): Option<LayoutState> {
    match Normalize(t)
    case None => None
    case Some(root) =>
      match FirstLeaf(root)
      case None => None
      case Some(focused) => if Distinct(Leaves(root)) then Some(LayoutState(root, focused)) else None
  }

  function SetFocus(s: LayoutState, pane: PaneId): Option<LayoutState> {
    if Contains(s.root, pane) then Some(s.(focused := pane)) else None
  }

  function InsertBeside(s: LayoutState, pane: PaneId, target: PaneId, direction: Direction): Option<LayoutState> {
    if Contains(s.root, pane) || !Contains(s.root, target) then None
    else
      match Normalize(InsertLeaf(s.root, pane, target, direction))
      case None => None
      case Some(root) => Some(LayoutState(root, pane))
  }

  function SplitFocused(s: LayoutState, pane: PaneId, d: SplitDirection): Option<LayoutState> {
    InsertBeside(s, pane, s.focused, if d == Right then ToRight else ToDown)
  }

  function Remove(s: LayoutState, pane: PaneId): Option<LayoutState> {
    if s.root.Pane? || !Contains(s.root, pane) then None
    else
      match Normalize(PruneLeaf(s.root, pane))
      case None => None
      case Some(root) =>
        if Contains(root, s.focused) then Some(LayoutState(root, s.focused))
        else
          match FirstLeaf(root)
          case None => Some(LayoutState(root, s.focused))
          case Some(focused) => Some(LayoutState(root, focused))
  }

  function MoveBeside(s: LayoutState, pane: PaneId, target: PaneId, direction: Direction): Option<LayoutState> {
    if pane == target || !Contains(s.root, pane) || !Contains(s.root, target) then None
    else
      match Remove(s, pane)
      case None => None
      case Some(candidate) => InsertBeside(candidate, pane, target, direction)
  }

  function Merge(s: LayoutState, other: LayoutState): Option<LayoutState> {
    if exists pane :: pane in Leaves(other.root) && Contains(s.root, pane) then None
    else
      match Normalize(Split(Right, [0.5, 0.5], [s.root, other.root]))
      case None => None
      case Some(root) => Some(LayoutState(root, other.focused))
  }

  function Swap(s: LayoutState, first: PaneId, second: PaneId): Option<LayoutState> {
    if first == second || !Contains(s.root, first) || !Contains(s.root, second) then None
    else Some(s.(root := SwapLeaves(s.root, first, second)))
  }

  function Replace(s: LayoutState, pane: PaneId, replacement: PaneId): Option<LayoutState> {
    if !Contains(s.root, pane) || Contains(s.root, replacement) then None
    else Some(LayoutState(SwapLeaves(s.root, pane, replacement), if s.focused == pane then replacement else s.focused))
  }

  function Resize(s: LayoutState, proposed: Layout): Option<LayoutState> {
    match FromMuxLayout(proposed)
    case None => None
    case Some(p) => if SameStructure(s.root, p.root) then Some(s.(root := p.root)) else None
  }

  function OrElse(r: Option<LayoutState>, s: LayoutState): LayoutState {
    if r.Some? then r.value else s
  }

  function RemoveUnlisted(s: LayoutState, panes: seq<PaneId>, ids: seq<PaneId>): LayoutState
    decreases |panes|
  {
    if panes == [] then s
    else RemoveUnlisted(if panes[0] in ids then s else OrElse(Remove(s, panes[0]), s), panes[1..], ids)
  }

  function AddMissing(s: LayoutState, ids: seq<PaneId>, d: SplitDirection): LayoutState
    decreases |ids|
  {
    if ids == [] then s
    else AddMissing(if Contains(s.root, ids[0]) then s else OrElse(SplitFocused(s, ids[0], d), s), ids[1..], d)
  }

  /** The layout after the backend reports the panes ids; an empty report changes nothing. */
  function Reconcile(s: LayoutState, ids: seq<PaneId>, d: SplitDirection): LayoutState {
    if ids == [] then s
    else
      var base := if exists pane :: pane in Leaves(s.root) && pane in ids then s else Single(ids[0]);
      AddMissing(RemoveUnlisted(base, Leaves(base.root), ids), ids, d)
  }

  // ----- What each edit promises

  lemma FromMuxLayoutValid(t: Layout)
    ensures FromMuxLayout(t).Some? <==> WellFormed(t) && Distinct(Leaves(t))
    ensures FromMuxLayout(t).Some? ==> Valid(FromMuxLayout(t).value) && Leaves(FromMuxLayout(t).value.root) == Leaves(t)
  {
    NormalizeCorrect(t);
    if WellFormed(t) {
      CanonicalWellFormed(Normalize(t).value);
    }
  }

  lemma InsertBesideCorrect(s: LayoutState, pane: PaneId, target: PaneId, direction: Direction)
    requires Valid(s)
    ensures InsertBeside(s, pane, target, direction).Some? <==> pane !in Leaves(s.root) && target in Leaves(s.root)
    ensures InsertBeside(s, pane, target, direction).Some? ==>
      var r := InsertBeside(s, pane, target, direction).value;
      && Valid(r) && r.focused == pane
      && Leaves(r.root) == Beside(Leaves(s.root), target, pane, ComesFirst(direction))
  {
    hide Canonical, WellFormed, Leaves, InsertLeaf, Beside, Normalize, Distinct;
    CanonicalWellFormed(s.root);
    InsertLeafLeaves(s.root, pane, target, direction);
    NormalizeCorrect(InsertLeaf(s.root, pane, target, direction));
    if pane !in Leaves(s.root) {
      DistinctBeside(Leaves(s.root), target, pane, ComesFirst(direction));
    }
  }

  lemma RemoveCorrect(s: LayoutState, pane: PaneId)
    requires Valid(s)
    ensures Remove(s, pane).Some? <==> |Leaves(s.root)| > 1 && pane in Leaves(s.root)
    ensures Remove(s, pane).Some? ==>
      var r := Remove(s, pane).value;
      && Valid(r)
      && Leaves(r.root) == Without(Leaves(s.root), pane)
      && (s.focused != pane ==> r.focused == s.focused)
  {
    CanonicalWellFormed(s.root);
    SplitHasTwo(s.root);
    if s.root.Split? {
      PruneLeafLeaves(s.root, pane);
      NormalizeCorrect(PruneLeaf(s.root, pane));
      CanonicalWellFormed(Normalize(PruneLeaf(s.root, pane)).value);
      DistinctWithout(Leaves(s.root), pane);
    }
  }

  lemma SplitHasTwo(t: Layout)
    requires Canonical(t)
    ensures t.Split? <==> |Leaves(t)| > 1
  {
    if t.Split? {
      var ts := t.children;
      CanonicalWellFormed(ts[0]);
      CanonicalWellFormed(ts[1]);
      assert FirstLeaf(ts[0]).Some? && FirstLeaf(ts[1]).Some?;
      assert LeavesOf(ts[1..]) == Leaves(ts[1]) + LeavesOf(ts[1..][1..]);
    }
  }

  lemma MoveBesideCorrect(s: LayoutState, pane: PaneId, target: PaneId, direction: Direction)
    requires Valid(s)
    ensures MoveBeside(s, pane, target, direction).Some? <==>
      pane != target && pane in Leaves(s.root) && target in Leaves(s.root)
    ensures MoveBeside(s, pane, target, direction).Some? ==>
      var r := MoveBeside(s, pane, target, direction).value;
      && Valid(r) && r.focused == pane
      && Leaves(r.root) == Beside(Without(Leaves(s.root), pane), target, pane, ComesFirst(direction))
  {
    if pane != target && pane in Leaves(s.root) && target in Leaves(s.root) {
      if |Leaves(s.root)| <= 1 {
        assert false;
      }
      RemoveCorrect(s, pane);
      InsertBesideCorrect(Remove(s, pane).value, pane, target, direction);
    }
  }

  /** Moving a pane permutes the panes, sets it down next to its target and keeps the order of the others. */
  lemma MoveBesidePermutes(s: LayoutState, pane: PaneId, target: PaneId, direction: Direction) returns (i: nat)
    requires Valid(s) && MoveBeside(s, pane, target, direction).Some?
    ensures var before, after := Leaves(s.root), Leaves(MoveBeside(s, pane, target, direction).value.root);
      && multiset(after) == multiset(before)
      && Without(after, pane) == Without(before, pane)
      && i + 1 < |after|
      && (if ComesFirst(direction) then after[i] == pane && after[i + 1] == target
          else after[i] == target && after[i + 1] == pane)
  {
    MoveBesideCorrect(s, pane, target, direction);
    var before := Leaves(s.root);
    var rest := Without(before, pane);
    DistinctWithout(before, pane);
    BesideUndone(rest, target, pane, ComesFirst(direction));
    BesideCounts(rest, target, pane, ComesFirst(direction));
    WithoutCounts(before, pane);
    i := BesideIsAdjacent(rest, target, pane, ComesFirst(direction));
  }

  lemma MergeCorrect(s: LayoutState, other: LayoutState)
    requires Valid(s) && Valid(other)
    ensures Merge(s, other).Some? <==> forall pane :: pane in Leaves(s.root) ==> pane !in Leaves(other.root)
    ensures Merge(s, other).Some? ==>
      var r := Merge(s, other).value;
      && Valid(r) && r.focused == other.focused
      && Leaves(r.root) == Leaves(s.root) + Leaves(other.root)
  {
    var t := Split(Right, [0.5, 0.5], [s.root, other.root]);
    CanonicalWellFormed(s.root);
    CanonicalWellFormed(other.root);
    assert WellFormed(t);
    NormalizeCorrect(t);
    PairLeaves(Right, 0.5, 0.5, s.root, other.root);
    DistinctConcat(Leaves(s.root), Leaves(other.root));
  }

  lemma SwapCorrect(s: LayoutState, first: PaneId, second: PaneId)
    requires Valid(s)
    ensures Swap(s, first, second).Some? <==> first != second && first in Leaves(s.root) && second in Leaves(s.root)
    ensures Swap(s, first, second).Some? ==>
      var r := Swap(s, first, second).value;
      && Valid(r) && r.focused == s.focused
      && Leaves(r.root) == SwapIn(Leaves(s.root), first, second)
  {
    SwapLeavesLeaves(s.root, first, second);
    DistinctSwap(Leaves(s.root), first, second);
    if Swap(s, first, second).Some? {
      SwapKeepsMember(Leaves(s.root), first, second, s.focused);
    }
  }

  lemma ReplaceCorrect(s: LayoutState, pane: PaneId, replacement: PaneId)
    requires Valid(s)
    ensures Replace(s, pane, replacement).Some? <==> pane in Leaves(s.root) && replacement !in Leaves(s.root)
    ensures Replace(s, pane, replacement).Some? ==>
      var r := Replace(s, pane, replacement).value;
      && Valid(r)
      && |Leaves(r.root)| == |Leaves(s.root)|
      && forall i :: 0 <= i < |Leaves(s.root)| ==>
           Leaves(r.root)[i] == (if Leaves(s.root)[i] == pane then replacement else Leaves(s.root)[i])
  {
    SwapLeavesLeaves(s.root, pane, replacement);
    DistinctSwap(Leaves(s.root), pane, replacement);
    if Replace(s, pane, replacement).Some? {
      var i :| 0 <= i < |Leaves(s.root)| && Leaves(s.root)[i] == s.focused;
      assert SwapIn(Leaves(s.root), pane, replacement)[i] == Replace(s, pane, replacement).value.focused;
    }
  }

  /** A resize keeps everything but the weights. */
  lemma ResizeCorrect(s: LayoutState, proposed: Layout)
    requires Valid(s)
    ensures Resize(s, proposed).Some? ==>
      var r := Resize(s, proposed).value;
      Valid(r) && r.focused == s.focused && Shape(r.root) == Shape(s.root) && Leaves(r.root) == Leaves(s.root)
    ensures Resize(s, proposed).Some? <==>
      WellFormed(proposed) && Distinct(Leaves(proposed)) && Normalize(proposed).Some?
        && Shape(Normalize(proposed).value) == Shape(s.root)
  {
    FromMuxLayoutValid(proposed);
    NormalizeCorrect(proposed);
    if FromMuxLayout(proposed).Some? {
      var p := FromMuxLayout(proposed).value;
      SameStructureIsShape(s.root, p.root);
      if SameStructure(s.root, p.root) {
        ShapeLeaves(s.root, p.root);
      }
    }
  }

  // ----- Reconciling

  /** Removing the unlisted panes one by one leaves exactly the listed ones, in order. */
  lemma {:induction false} RemoveUnlistedCorrect(s: LayoutState, panes: seq<PaneId>, ids: seq<PaneId>)
    requires Valid(s)
    requires exists p :: p in Leaves(s.root) && p in ids
    ensures var r := RemoveUnlisted(s, panes, ids);
      && Valid(r)
      && Keep(Leaves(r.root), SetOf(ids)) == Keep(Leaves(s.root), SetOf(ids))
      && (forall p :: p in Leaves(r.root) ==> p in Leaves(s.root))
      && (forall p :: p in panes && p !in ids ==> p !in Leaves(r.root))
    decreases |panes|
  {
    hide Canonical, Distinct, Leaves, Remove, Keep;
    if panes != [] {
      var pane := panes[0];
      if pane in ids {
        RemoveUnlistedCorrect(s, panes[1..], ids);
      } else {
        RemoveCorrect(s, pane);
        var p :| p in Leaves(s.root) && p in ids;
        if pane in Leaves(s.root) {
          if |Leaves(s.root)| <= 1 {
            assert false;
          }
          KeepWithout(Leaves(s.root), SetOf(ids), pane);
          assert p in Leaves(Remove(s, pane).value.root);
        }
        RemoveUnlistedCorrect(OrElse(Remove(s, pane), s), panes[1..], ids);
      }
    }
  }

  lemma {:induction false} AddMissingCorrect(s: LayoutState, ids: seq<PaneId>, d: SplitDirection, earlier: set<PaneId>)
    requires Valid(s)
    requires forall p :: p in ids && p in earlier ==> p in Leaves(s.root)
    ensures var r := AddMissing(s, ids, d);
      && Valid(r)
      && Keep(Leaves(r.root), earlier) == Keep(Leaves(s.root), earlier)
      && forall p :: p in Leaves(r.root) <==> p in Leaves(s.root) || p in ids
    decreases |ids|
  {
    if ids != [] {
      var pane := ids[0];
      if pane in Leaves(s.root) {
        AddMissingCorrect(s, ids[1..], d, earlier);
      } else {
        var direction := if d == Right then ToRight else ToDown;
        InsertBesideCorrect(s, pane, s.focused, direction);
        KeepBeside(Leaves(s.root), earlier, s.focused, pane, ComesFirst(direction));
        AddMissingCorrect(OrElse(SplitFocused(s, pane, d), s), ids[1..], d, earlier);
      }
    }
  }

  /** After a report of panes the layout shows exactly those, the survivors in their earlier order. */
  lemma ReconcileExact(s: LayoutState, ids: seq<PaneId>, d: SplitDirection)
    requires Valid(s) && ids != []
    ensures var r := Reconcile(s, ids, d);
      && Valid(r)
      && (forall p :: p in Leaves(r.root) <==> p in ids)
      && Keep(Leaves(r.root), SetOf(Leaves(s.root))) == Keep(Leaves(s.root), SetOf(ids))
  {
    hide Keep, RemoveUnlisted, AddMissing;
    var survives := exists pane :: pane in Leaves(s.root) && pane in ids;
    var base := if survives then s else Single(ids[0]);
    var earlier := SetOf(Leaves(s.root));
    assert Leaves(Single(ids[0]).root) == [ids[0]];
    assert exists p :: p in Leaves(base.root) && p in ids by {
      if !survives {
        assert ids[0] in Leaves(base.root);
      }
    }
    RemoveUnlistedCorrect(base, Leaves(base.root), ids);
    var pruned := RemoveUnlisted(base, Leaves(base.root), ids);
    KeepAll(Leaves(pruned.root), SetOf(ids));
    KeepMembers(Leaves(base.root), SetOf(ids));
    if survives {
      KeepAll(Leaves(pruned.root), earlier);
    } else {
      KeepNone(Leaves(s.root), SetOf(ids));
      KeepNone(Leaves(pruned.root), earlier);
    }
    AddMissingCorrect(pruned, ids, d, earlier);
  }

  // ----- Runs of edits

  datatype Edit =
    | DoSetFocus(pane: PaneId)
    | DoSplitFocused(pane: PaneId, axis: SplitDirection)
    | DoMerge(other: LayoutState)
    | DoSwap(first: PaneId, second: PaneId)
    | DoReplace(pane: PaneId, replacement: PaneId)
    | DoInsertBeside(pane: PaneId, target: PaneId, direction: Direction)
    | DoMoveBeside(pane: PaneId, target: PaneId, direction: Direction)
    | DoRemove(pane: PaneId)
    | DoReconcile(ids: seq<PaneId>, axis: SplitDirection)
    | DoResize(proposed: Layout)

  /** The layout after an edit; a refused edit leaves it alone. */
  function Apply(s: LayoutState, e: Edit): LayoutState {
    match e
    case DoSetFocus(pane) => OrElse(SetFocus(s, pane), s)
    case DoSplitFocused(pane, axis) => OrElse(SplitFocused(s, pane, axis), s)
    case DoMerge(other) => OrElse(Merge(s, other), s)
    case DoSwap(first, second) => OrElse(Swap(s, first, second), s)
    case DoReplace(pane, replacement) => OrElse(Replace(s, pane, replacement), s)
    case DoInsertBeside(pane, target, direction) => OrElse(InsertBeside(s, pane, target, direction), s)
    case DoMoveBeside(pane, target, direction) => OrElse(MoveBeside(s, pane, target, direction), s)
    case DoRemove(pane) => OrElse(Remove(s, pane), s)
    case DoReconcile(ids, axis) => Reconcile(s, ids, axis)
    case DoResize(proposed) => OrElse(Resize(s, proposed), s)
  }

  function Run(s: LayoutState, edits: seq<Edit>): LayoutState
    decreases |edits|
  {
    if edits == [] then s else Run(Apply(s, edits[0]), edits[1..])
  }

  lemma ApplyKeepsValid(s: LayoutState, e: Edit)
    requires Valid(s) && (e.DoMerge? ==> Valid(e.other))
    ensures Valid(Apply(s, e))
  {
    hide Canonical, Leaves, Distinct, WellFormed, Normalize, Shape, InsertBeside, Merge, Swap, Replace, MoveBeside,
      Remove, Resize;
    match e {
      case DoSetFocus(_) =>
      case DoSplitFocused(pane, axis) =>
        InsertBesideCorrect(s, pane, s.focused, if axis == Right then ToRight else ToDown);
      case DoMerge(other) => MergeCorrect(s, other);
      case DoSwap(first, second) => SwapCorrect(s, first, second);
      case DoReplace(pane, replacement) => ReplaceCorrect(s, pane, replacement);
      case DoInsertBeside(pane, target, direction) => InsertBesideCorrect(s, pane, target, direction);
      case DoMoveBeside(pane, target, direction) => MoveBesideCorrect(s, pane, target, direction);
      case DoRemove(pane) => RemoveCorrect(s, pane);
      case DoReconcile(ids, axis) =>
        if ids != [] {
          ReconcileExact(s, ids, axis);
        }
      case DoResize(proposed) => ResizeCorrect(s, proposed);
    }
  }

  /** In every run the tree stays canonical, its panes distinct and its focus one of them. */
  lemma {:induction false} EveryRunKeepsValid(s: LayoutState, edits: seq<Edit>)
    requires Valid(s)
    requires forall i :: 0 <= i < |edits| && edits[i].DoMerge? ==> Valid(edits[i].other)
    ensures Valid(Run(s, edits))
    decreases |edits|
  {
    if edits != [] {
      ApplyKeepsValid(s, edits[0]);
      EveryRunKeepsValid(Apply(s, edits[0]), edits[1..]);
    }
  }

  // ----- What a new pane does to the rectangles

  /** The two halves of a rectangle along an axis. */
  function FirstHalf(r: Rect, d: SplitDirection): Rect {
    Slice(r, d, 0.0, Portion(Extent(r, d), 0.5))
  }

  function SecondHalf(r: Rect, d: SplitDirection): Rect {
    Slice(r, d, Portion(Extent(r, d), 0.5), Portion(Extent(r, d), 0.5))
  }

  /** Each rectangle of the target gives way to its two halves, one of them the new pane's. */
  function Halved(placed: seq<Placed>, pane: PaneId, target: PaneId, direction: Direction): seq<Placed> {
    if placed == [] then []
    else HalvedOne(placed[0], pane, target, direction) + Halved(placed[1..], pane, target, direction)
  }

  function HalvedOne(p: Placed, pane: PaneId, target: PaneId, direction: Direction): seq<Placed> {
    if p.pane != target then [p]
    else
      var d := AxisOf(direction);
      if ComesFirst(direction)
      then [Placed(pane, FirstHalf(p.rect, d)), Placed(target, SecondHalf(p.rect, d))]
      else [Placed(target, FirstHalf(p.rect, d)), Placed(pane, SecondHalf(p.rect, d))]
  }

  lemma HalvedCons(p: Placed, rest: seq<Placed>, pane: PaneId, target: PaneId, direction: Direction)
    ensures Halved([p] + rest, pane, target, direction) == HalvedOne(p, pane, target, direction)
      + Halved(rest, pane, target, direction)
  {
    assert ([p] + rest)[1..] == rest;
  }

  lemma NoneHalved(pane: PaneId, target: PaneId, direction: Direction)
    ensures Halved([], pane, target, direction) == []
  {}

  lemma {:induction false} HalvedConcat(a: seq<Placed>, b: seq<Placed>, pane: PaneId, target: PaneId,
                                        direction: Direction)
    ensures Halved(a + b, pane, target, direction) == Halved(a, pane, target, direction)
      + Halved(b, pane, target, direction)
  {
    hide Halved;
    if a == [] {
      assert a + b == b;
      NoneHalved(pane, target, direction);
    } else {
      HalvedConcat(a[1..], b, pane, target, direction);
      assert a + b == [a[0]] + (a[1..] + b) && a == [a[0]] + a[1..];
      HalvedCons(a[0], a[1..] + b, pane, target, direction);
      HalvedCons(a[0], a[1..], pane, target, direction);
    }
  }

  /** Every split of the tree has unit-sum weights; the rectangles then need no rescaling. */
  ghost predicate UnitSums(t: Layout) {
    t.Split? ==> t.children != [] && |t.weights| == |t.children| && Positive(t.weights) && Sum(t.weights) == 1.0
                 && forall i :: 0 <= i < |t.children| ==> UnitSums(t.children[i])
  }

  lemma {:induction false} UnitSumsShared(t: Layout)
    requires UnitSums(t)
    ensures WellFormed(t) && Shared(t) == t
    decreases t, 1
  {
    if t.Split? {
      UnitSumsSharedAll(t.children);
      DividedByOne(t.weights);
    }
  }

  lemma {:induction false} UnitSumsSharedAll(ts: seq<Layout>)
    requires forall i :: 0 <= i < |ts| ==> UnitSums(ts[i])
    ensures AllWellFormed(ts) && SharedAll(ts) == ts
    decreases ts, 0
  {
    if ts != [] {
      UnitSumsShared(ts[0]);
      UnitSumsSharedAll(ts[1..]);
      AllWellFormedTail(ts);
    }
  }

  ghost predicate AllUnitSums(ts: seq<Layout>) {
    forall i :: 0 <= i < |ts| ==> UnitSums(ts[i])
  }

  lemma UnitSumsOfSplit(d: SplitDirection, weights: seq<real>, children: seq<Layout>)
    requires children != [] && |weights| == |children| && Positive(weights) && Sum(weights) == 1.0
    requires AllUnitSums(children)
    ensures UnitSums(Split(d, weights, children))
  {}

  lemma {:induction false} InsertLeafUnitSums(t: Layout, pane: PaneId, target: PaneId, direction: Direction)
    requires Canonical(t)
    ensures UnitSums(InsertLeaf(t, pane, target, direction))
    decreases t, 1
  {
    if t.Split? {
      InsertLeafOfUnitSums(t.children, pane, target, direction);
      UnitSumsOfSplit(t.direction, t.weights, InsertLeafOf(t.children, pane, target, direction));
    } else {
      PairLeaves(AxisOf(direction), 0.5, 0.5, Pane(pane), t);
    }
  }

  lemma {:induction false} InsertLeafOfUnitSums(ts: seq<Layout>, pane: PaneId, target: PaneId, direction: Direction)
    requires forall i :: 0 <= i < |ts| ==> Canonical(ts[i])
    ensures AllUnitSums(InsertLeafOf(ts, pane, target, direction))
    decreases ts, 0
  {
    if ts != [] {
      InsertLeafUnitSums(ts[0], pane, target, direction);
      InsertLeafOfUnitSums(ts[1..], pane, target, direction);
      var r := InsertLeafOf(ts, pane, target, direction);
      assert forall i :: 1 <= i < |r| ==> r[i] == InsertLeafOf(ts[1..], pane, target, direction)[i - 1];
    }
  }

  lemma {:induction false} InsertLeafRects(t: Layout, pane: PaneId, target: PaneId, direction: Direction, area: Rect)
    requires Canonical(t) && area.NonNegative()
    ensures Rects(InsertLeaf(t, pane, target, direction), area, 0.0)
      == Halved(Rects(t, area, 0.0), pane, target, direction)
    decreases t, 1
  {
    if t.Split? {
      var u := Extent(area, t.direction);
      UsableWithoutGap(u, |t.children|);
      InsertLeafOfRects(t.direction, t.weights, t.children, pane, target, direction, area, u, 0.0);
    } else {
      assert Halved([Placed(t.id, area)], pane, target, direction)
        == HalvedOne(Placed(t.id, area), pane, target, direction) + [];
      if t.id == target {
        var d := AxisOf(direction);
        var u := Extent(area, d);
        UsableWithoutGap(u, 2);
        var a, b := if ComesFirst(direction) then Pane(pane) else t, if ComesFirst(direction) then t else Pane(pane);
        RowOfTwo(d, 0.5, 0.5, a, b, area, u, 0.0, FirstHalf(area, d), SecondHalf(area, d));
      }
    }
  }

  lemma InsertLeafOfCons(ts: seq<Layout>, pane: PaneId, target: PaneId, direction: Direction)
    requires ts != []
    ensures var r := InsertLeafOf(ts, pane, target, direction);
      r[0] == InsertLeaf(ts[0], pane, target, direction) && r[1..] == InsertLeafOf(ts[1..], pane, target, direction)
  {}

  lemma {:induction false} InsertLeafOfRects(d: SplitDirection, weights: seq<real>, ts: seq<Layout>, pane: PaneId,
                                             target: PaneId,
                                             direction: Direction, area: Rect, usable: real, offset: real)
    requires |weights| == |ts| && Positive(weights) && (forall i :: 0 <= i < |ts| ==> Canonical(ts[i]))
    requires area.NonNegative() && usable >= 0.0
    ensures RectsFrom(d, weights, InsertLeafOf(ts, pane, target, direction), area, usable, 0.0, offset)
         == Halved(RectsFrom(d, weights, ts, area, usable, 0.0, offset), pane, target, direction)
    decreases ts, 0
  {
    hide RectsFrom, Slice, Canonical, InsertLeaf;
    if ts != [] {
      var size := Portion(usable, weights[0]);
      var slice, next := Slice(area, d, offset, size), offset + (size + 0.0);
      SizeNonNegative(usable, weights[0]);
      SliceNonNegative(area, d, offset, size);
      InsertLeafRects(ts[0], pane, target, direction, slice);
      InsertLeafOfRects(d, weights[1..], ts[1..], pane, target, direction, area, usable, next);
      HalvedConcat(Rects(ts[0], slice, 0.0), RectsFrom(d, weights[1..], ts[1..], area, usable, 0.0, next), pane,
        target, direction);
      RectsFromCons(d, weights, ts, area, usable, 0.0, offset);
      RectsFromCons(d, weights, InsertLeafOf(ts, pane, target, direction), area, usable, 0.0, offset);
      InsertLeafOfCons(ts, pane, target, direction);
    } else {
      NoRects(d, weights, area, usable, 0.0, offset);
    }
  }

  /** A new pane takes half of its target's rectangle; every other pane keeps its own. */
  lemma InsertHalvesTarget(s: LayoutState, pane: PaneId, target: PaneId, direction: Direction, area: Rect)
    requires Valid(s) && area.NonNegative() && InsertBeside(s, pane, target, direction).Some?
    ensures Rects(InsertBeside(s, pane, target, direction).value.root, area, 0.0)
         == Halved(Rects(s.root, area, 0.0), pane, target, direction)
  {
    var grown := InsertLeaf(s.root, pane, target, direction);
    InsertLeafUnitSums(s.root, pane, target, direction);
    UnitSumsShared(grown);
    NormalizeKeepsRects(grown, area);
    InsertLeafRects(s.root, pane, target, direction, area);
  }
}
