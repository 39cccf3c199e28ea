/**
 The layout object a window holds. Its methods update the tree and the focus; each is proved to
 act as the corresponding function of LayoutEdits and to keep the layout valid.
 */
module PaneLayouts {
  import opened Wrappers
  import opened Sequences
  import opened PaneTree
  import opened PaneGeometry
  import opened PaneNavigation
  import opened PaneOrder
  import opened PaneEdits
  import opened LayoutEdits

  class PaneLayout {
    var root: Layout
    var focused: PaneId

    ghost function State(): LayoutState
      reads this
    {
      LayoutState(root, focused)
    }

    ghost predicate Valid()
      reads this
    {
      LayoutEdits.Valid(State())
    }

    constructor Single(pane: PaneId)
      ensures Valid() && State() == LayoutEdits.Single(pane)
    {
      root := Pane(pane);
      focused := pane;
    }

    constructor FromState(root: Layout, focused: PaneId)
      ensures State() == LayoutState(root, focused)
    {
      this.root := root;
      this.focused := focused;
    }

    static method FromMuxLayout(layout: Layout) returns (result: PaneLayout?)
      ensures result != null <==> WellFormed(layout) && Distinct(Leaves(layout))
      ensures result != null ==>
        fresh(result) && result.Valid() && LayoutEdits.FromMuxLayout(layout) == Some(result.State())
    {
      FromMuxLayoutValid(layout);
      var normalized := NormalizeTree(layout);
      if normalized.None? {
        return null;
      }
      var first := FirstLeaf(normalized.value);
      if first.None? || !Distinct(Leaves(normalized.value)) {
        return null;
      }
      result := new PaneLayout.FromState(normalized.value, first.value);
    }

    method SetFocus(pane: PaneId) returns (ok: bool)
      requires Valid()
      modifies this
      ensures Valid() && ok == (pane in Leaves(old(root)))
      ensures root == old(root) && focused == if ok then pane else old(focused)
    {
      if !Contains(root, pane) {
        return false;
      }
      focused := pane;
      return true;
    }

    method InsertBeside(pane: PaneId, target: PaneId, direction: Direction) returns (ok: bool)
      requires Valid()
      modifies this
      ensures Valid() && ok == LayoutEdits.InsertBeside(old(State()), pane, target, direction).Some?
      ensures State() == OrElse(LayoutEdits.InsertBeside(old(State()), pane, target, direction), old(State()))
    {
      InsertBesideCorrect(State(), pane, target, direction);
      if Contains(root, pane) || !Contains(root, target) {
        return false;
      }
      var grown := NormalizeTree(InsertLeaf(root, pane, target, direction));
      if grown.None? {
        return false;
      }
      root := grown.value;
      focused := pane;
      return true;
    }

    method SplitFocused(pane: PaneId, axis: SplitDirection)
      requires Valid()
      modifies this
      ensures Valid()
      ensures State() == OrElse(LayoutEdits.SplitFocused(old(State()), pane, axis), old(State()))
    {
      var _ := InsertBeside(pane, focused, if axis == Right then ToRight else ToDown);
    }

    method Remove(pane: PaneId) returns (ok: bool)
      requires Valid()
      modifies this
      ensures Valid() && ok == LayoutEdits.Remove(old(State()), pane).Some?
      ensures State() == OrElse(LayoutEdits.Remove(old(State()), pane), old(State()))
    {
      RemoveCorrect(State(), pane);
      if root.Pane? || !Contains(root, pane) {
        return false;
      }
      var pruned := NormalizeTree(PruneLeaf(root, pane));
      if pruned.None? {
        return false;
      }
      root := pruned.value;
      if !Contains(root, focused) {
        var first := FirstLeaf(root);
        if first.Some? {
          focused := first.value;
        }
      }
      return true;
    }

    method MoveBeside(pane: PaneId, target: PaneId, direction: Direction) returns (ok: bool)
      requires Valid()
      modifies this
      ensures Valid() && ok == LayoutEdits.MoveBeside(old(State()), pane, target, direction).Some?
      ensures State() == OrElse(LayoutEdits.MoveBeside(old(State()), pane, target, direction), old(State()))
    {
      if pane == target || !Contains(root, pane) || !Contains(root, target) {
        return false;
      }
      var candidate := new PaneLayout.FromState(root, focused);
      var removed := candidate.Remove(pane);
      if !removed {
        return false;
      }
      var inserted := candidate.InsertBeside(pane, target, direction);
      if !inserted {
        return false;
      }
      root, focused := candidate.root, candidate.focused;
      return true;
    }

    method Merge(other: PaneLayout) returns (ok: bool)
      requires Valid() && other.Valid() && other != this
      modifies this
      ensures Valid() && ok == LayoutEdits.Merge(old(State()), other.State()).Some?
      ensures State() == OrElse(LayoutEdits.Merge(old(State()), other.State()), old(State()))
    {
      MergeCorrect(State(), other.State());
      if exists pane :: pane in Leaves(other.root) && Contains(root, pane) {
        return false;
      }
      var joined := NormalizeTree(Split(Right, [0.5, 0.5], [root, other.root]));
      if joined.None? {
        return false;
      }
      root := joined.value;
      focused := other.focused;
      return true;
    }

    method Swap(first: PaneId, second: PaneId) returns (ok: bool)
      requires Valid()
      modifies this
      ensures Valid() && ok == LayoutEdits.Swap(old(State()), first, second).Some?
      ensures State() == OrElse(LayoutEdits.Swap(old(State()), first, second), old(State()))
    {
      SwapCorrect(State(), first, second);
      if first == second || !Contains(root, first) || !Contains(root, second) {
        return false;
      }
      root := SwapLeaves(root, first, second);
      return true;
    }

    method Replace(pane: PaneId, replacement: PaneId) returns (ok: bool)
      requires Valid()
      modifies this
      ensures Valid() && ok == LayoutEdits.Replace(old(State()), pane, replacement).Some?
      ensures State() == OrElse(LayoutEdits.Replace(old(State()), pane, replacement), old(State()))
    {
      ReplaceCorrect(State(), pane, replacement);
      if !Contains(root, pane) || Contains(root, replacement) {
        return false;
      }
      root := SwapLeaves(root, pane, replacement);
      if focused == pane {
        focused := replacement;
      }
      return true;
    }

    method Resize(proposed: Layout) returns (ok: bool)
      requires Valid()
      modifies this
      ensures Valid() && ok == LayoutEdits.Resize(old(State()), proposed).Some?
      ensures State() == OrElse(LayoutEdits.Resize(old(State()), proposed), old(State()))
    {
      ResizeCorrect(State(), proposed);
      FromMuxLayoutValid(proposed);
      var candidate := FromMuxLayout(proposed);
      if candidate == null || !SameStructure(root, candidate.root) {
        return false;
      }
      root := candidate.root;
      return true;
    }

    /** Removes the panes the report no longer lists, then adds the missing ones beside the focus. */
    method Reconcile(ids: seq<PaneId>, axis: SplitDirection)
      requires Valid()
      modifies this
      ensures Valid() && State() == LayoutEdits.Reconcile(old(State()), ids, axis)
      ensures ids != [] ==> forall p :: p in Leaves(root) <==> p in ids
    {
      if ids == [] {
        return;
      }
      hide RemoveUnlisted, AddMissing, Canonical;
      ReconcileExact(State(), ids, axis);
      if !exists pane :: pane in Leaves(root) && pane in ids {
        root, focused := Pane(ids[0]), ids[0];
        SingleIsValid(ids[0]);
      }
      PruneUnlisted(ids);
      AddListed(ids, axis);
    }

    method PruneUnlisted(ids: seq<PaneId>)
      requires Valid()
      modifies this
      ensures Valid() && State() == RemoveUnlisted(old(State()), Leaves(old(root)), ids)
    {
      hide RemoveUnlisted, LayoutEdits.Remove, LayoutEdits.Valid;
      var panes := Leaves(root);
      var left := panes;
      while left != []
        invariant Valid() && RemoveUnlisted(State(), left, ids) == RemoveUnlisted(old(State()), panes, ids)
        decreases |left|
      {
        RemoveUnlistedStep(State(), left, ids);
        if left[0] !in ids {
          var _ := Remove(left[0]);
        }
        left := left[1..];
      }
      RemoveUnlistedEnds(State(), ids);
    }

    method AddListed(ids: seq<PaneId>, axis: SplitDirection)
      requires Valid()
      modifies this
      ensures Valid() && State() == AddMissing(old(State()), ids, axis)
    {
      hide AddMissing, LayoutEdits.SplitFocused, LayoutEdits.Valid;
      var left := ids;
      while left != []
        invariant Valid() && AddMissing(State(), left, axis) == AddMissing(old(State()), ids, axis)
        decreases |left|
      {
        AddMissingStep(State(), left, axis);
        if !Contains(root, left[0]) {
          SplitFocused(left[0], axis);
        }
        left := left[1..];
      }
      AddMissingEnds(State(), axis);
    }

    /** The pane to go to from a pane in a direction, over a positive area without gaps. */
    method NeighborOf(from: PaneId, direction: Direction, area: Rect) returns (result: Option<PaneId>)
      requires Valid() && PositiveArea(area)
      ensures IsNeighbor(Rects(root, area, 0.0), from, direction, result)
      ensures result.Some? <==>
        exists o :: 0 <= o < |Rects(root, area, 0.0)| && Rects(root, area, 0.0)[o].pane == from
                    && !TouchesEdge(Rects(root, area, 0.0)[o].rect, area, direction)
    {
      result := Neighbor(root, from, direction, area, 0.0);
      NavigationComplete(root, from, direction, area, result);
    }
  }

  lemma RemoveUnlistedStep(s: LayoutState, left: seq<PaneId>, ids: seq<PaneId>)
    requires left != []
    ensures RemoveUnlisted(s, left, ids)
      == RemoveUnlisted(if left[0] in ids then s else OrElse(LayoutEdits.Remove(s, left[0]), s), left[1..], ids)
  {}

  lemma RemoveUnlistedEnds(s: LayoutState, ids: seq<PaneId>)
    ensures RemoveUnlisted(s, [], ids) == s
  {}

  lemma AddMissingStep(s: LayoutState, left: seq<PaneId>, axis: SplitDirection)
    requires left != []
    ensures AddMissing(s, left, axis)
      == AddMissing(if Contains(s.root, left[0]) then s else OrElse(LayoutEdits.SplitFocused(s, left[0], axis), s),
        left[1..], axis)
  {}

  lemma AddMissingEnds(s: LayoutState, axis: SplitDirection)
    ensures AddMissing(s, [], axis) == s
  {}

  lemma SingleIsValid(pane: PaneId)
    ensures LayoutEdits.Valid(Single(pane))
  {}
}
