/**
 Rectangles of the panes of a split tree, and what normalising does to them.

 Coordinates are reals. A split divides its extent among its children in proportion to their
 weights, with a gap between neighbours.
 */
module PaneGeometry {
  import opened Wrappers
  import opened Sequences
  import opened PaneTree

  datatype Rect = Rect(minX: real, minY: real, maxX: real, maxY: real) {
    function Width(): real { maxX - minX }
    function Height(): real { maxY - minY }
    predicate NonNegative() { Width() >= 0.0 && Height() >= 0.0 }
  }

  function FromMinSize(minX: real, minY: real, width: real, height: real): Rect {
    Rect(minX, minY, minX + width, minY + height)
  }

  datatype Placed = Placed(pane: PaneId, rect: Rect)

  function Extent(area: Rect, d: SplitDirection): real {
    if d == Right then area.Width() else area.Height()
  }

  /** The part of area that starts offset along d and is size long. */
  function Slice(area: Rect, d: SplitDirection, offset: real, size: real): Rect {
    if d == Right
    then FromMinSize(area.minX + offset, area.minY, size, area.Height())
    else FromMinSize(area.minX, area.minY + offset, area.Width(), size)
  }

  /** What remains of an extent for count children once the gaps between them are taken. */
  function Usable(extent: real, count: nat, gap: real): real {
    var gaps := if count == 0 then 0 else count - 1;
    var rest := extent - gap * (gaps as real);
    if rest > 0.0 then rest else 0.0
  }

  /** The length a weight stands for. */
  function Portion(usable: real, weight: real): real {
    usable * weight
  }

  function Rects(t: Layout, area: Rect, gap: real): seq<Placed>
    decreases t, 1
  {
    match t
    case Pane(id) => [Placed(id, area)]
    case Split(d, weights, children) =>
      RectsFrom(d, weights, children, area, Usable(Extent(area, d), |children|, gap), gap, 0.0)
  }

  function RectsFrom(d: SplitDirection, weights: seq<real>, children: seq<Layout>,
                     area: Rect, usable: real, gap: real, offset: real): seq<Placed>
    decreases children, 0
  {
    if children == [] || weights == [] then []
    else
      var size := Portion(usable, weights[0]);
      Rects(children[0], Slice(area, d, offset, size), gap)
      + RectsFrom(d, weights[1..], children[1..], area, usable, gap, offset + (size + gap))
  }

  lemma RectsFromCons(d: SplitDirection, weights: seq<real>, children: seq<Layout>, area: Rect, usable: real,
                      gap: real, offset: real)
    requires weights != [] && children != []
    ensures var size := Portion(usable, weights[0]);
      RectsFrom(d, weights, children, area, usable, gap, offset)
      == Rects(children[0], Slice(area, d, offset, size), gap)
         + RectsFrom(d, weights[1..], children[1..], area, usable, gap, offset + (size + gap))
  {}

  lemma NoRects(d: SplitDirection, weights: seq<real>, area: Rect, usable: real, gap: real, offset: real)
    ensures RectsFrom(d, weights, [], area, usable, gap, offset) == []
  {}

  /** The server's traversal, which appends to one list while it accumulates the offset. */
  method VisitRects(node: Layout, area: Rect, gap: real, before: seq<Placed>) returns (out: seq<Placed>)
    ensures out == before + Rects(node, area, gap)
    decreases node
  {
    hide RectsFrom, Rects, Slice, Portion, Usable, Extent;
    RectsOf(node, area, gap);
    if node.Pane? {
      return before + [Placed(node.id, area)];
    }
    var d, weights, children := node.direction, node.weights, node.children;
    var usable := Usable(Extent(area, d), |children|, gap);
    var offset := 0.0;
    out := before;
    var i := 0;
    assert weights[0..] == weights && children[0..] == children;
    while i < |children| && i < |weights|
      invariant 0 <= i <= |children| && i <= |weights|
      invariant out + RectsFrom(d, weights[i..], children[i..], area, usable, gap, offset)
             == before + Rects(node, area, gap)
    {
      var size := Portion(usable, weights[i]);
      ghost var here := Rects(children[i], Slice(area, d, offset, size), gap);
      ghost var rest := RectsFrom(d, weights[i + 1..], children[i + 1..], area, usable, gap, offset + (size + gap));
      RectsFromCons(d, weights[i..], children[i..], area, usable, gap, offset);
      assert weights[i..][1..] == weights[i + 1..] && children[i..][1..] == children[i + 1..];
      ConcatAssoc(out, here, rest);
      out := VisitRects(children[i], Slice(area, d, offset, size), gap, out);
      offset := offset + (size + gap);
      i := i + 1;
    }
    NoneLeft(d, weights[i..], children[i..], area, usable, gap, offset);
    assert out + [] == out;
  }

  lemma RectsOf(node: Layout, area: Rect, gap: real)
    ensures Rects(node, area, gap) ==
      if node.Pane? then [Placed(node.id, area)]
      else RectsFrom(node.direction, node.weights, node.children, area,
                     Usable(Extent(area, node.direction), |node.children|, gap), gap, 0.0)
  {}

  lemma NoneLeft(d: SplitDirection, weights: seq<real>, children: seq<Layout>, area: Rect, usable: real, gap: real,
                 offset: real)
    requires weights == [] || children == []
    ensures RectsFrom(d, weights, children, area, usable, gap, offset) == []
  {}

  /** The rectangles come in the order of the panes, one for each. */
  lemma {:induction false} RectsNamePanes(t: Layout, area: Rect, gap: real)
    requires WellFormed(t)
    ensures |Rects(t, area, gap)| == |Leaves(t)|
    ensures forall i :: 0 <= i < |Leaves(t)| ==> Rects(t, area, gap)[i].pane == Leaves(t)[i]
    decreases t, 1
  {
    if t.Split? {
      RectsFromNamePanes(t.direction, t.weights, t.children, area,
        Usable(Extent(area, t.direction), |t.children|, gap), gap, 0.0);
    }
  }

  lemma {:induction false} RectsFromNamePanes(d: SplitDirection, weights: seq<real>, children: seq<Layout>,
                                              area: Rect, usable: real, gap: real, offset: real)
    requires |weights| == |children| && AllWellFormed(children)
    ensures var r := RectsFrom(d, weights, children, area, usable, gap, offset);
      |r| == |LeavesOf(children)| && forall i :: 0 <= i < |r| ==> r[i].pane == LeavesOf(children)[i]
    decreases children, 0
  {
    if children != [] {
      AllWellFormedTail(children);
      var size := Portion(usable, weights[0]);
      RectsNamePanes(children[0], Slice(area, d, offset, size), gap);
      RectsFromNamePanes(d, weights[1..], children[1..], area, usable, gap, offset + (size + gap));
    }
  }

  // ----- Normalising keeps every rectangle

  /** The tree with every weight read as its share of its own split. */
  function Shared(t: Layout): Layout
    requires WellFormed(t)
    decreases t, 1
  {
    if t.Pane? then t else Split(t.direction, Shares(t.weights), SharedAll(t.children))
  }

  function SharedAll(ts: seq<Layout>): (r: seq<Layout>)
    requires AllWellFormed(ts)
    ensures |r| == |ts|
    decreases ts, 0
  {
    if ts == [] then []
    else
      AllWellFormedTail(ts);
      [Shared(ts[0])] + SharedAll(ts[1..])
  }

  lemma UsableWithoutGap(extent: real, count: nat)
    requires extent >= 0.0
    ensures Usable(extent, count, 0.0) == extent
  {
  }

  lemma Distribute(a: real, b: real, c: real)
    ensures Portion(a, b + c) == Portion(a, b) + Portion(a, c)
    ensures Portion(a, b * c) == Portion(Portion(a, b), c)
  {
  }

  lemma SizeNonNegative(usable: real, share: real)
    requires usable >= 0.0 && share > 0.0
    ensures Portion(usable, share) >= 0.0
    ensures usable > 0.0 ==> Portion(usable, share) > 0.0
  {
  }

  lemma SliceNonNegative(area: Rect, d: SplitDirection, offset: real, size: real)
    requires area.NonNegative() && size >= 0.0
    ensures Slice(area, d, offset, size).NonNegative()
  {}

  lemma {:induction false} RectsFromConcat(d: SplitDirection, wa: seq<real>, a: seq<Layout>, wb: seq<real>,
                                           b: seq<Layout>,
                                           area: Rect, usable: real, offset: real)
    requires |wa| == |a| && |wb| == |b|
    ensures RectsFrom(d, wa + wb, a + b, area, usable, 0.0, offset)
         == RectsFrom(d, wa, a, area, usable, 0.0, offset)
           + RectsFrom(d, wb, b, area, usable, 0.0, offset + Portion(usable, Sum(wa)))
    decreases |a|
  {
    hide RectsFrom, Rects, Slice, Portion;
    if a == [] {
      assert wa + wb == wb && a + b == b;
      NoRects(d, wa, area, usable, 0.0, offset);
      Distribute(usable, 0.0, 0.0);
    } else {
      var size := Portion(usable, wa[0]);
      assert (wa + wb)[1..] == wa[1..] + wb && (a + b)[1..] == a[1..] + b;
      var next := offset + (size + 0.0);
      RectsFromConcat(d, wa[1..], a[1..], wb, b, area, usable, next);
      Distribute(usable, wa[0], Sum(wa[1..]));
      assert next + Portion(usable, Sum(wa[1..])) == offset + Portion(usable, Sum(wa));
      RectsFromCons(d, wa + wb, a + b, area, usable, 0.0, offset);
      RectsFromCons(d, wa, a, area, usable, 0.0, offset);
    }
  }

  /** A nested split of the same direction occupies the slices its scaled weights give it directly. */
  lemma {:induction false} NestedSlices(d: SplitDirection, w: real, inner: seq<real>, children: seq<Layout>,
                                        area: Rect, usable: real, offset: real, within: real, size: real)
    requires |inner| == |children|
    ensures RectsFrom(d, Scale(w, inner), children, area, usable, 0.0, offset + within)
         == RectsFrom(d, inner, children, Slice(area, d, offset, size), Portion(usable, w), 0.0, within)
    decreases |children|
  {
    if children != [] {
      ScaleTail(w, inner);
      Distribute(usable, w, inner[0]);
      var step := Portion(Portion(usable, w), inner[0]);
      var next := within + (step + 0.0);
      assert Portion(usable, Scale(w, inner)[0]) == step;
      NestedSlices(d, w, inner[1..], children[1..], area, usable, offset, next, size);
      assert Slice(area, d, offset + within, step) == Slice(Slice(area, d, offset, size), d, within, step);
      assert offset + within + (step + 0.0) == offset + next;
    }
  }

  /** Normalising keeps every pane's rectangle at gap zero. */
  lemma {:induction false} NormalizeKeepsRects(t: Layout, area: Rect)
    requires WellFormed(t) && area.NonNegative()
    ensures Normalize(t).Some?
    ensures Rects(Normalize(t).value, area, 0.0) == Rects(Shared(t), area, 0.0)
    decreases t, 1
  {
    NormalizeCorrect(t);
    if t.Split? {
      var d, shares := t.direction, Shares(t.weights);
      var u := Extent(area, d);
      FlattenCorrect(d, shares, t.children);
      FlattenKeepsRects(d, shares, t.children, area, u, 0.0);
      UsableWithoutGap(u, |t.children|);
      var flat := Flatten(d, shares, t.children).value;
      UsableWithoutGap(u, |flat.children|);
      if |flat.children| == 1 {
        var only, w := flat.children[0], flat.weights[0];
        assert Sum(flat.weights) == w + Sum(flat.weights[1..]) == w;
        assert Portion(u, w) == u;
        assert Slice(area, d, 0.0, u) == area;
        assert RectsFrom(d, flat.weights, flat.children, area, u, 0.0, 0.0) == Rects(only, area, 0.0) + [];
      }
    }
  }

  lemma {:induction false} FlattenKeepsRects(d: SplitDirection, shares: seq<real>, children: seq<Layout>,
                                             area: Rect, usable: real, offset: real)
    requires |shares| == |children| && Positive(shares) && AllWellFormed(children)
    requires area.NonNegative() && usable >= 0.0
    ensures Flatten(d, shares, children).Some?
    ensures var flat := Flatten(d, shares, children).value;
      RectsFrom(d, flat.weights, flat.children, area, usable, 0.0, offset)
      == RectsFrom(d, shares, SharedAll(children), area, usable, 0.0, offset)
    decreases children, 0
  {
    hide RectsFrom, Slice, Rects, Flatten, Normalize, Portion, Shared, SharedAll, WellFormed;
    if children != [] {
      AllWellFormedTail(children);
      var size := Portion(usable, shares[0]);
      SizeNonNegative(usable, shares[0]);
      SliceNonNegative(area, d, offset, size);
      NormalizeKeepsRects(children[0], Slice(area, d, offset, size));
      FlattenKeepsRects(d, shares[1..], children[1..], area, usable, offset + (size + 0.0));
      FlattenedRow(d, shares, children, area, usable, offset);
      SharedAllCons(children);
      RectsFromCons(d, shares, SharedAll(children), area, usable, 0.0, offset);
    } else {
      FlattenNothing(d, shares, area, usable, offset);
    }
  }

  lemma SharedAllCons(ts: seq<Layout>)
    requires AllWellFormed(ts) && ts != []
    ensures WellFormed(ts[0]) && AllWellFormed(ts[1..])
    ensures SharedAll(ts)[0] == Shared(ts[0]) && SharedAll(ts)[1..] == SharedAll(ts[1..])
  {
    hide Shared, WellFormed;
    AllWellFormedTail(ts);
  }

  lemma FlattenNothing(d: SplitDirection, shares: seq<real>, area: Rect, usable: real, offset: real)
    requires shares == []
    ensures Flatten(d, shares, []) == Some(Flat([], [])) && SharedAll([]) == []
    ensures RectsFrom(d, [], [], area, usable, 0.0, offset) == []
  {}

  /** The rectangles of a flattened row: those of its first child, then those of the rest. */
  lemma FlattenedRow(d: SplitDirection, shares: seq<real>, children: seq<Layout>, area: Rect, usable: real,
                     offset: real)
    requires |shares| == |children| && Positive(shares) && children != []
    requires WellFormed(children[0]) && AllWellFormed(children[1..]) && usable >= 0.0
    ensures Normalize(children[0]).Some? && Flatten(d, shares[1..], children[1..]).Some?
      && Flatten(d, shares, children).Some?
    ensures var flat, rest := Flatten(d, shares, children).value, Flatten(d, shares[1..], children[1..]).value;
      var size := Portion(usable, shares[0]);
      RectsFrom(d, flat.weights, flat.children, area, usable, 0.0, offset)
      == Rects(Normalize(children[0]).value, Slice(area, d, offset, size), 0.0)
         + RectsFrom(d, rest.weights, rest.children, area, usable, 0.0, offset + (size + 0.0))
  {
    NormalizeCorrect(children[0]);
    FlattenCorrect(d, shares[1..], children[1..]);
    var w, child := shares[0], Normalize(children[0]).value;
    var rest := Flatten(d, shares[1..], children[1..]).value;
    var piece := Pieces(d, w, child);
    PiecesCorrect(d, w, child);
    PieceKeepsRects(d, w, child, area, usable, offset);
    RectsFromConcat(d, piece.weights, piece.children, rest.weights, rest.children, area, usable, offset);
  }

  /** What a child contributes to a flattened row fills the slice the child had. */
  lemma PieceKeepsRects(d: SplitDirection, w: real, child: Layout, area: Rect, usable: real, offset: real)
    requires w > 0.0 && usable >= 0.0 && Canonical(child)
    ensures var piece := Pieces(d, w, child);
      RectsFrom(d, piece.weights, piece.children, area, usable, 0.0, offset)
      == Rects(child, Slice(area, d, offset, Portion(usable, w)), 0.0)
  {
    var size := Portion(usable, w);
    var slice := Slice(area, d, offset, size);
    SizeNonNegative(usable, w);
    if SplitAlong(child, d) {
      NestedSlices(d, w, child.weights, child.children, area, usable, offset, 0.0, size);
      assert Extent(slice, d) == size;
      UsableWithoutGap(size, |child.children|);
    } else {
      assert [w][1..] == [] && [child][1..] == [];
    }
  }
}
