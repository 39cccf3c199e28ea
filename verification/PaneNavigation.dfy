/**
 Directional navigation over the rectangles of a layout.

 At gap zero the rectangles of a canonical layout tile the area. From this follows when a pane
 has a neighbour in a direction: exactly when it does not touch that edge of the area.
 */
module PaneNavigation {
  import opened Wrappers
  import opened Sequences
  import opened PaneTree
  import opened PaneGeometry

  datatype Direction = ToLeft | ToRight | ToUp | ToDown

  predicate PositiveArea(r: Rect) {
    r.minX < r.maxX && r.minY < r.maxY
  }

  predicate Within(r: Rect, area: Rect) {
    area.minX <= r.minX && r.maxX <= area.maxX && area.minY <= r.minY && r.maxY <= area.maxY
  }

  /** The interiors have no point in common. */
  predicate Separated(a: Rect, b: Rect) {
    a.maxX <= b.minX || b.maxX <= a.minX || a.maxY <= b.minY || b.maxY <= a.minY
  }

  // ----- The tiling

  /** Membership in an interval that includes one of its ends: the lower one if low holds. */
  predicate Between(lo: real, hi: real, v: real, low: bool) {
    if low then lo <= v < hi else lo < v <= hi
  }

  predicate Covers(r: Rect, x: real, y: real, lowX: bool, lowY: bool) {
    Between(r.minX, r.maxX, x, lowX) && Between(r.minY, r.maxY, y, lowY)
  }

  ghost predicate Placement(placed: seq<Placed>, area: Rect) {
    && (forall i :: 0 <= i < |placed| ==> PositiveArea(placed[i].rect) && Within(placed[i].rect, area))
    && (forall i, j :: 0 <= i < j < |placed| ==> Separated(placed[i].rect, placed[j].rect))
  }

  /** Placing rectangles side by side in two areas that lie apart. */
  lemma PlacementConcat(a: seq<Placed>, b: seq<Placed>, areaA: Rect, areaB: Rect, area: Rect)
    requires Placement(a, areaA) && Placement(b, areaB)
    requires Within(areaA, area) && Within(areaB, area) && Separated(areaA, areaB)
    ensures Placement(a + b, area)
  {
    var ab := a + b;
    forall i, j | 0 <= i < j < |ab| ensures Separated(ab[i].rect, ab[j].rect) {
      if i < |a| && j >= |a| {
        assert ab[i] == a[i] && ab[j] == b[j - |a|];
        assert Within(a[i].rect, areaA) && Within(b[j - |a|].rect, areaB);
        assert PositiveArea(a[i].rect) && PositiveArea(b[j - |a|].rect);
      }
    }
  }

  /** The stretch of area that the children of the given weights take. */
  function Stretch(area: Rect, d: SplitDirection, usable: real, offset: real, weights: seq<real>): Rect {
    Slice(area, d, offset, Portion(usable, Sum(weights)))
  }

  lemma StretchSplits(area: Rect, d: SplitDirection, usable: real, offset: real, weights: seq<real>)
    requires PositiveArea(area) && usable > 0.0 && weights != [] && Positive(weights)
    ensures var size := Portion(usable, weights[0]);
      var first := Slice(area, d, offset, size);
      var rest := Stretch(area, d, usable, offset + (size + 0.0), weights[1..]);
      var whole := Stretch(area, d, usable, offset, weights);
      && PositiveArea(first)
      && Within(first, whole) && Within(rest, whole) && Separated(first, rest)
  {
    SizeNonNegative(usable, weights[0]);
    Distribute(usable, weights[0], Sum(weights[1..]));
    if |weights| > 1 {
      SumPositive(weights[1..]);
      SizeNonNegative(usable, Sum(weights[1..]));
    }
  }

  /** The rectangles of a canonical tree are positive, inside the area and apart from each other. */
  lemma {:induction false} RectsPlaced(t: Layout, area: Rect)
    requires Canonical(t) && PositiveArea(area)
    ensures Placement(Rects(t, area, 0.0), area)
    decreases t, 1
  {
    if t.Split? {
      var u := Extent(area, t.direction);
      UsableWithoutGap(u, |t.children|);
      RowPlaced(t.direction, t.weights, t.children, area, u, 0.0);
      assert Portion(u, 1.0) == u;
      assert Stretch(area, t.direction, u, 0.0, t.weights) == area;
    }
  }

  lemma {:induction false} RowPlaced(d: SplitDirection, weights: seq<real>, children: seq<Layout>,
                                     area: Rect, usable: real, offset: real)
    requires RowAlong(d, Flat(weights, children)) && PositiveArea(area) && usable > 0.0
    ensures Placement(RectsFrom(d, weights, children, area, usable, 0.0, offset),
      Stretch(area, d, usable, offset, weights))
    decreases children, 0
  {
    if children != [] {
      var size := Portion(usable, weights[0]);
      var next := offset + (size + 0.0);
      StretchSplits(area, d, usable, offset, weights);
      assert RowAlong(d, Flat(weights[1..], children[1..]));
      RectsPlaced(children[0], Slice(area, d, offset, size));
      RowPlaced(d, weights[1..], children[1..], area, usable, next);
      PlacementConcat(Rects(children[0], Slice(area, d, offset, size), 0.0),
                      RectsFrom(d, weights[1..], children[1..], area, usable, 0.0, next),
                      Slice(area, d, offset, size), Stretch(area, d, usable, next, weights[1..]),
                      Stretch(area, d, usable, offset, weights));
    }
  }

  /** Every point of the area lies in some rectangle, whichever ends of the intervals are included. */
  lemma {:induction false} RectsCover(t: Layout, area: Rect, x: real, y: real, lowX: bool, lowY: bool) returns (k: nat)
    requires Canonical(t) && PositiveArea(area) && Covers(area, x, y, lowX, lowY)
    ensures k < |Rects(t, area, 0.0)| && Covers(Rects(t, area, 0.0)[k].rect, x, y, lowX, lowY)
    decreases t, 1
  {
    if t.Pane? {
      k := 0;
    } else {
      var u := Extent(area, t.direction);
      UsableWithoutGap(u, |t.children|);
      assert Portion(u, 1.0) == u;
      assert Stretch(area, t.direction, u, 0.0, t.weights) == area;
      k := RowCovers(t.direction, t.weights, t.children, area, u, 0.0, x, y, lowX, lowY);
    }
  }

  lemma {:induction false} RowCovers(d: SplitDirection, weights: seq<real>, children: seq<Layout>,
                                     area: Rect, usable: real, offset: real,
                                     x: real, y: real, lowX: bool, lowY: bool) returns (k: nat)
    requires RowAlong(d, Flat(weights, children)) && PositiveArea(area) && usable > 0.0
    requires Covers(Stretch(area, d, usable, offset, weights), x, y, lowX, lowY)
    ensures var r := RectsFrom(d, weights, children, area, usable, 0.0, offset);
      k < |r| && Covers(r[k].rect, x, y, lowX, lowY)
    decreases children, 0
  {
    hide RectsFrom, Rects, Slice, Stretch, Covers, Canonical, PositiveArea, Portion;
    if children == [] {
      NothingCovers(d, area, usable, offset, weights, x, y, lowX, lowY);
    } else {
      var size := Portion(usable, weights[0]);
      var next := offset + (size + 0.0);
      var first := Slice(area, d, offset, size);
      StretchSplits(area, d, usable, offset, weights);
      StretchCovers(area, d, usable, offset, weights, x, y, lowX, lowY);
      RectsFromCons(d, weights, children, area, usable, 0.0, offset);
      if Covers(first, x, y, lowX, lowY) {
        k := RectsCover(children[0], first, x, y, lowX, lowY);
      } else {
        k := RowCovers(d, weights[1..], children[1..], area, usable, next, x, y, lowX, lowY);
        k := k + |Rects(children[0], first, 0.0)|;
      }
    }
  }

  lemma NothingCovers(d: SplitDirection, area: Rect, usable: real, offset: real, weights: seq<real>, x: real, y: real,
                      lowX: bool, lowY: bool)
    requires weights == []
    ensures !Covers(Stretch(area, d, usable, offset, weights), x, y, lowX, lowY)
  {}

  /** A point of a stretch is in its first slice or in the rest. */
  lemma StretchCovers(area: Rect, d: SplitDirection, usable: real, offset: real, weights: seq<real>, x: real, y: real,
                      lowX: bool, lowY: bool)
    requires weights != [] && Covers(Stretch(area, d, usable, offset, weights), x, y, lowX, lowY)
    ensures var size := Portion(usable, weights[0]);
      || Covers(Slice(area, d, offset, size), x, y, lowX, lowY)
      || Covers(Stretch(area, d, usable, offset + (size + 0.0), weights[1..]), x, y, lowX, lowY)
  {
    Distribute(usable, weights[0], Sum(weights[1..]));
  }

  // ----- Neighbours

  function Midpoint(a: real, b: real): real {
    (a + b) / 2.0
  }

  function Min(a: real, b: real): real { if a < b then a else b }
  function Max(a: real, b: real): real { if a > b then a else b }

  function VerticalOverlap(a: Rect, b: Rect): real {
    Max(Min(a.maxY, b.maxY) - Max(a.minY, b.minY), 0.0)
  }

  function HorizontalOverlap(a: Rect, b: Rect): real {
    Max(Min(a.maxX, b.maxX) - Max(a.minX, b.minX), 0.0)
  }

  datatype Gap = Gap(primary: real, overlap: real)

  /** Distance along the axis and overlap across it, for a candidate on the right side with overlap. */
  function DirectionalGap(origin: Rect, candidate: Rect, direction: Direction): Option<Gap> {
    var originX, originY := Midpoint(origin.minX, origin.maxX), Midpoint(origin.minY, origin.maxY);
    var candidateX, candidateY := Midpoint(candidate.minX, candidate.maxX), Midpoint(candidate.minY, candidate.maxY);
    var (forward, primary, overlap) :=
      match direction
      case ToRight => (candidateX > originX, candidate.minX - origin.maxX, VerticalOverlap(origin, candidate))
      case ToLeft => (candidateX < originX, origin.minX - candidate.maxX, VerticalOverlap(origin, candidate))
      case ToDown => (candidateY > originY, candidate.minY - origin.maxY, HorizontalOverlap(origin, candidate))
      case ToUp => (candidateY < originY, origin.minY - candidate.maxY, HorizontalOverlap(origin, candidate));
    if forward && overlap > 0.0 then Some(Gap(primary, overlap)) else None
  }

  function Score(gap: Gap): real {
    gap.overlap * -0.001 + gap.primary
  }

  /** The score of a placement seen from the origin pane, if it is a candidate. */
  function ScoreOf(placed: Placed, from: PaneId, origin: Rect, direction: Direction): Option<real> {
    if placed.pane == from then None
    else
      match DirectionalGap(origin, placed.rect, direction)
      case None => None
      case Some(gap) => Some(Score(gap))
  }

  function Scores(placed: seq<Placed>, from: PaneId, origin: Rect, direction: Direction): (r: seq<Option<real>>)
    ensures |r| == |placed|
    ensures forall i :: 0 <= i < |placed| ==> r[i] == ScoreOf(placed[i], from, origin, direction)
  {
    seq(|placed|, i requires 0 <= i < |placed| => ScoreOf(placed[i], from, origin, direction))
  }

  /** The first placement of a pane. */
  function Find(placed: seq<Placed>, pane: PaneId): (r: Option<nat>)
    ensures r.Some? ==> r.value < |placed| && placed[r.value].pane == pane
    ensures r.Some? ==> forall i :: 0 <= i < r.value ==> placed[i].pane != pane
    ensures r.None? ==> forall i :: 0 <= i < |placed| ==> placed[i].pane != pane
  {
    if placed == [] then None
    else if placed[0].pane == pane then Some(0)
    else
      match Find(placed[1..], pane)
      case None => None
      case Some(i) => Some(i + 1)
  }

  /** Position k holds the least score, and is the first that does. */
  ghost predicate FirstLeast(scores: seq<Option<real>>, k: nat) {
    && k < |scores|
    && scores[k].Some?
    && forall j :: 0 <= j < |scores| && scores[j].Some? ==>
         scores[k].value <= scores[j].value && (j < k ==> scores[k].value < scores[j].value)
  }

  method LeastScore(scores: seq<Option<real>>) returns (best: Option<nat>)
    ensures best.None? <==> forall j :: 0 <= j < |scores| ==> scores[j].None?
    ensures best.Some? ==> FirstLeast(scores, best.value)
  {
    best := None;
    for i := 0 to |scores|
      invariant best.None? <==> forall j :: 0 <= j < i ==> scores[j].None?
      invariant best.Some? ==> best.value < i && FirstLeast(scores[..i], best.value)
    {
      if scores[i].Some? && (best.None? || scores[i].value < scores[best.value].value) {
        best := Some(i);
      }
    }
    assert scores[..|scores|] == scores;
  }

  /** What the neighbour search answers. */
  ghost predicate IsNeighbor(placed: seq<Placed>, from: PaneId, direction: Direction, result: Option<PaneId>) {
    match Find(placed, from)
    case None => result.None?
    case Some(o) =>
      var scores := Scores(placed, from, placed[o].rect, direction);
      match result
      case None => forall j :: 0 <= j < |scores| ==> scores[j].None?
      case Some(pane) => exists k: nat :: FirstLeast(scores, k) && placed[k].pane == pane
  }

  method Neighbor(root: Layout, from: PaneId, direction: Direction, area: Rect, gap: real)
      returns (result: Option<PaneId>)
    ensures IsNeighbor(Rects(root, area, gap), from, direction, result)
  {
    var placed := VisitRects(root, area, gap, []);
    assert placed == Rects(root, area, gap);
    var at := Find(placed, from);
    if at.None? {
      return None;
    }
    var best := LeastScore(Scores(placed, from, placed[at.value].rect, direction));
    if best.None? {
      return None;
    }
    result := Some(placed[best.value].pane);
  }

  /** The pane touches the edge of the area that lies in the direction. */
  predicate TouchesEdge(r: Rect, area: Rect, direction: Direction) {
    match direction
    case ToRight => r.maxX == area.maxX
    case ToLeft => r.minX == area.minX
    case ToDown => r.maxY == area.maxY
    case ToUp => r.minY == area.minY
  }

  /** Among rectangles that lie apart, a candidate starts where the origin ends or beyond. */
  lemma CandidateAhead(origin: Rect, c: Rect, direction: Direction)
    requires PositiveArea(origin) && PositiveArea(c) && Separated(origin, c)
    requires DirectionalGap(origin, c, direction).Some?
    ensures DirectionalGap(origin, c, direction).value.primary >= 0.0
  {
  }

  lemma NoCandidateBeyondEdge(origin: Rect, c: Rect, area: Rect, direction: Direction)
    requires PositiveArea(origin) && PositiveArea(c) && Separated(origin, c) && Within(c, area)
    requires TouchesEdge(origin, area, direction)
    ensures DirectionalGap(origin, c, direction).None?
  {
    if DirectionalGap(origin, c, direction).Some? {
      CandidateAhead(origin, c, direction);
    }
  }

  /** The start of a rectangle across the direction of travel, and its length along it. */
  function AcrossMin(r: Rect, direction: Direction): real {
    if direction.ToLeft? || direction.ToRight? then r.minY else r.minX
  }

  function AcrossMax(r: Rect, direction: Direction): real {
    if direction.ToLeft? || direction.ToRight? then r.maxY else r.maxX
  }

  function Thickness(r: Rect, direction: Direction): real {
    if direction.ToLeft? || direction.ToRight? then r.Width() else r.Height()
  }

  /** The rectangle has the point just past the origin's far side at this level. */
  predicate Past(origin: Rect, c: Rect, direction: Direction, across: real) {
    match direction
    case ToRight => Covers(c, origin.maxX, across, true, true)
    case ToLeft => Covers(c, origin.minX, across, false, true)
    case ToDown => Covers(c, across, origin.maxY, true, true)
    case ToUp => Covers(c, across, origin.minY, true, false)
  }

  lemma PastTouches(origin: Rect, c: Rect, direction: Direction, across: real)
    requires PositiveArea(origin) && PositiveArea(c) && Separated(origin, c) && Past(origin, c, direction, across)
    requires AcrossMin(origin, direction) <= across < AcrossMax(origin, direction)
    ensures DirectionalGap(origin, c, direction).Some? && DirectionalGap(origin, c, direction).value.primary == 0.0
    ensures AcrossMin(c, direction) <= across < AcrossMax(c, direction)
  {}

  lemma NotPastItself(origin: Rect, direction: Direction, across: real)
    requires PositiveArea(origin)
    ensures !Past(origin, origin, direction, across)
  {}

  lemma PastIsCovered(origin: Rect, area: Rect, direction: Direction, across: real)
    requires PositiveArea(origin) && Within(origin, area) && !TouchesEdge(origin, area, direction)
    requires AcrossMin(origin, direction) <= across < AcrossMax(origin, direction)
    ensures Past(origin, area, direction, across)
  {}

  /** At every level of its far side, a pane away from the edge has a candidate that touches it. */
  lemma TouchingCandidate(t: Layout, area: Rect, o: nat, direction: Direction, across: real) returns (k: nat)
    requires Canonical(t) && PositiveArea(area) && o < |Rects(t, area, 0.0)|
    requires var origin := Rects(t, area, 0.0)[o].rect;
      !TouchesEdge(origin, area, direction) && AcrossMin(origin, direction) <= across < AcrossMax(origin, direction)
    ensures var r := Rects(t, area, 0.0);
      && k < |r| && k != o
      && DirectionalGap(r[o].rect, r[k].rect, direction).Some?
      && DirectionalGap(r[o].rect, r[k].rect, direction).value.primary == 0.0
      && AcrossMin(r[k].rect, direction) <= across < AcrossMax(r[k].rect, direction)
  {
    hide Rects, Canonical, DirectionalGap, TouchesEdge, Separated;
    RectsPlaced(t, area);
    var r := Rects(t, area, 0.0);
    var origin := r[o].rect;
    assert PositiveArea(origin) && Within(origin, area);
    PastIsCovered(origin, area, direction, across);
    match direction {
      case ToRight => k := RectsCover(t, area, origin.maxX, across, true, true);
      case ToLeft => k := RectsCover(t, area, origin.minX, across, false, true);
      case ToDown => k := RectsCover(t, area, across, origin.maxY, true, true);
      case ToUp => k := RectsCover(t, area, across, origin.minY, true, false);
    }
    assert Past(origin, r[k].rect, direction, across);
    NotPastItself(origin, direction, across);
    PlacedApart(r, area, o, k);
    PastTouches(origin, r[k].rect, direction, across);
  }

  lemma NoScoreAtEdge(t: Layout, from: PaneId, direction: Direction, area: Rect, o: nat)
    requires Canonical(t) && PositiveArea(area)
    requires var r := Rects(t, area, 0.0);
      o < |r| && r[o].pane == from && TouchesEdge(r[o].rect, area, direction)
    ensures var r := Rects(t, area, 0.0);
      forall j :: 0 <= j < |r| ==> Scores(r, from, r[o].rect, direction)[j].None?
  {
    hide Rects, Canonical, DirectionalGap;
    var r := Rects(t, area, 0.0);
    RectsPlaced(t, area);
    forall j | 0 <= j < |r| ensures Scores(r, from, r[o].rect, direction)[j].None? {
      if j != o {
        assert Separated(r[if j < o then j else o].rect, r[if j < o then o else j].rect);
        NoCandidateBeyondEdge(r[o].rect, r[j].rect, area, direction);
      }
    }
  }

  /** Navigation is complete: there is an answer exactly when the pane is shown and away from that edge. */
  lemma NavigationComplete(t: Layout, from: PaneId, direction: Direction, area: Rect, result: Option<PaneId>)
    requires Canonical(t) && Distinct(Leaves(t)) && PositiveArea(area)
    requires IsNeighbor(Rects(t, area, 0.0), from, direction, result)
    ensures result.Some? <==>
      exists o :: 0 <= o < |Rects(t, area, 0.0)| && Rects(t, area, 0.0)[o].pane == from
                  && !TouchesEdge(Rects(t, area, 0.0)[o].rect, area, direction)
  {
    hide Rects, Canonical, Leaves, WellFormed, DirectionalGap;
    var r := Rects(t, area, 0.0);
    RectsPlaced(t, area);
    CanonicalWellFormed(t);
    RectsNamePanes(t, area, 0.0);
    var at := Find(r, from);
    if at.Some? {
      var o := at.value;
      assert forall i :: 0 <= i < |r| && i != o ==> r[i].pane != from;
      if TouchesEdge(r[o].rect, area, direction) {
        NoScoreAtEdge(t, from, direction, area, o);
      } else {
        var k := TouchingCandidate(t, area, o, direction, AcrossMin(r[o].rect, direction));
        assert Scores(r, from, r[o].rect, direction)[k].Some?;
      }
    }
  }

  // ----- How near the answer is

  /** Two candidates met at one level: the touching one fits before the one that is further away. */
  lemma TouchingComesFirst(origin: Rect, near: Rect, far: Rect, direction: Direction, across: real)
    requires PositiveArea(origin) && PositiveArea(near) && PositiveArea(far)
    requires Separated(near, far)
    requires DirectionalGap(origin, near, direction).Some?
      && DirectionalGap(origin, near, direction).value.primary == 0.0
    requires DirectionalGap(origin, far, direction).Some? && DirectionalGap(origin, far, direction).value.primary > 0.0
    requires AcrossMin(near, direction) <= across < AcrossMax(near, direction)
    requires AcrossMin(far, direction) <= across < AcrossMax(far, direction)
    ensures DirectionalGap(origin, far, direction).value.primary >= Thickness(near, direction)
  {
  }

  lemma OverlapBounded(origin: Rect, c: Rect, direction: Direction)
    requires PositiveArea(origin) && DirectionalGap(origin, c, direction).Some?
    ensures DirectionalGap(origin, c, direction).value.overlap <= AcrossMax(origin, direction) - AcrossMin(origin,
      direction)
  {
  }

  lemma FarScoresWorse(origin: Rect, near: Rect, far: Rect, area: Rect, direction: Direction, across: real)
    requires PositiveArea(origin) && PositiveArea(near) && PositiveArea(far) && Within(origin, area)
    requires Separated(near, far)
    requires DirectionalGap(origin, near, direction).Some?
      && DirectionalGap(origin, near, direction).value.primary == 0.0
    requires DirectionalGap(origin, far, direction).Some? && DirectionalGap(origin, far, direction).value.primary > 0.0
    requires AcrossMin(near, direction) <= across < AcrossMax(near, direction)
    requires AcrossMin(far, direction) <= across < AcrossMax(far, direction)
    requires Thickness(near, direction) >= 0.001 * (AcrossMax(area, direction) - AcrossMin(area, direction))
    ensures Score(DirectionalGap(origin, near, direction).value) < Score(DirectionalGap(origin, far, direction).value)
  {
    TouchingComesFirst(origin, near, far, direction, across);
    OverlapBounded(origin, far, direction);
  }

  /** How a placement lies from the o-th one, if it is a candidate. */
  function GapFrom(placed: seq<Placed>, o: nat, j: nat, direction: Direction): Option<Gap>
    requires o < |placed| && j < |placed|
  {
    if j == o then None else DirectionalGap(placed[o].rect, placed[j].rect, direction)
  }

  /** The n-th candidate touches the pane, and what the j-th overlaps more does not make up for its distance. */
  predicate OutdoneBy(placed: seq<Placed>, o: nat, j: nat, n: nat, direction: Direction)
    requires o < |placed| && j < |placed| && GapFrom(placed, o, j, direction).Some?
  {
    && n < |placed| && GapFrom(placed, o, n, direction).Some?
    && var near, far := GapFrom(placed, o, n, direction).value, GapFrom(placed, o, j, direction).value;
       && near.primary == 0.0
       && (0.001 * (far.overlap - near.overlap) < far.primary
          || (0.001 * (far.overlap - near.overlap) == far.primary && n < j))
  }

  /** Every candidate at a distance is outdone by one that touches. */
  ghost predicate TouchingWins(placed: seq<Placed>, o: nat, direction: Direction)
    requires o < |placed|
  {
    forall j ::
      (&& 0 <= j < |placed|
       && GapFrom(placed, o, j, direction).Some?
       && GapFrom(placed, o, j, direction).value.primary > 0.0) ==>
      exists n :: 0 <= n && OutdoneBy(placed, o, j, n, direction)
  }

  lemma ScoreIsGap(t: Layout, from: PaneId, direction: Direction, area: Rect, o: nat, j: nat)
    requires Canonical(t) && PositiveArea(area) && Distinct(Leaves(t)) && Find(Rects(t, area, 0.0), from) == Some(o)
      && j < |Rects(t, area, 0.0)|
    ensures var r := Rects(t, area, 0.0); var scores := Scores(r, from, r[o].rect, direction);
      var gap := GapFrom(r, o, j, direction);
      && (scores[j].Some? <==> gap.Some?)
      && (gap.Some? ==> scores[j].value == Score(gap.value) && gap.value.primary >= 0.0)
  {
    hide Rects, Canonical, DirectionalGap, Score;
    var r := Rects(t, area, 0.0);
    RectsPlaced(t, area);
    CanonicalWellFormed(t);
    RectsNamePanes(t, area, 0.0);
    if j != o {
      PlacedApart(r, area, o, j);
      if DirectionalGap(r[o].rect, r[j].rect, direction).Some? {
        CandidateAhead(r[o].rect, r[j].rect, direction);
      }
    }
  }

  /**
   The neighbour shares an edge with the pane exactly when every candidate at a distance is outdone by
   one that touches.
   */
  lemma NeighborTouchesIff(t: Layout, from: PaneId, direction: Direction, area: Rect, o: nat, k: nat)
    requires Canonical(t) && PositiveArea(area) && Distinct(Leaves(t))
    requires var r := Rects(t, area, 0.0);
      Find(r, from) == Some(o) && FirstLeast(Scores(r, from, r[o].rect, direction), k)
    ensures var r := Rects(t, area, 0.0);
      && GapFrom(r, o, k, direction).Some?
      && (GapFrom(r, o, k, direction).value.primary == 0.0 <==> TouchingWins(r, o, direction))
  {
    hide Rects, Canonical, DirectionalGap, GapFrom, Leaves;
    var r := Rects(t, area, 0.0);
    ScoreIsGap(t, from, direction, area, o, k);
    var best := GapFrom(r, o, k, direction).value;
    if best.primary == 0.0 {
      forall j | 0 <= j < |r| && GapFrom(r, o, j, direction).Some? && GapFrom(r, o, j, direction).value.primary > 0.0
        ensures OutdoneBy(r, o, j, k, direction)
      {
        ScoreIsGap(t, from, direction, area, o, j);
        ScoresCompare(best, GapFrom(r, o, j, direction).value);
      }
    } else if TouchingWins(r, o, direction) {
      var n :| 0 <= n && OutdoneBy(r, o, k, n, direction);
      ScoreIsGap(t, from, direction, area, o, n);
      ScoresCompare(GapFrom(r, o, n, direction).value, best);
    }
  }

  lemma ScoresCompare(near: Gap, far: Gap)
    requires near.primary == 0.0
    ensures Score(near) < Score(far) <==> 0.001 * (far.overlap - near.overlap) < far.primary
    ensures Score(near) == Score(far) <==> 0.001 * (far.overlap - near.overlap) == far.primary
  {}

  /** So it does when no pane is thinner, along the direction, than a thousandth of the area across it. */
  lemma NeighborTouches(t: Layout, from: PaneId, direction: Direction, area: Rect, o: nat, k: nat)
    requires Canonical(t) && PositiveArea(area) && Distinct(Leaves(t))
    requires var r := Rects(t, area, 0.0);
      && Find(r, from) == Some(o)
      && FirstLeast(Scores(r, from, r[o].rect, direction), k)
      && forall i :: 0 <= i < |r|
          ==> Thickness(r[i].rect, direction) >= 0.001 * (AcrossMax(area, direction) - AcrossMin(area, direction))
    ensures var r := Rects(t, area, 0.0);
      GapFrom(r, o, k, direction).Some? && GapFrom(r, o, k, direction).value.primary == 0.0
  {
    hide Rects, Canonical, DirectionalGap, Leaves, Score, FirstLeast, Scores;
    var r := Rects(t, area, 0.0);
    forall j | 0 <= j < |r| && GapFrom(r, o, j, direction).Some? && GapFrom(r, o, j, direction).value.primary > 0.0
      ensures exists n :: 0 <= n && OutdoneBy(r, o, j, n, direction)
    {
      var n := CloserCandidate(t, area, o, j, direction);
      ScoresCompare(GapFrom(r, o, n, direction).value, GapFrom(r, o, j, direction).value);
      assert OutdoneBy(r, o, j, n, direction);
    }
    NeighborTouchesIff(t, from, direction, area, o, k);
  }

  lemma PlacedApart(placed: seq<Placed>, area: Rect, a: nat, b: nat)
    requires Placement(placed, area) && a < |placed| && b < |placed| && a != b
    ensures PositiveArea(placed[a].rect) && PositiveArea(placed[b].rect)
    ensures Within(placed[a].rect, area) && Within(placed[b].rect, area)
    ensures Separated(placed[a].rect, placed[b].rect)
  {
    assert Separated(placed[if a < b then a else b].rect, placed[if a < b then b else a].rect);
  }

  /** Under the bound on thickness, a candidate that does not touch is beaten by one that does. */
  lemma CloserCandidate(t: Layout, area: Rect, o: nat, k: nat, direction: Direction) returns (n: nat)
    requires Canonical(t) && PositiveArea(area)
    requires var r := Rects(t, area, 0.0);
      && o < |r| && k < |r| && o != k
      && DirectionalGap(r[o].rect, r[k].rect, direction).Some?
      && DirectionalGap(r[o].rect, r[k].rect, direction).value.primary > 0.0
      && forall i :: 0 <= i < |r|
          ==> Thickness(r[i].rect, direction) >= 0.001 * (AcrossMax(area, direction) - AcrossMin(area, direction))
    ensures var r := Rects(t, area, 0.0);
      && n < |r| && n != o
      && DirectionalGap(r[o].rect, r[n].rect, direction).Some?
      && DirectionalGap(r[o].rect, r[n].rect, direction).value.primary == 0.0
      && Score(DirectionalGap(r[o].rect, r[n].rect, direction).value) < Score(DirectionalGap(r[o].rect, r[k].rect,
         direction).value)
  {
    var r := Rects(t, area, 0.0);
    RectsPlaced(t, area);
    PlacedApart(r, area, o, k);
    var origin, far := r[o].rect, r[k].rect;
    if TouchesEdge(origin, area, direction) {
      NoCandidateBeyondEdge(origin, far, area, direction);
      assert false;
    }
    var across := Max(AcrossMin(origin, direction), AcrossMin(far, direction));
    n := TouchingCandidate(t, area, o, direction, across);
    PlacedApart(r, area, n, k);
    FarScoresWorse(origin, r[n].rect, far, area, direction, across);
  }

  /**
   Without that bound the answer may pass over the panes that share the edge: beside a column of
   two panes 0.5 wide and 1000 high, the pane behind the column scores better.
   */
  lemma NeighborMaySkip(from: PaneId, upper: PaneId, lower: PaneId, behind: PaneId, quarter: real, half: real,
                        area: Rect)
    requires Distinct([from, upper, lower, behind])
    requires quarter == 0.25 && half == 0.5 && area == Rect(0.0, 0.0, 1.0, 2000.0)
    ensures var column := Split(Down, [half, half], [Pane(upper), Pane(lower)]);
      var t := Split(Right, [quarter, half, quarter], [Pane(from), column, Pane(behind)]);
      var placed := SkippingPlacement(from, upper, lower, behind);
      && Canonical(t) && Distinct(Leaves(t)) && PositiveArea(area)
      && Rects(t, area, 0.0) == placed
      && IsNeighbor(placed, from, ToRight, Some(behind))
      && placed[3].rect.minX > placed[1].rect.minX == placed[2].rect.minX == placed[0].rect.maxX
  {
    SkippingRects(from, upper, lower, behind, quarter, half, area);
    SkippingCanonical(from, upper, lower, behind, quarter, half);
    var placed, names := SkippingPlacement(from, upper, lower, behind), [from, upper, lower, behind];
    assert names[0] != names[1] && names[0] != names[2] && names[0] != names[3];
    SkippingScores(from, upper, lower, behind);
    assert FirstLeast(Scores(placed, from, placed[0].rect, ToRight), 3);
  }

  lemma SkippingRects(from: PaneId, upper: PaneId, lower: PaneId, behind: PaneId, quarter: real, half: real, area: Rect)
    requires quarter == 0.25 && half == 0.5 && area == Rect(0.0, 0.0, 1.0, 2000.0)
    ensures var column := Split(Down, [half, half], [Pane(upper), Pane(lower)]);
      Rects(Split(Right, [quarter, half, quarter], [Pane(from), column, Pane(behind)]), area, 0.0)
      == SkippingPlacement(from, upper, lower, behind)
  {
    var column := Split(Down, [half, half], [Pane(upper), Pane(lower)]);
    var placed, middle := SkippingPlacement(from, upper, lower, behind), Rect(0.25, 0.0, 0.75, 2000.0);
    ColumnRects(Pane(upper), Pane(lower), half, middle, placed[1].rect, placed[2].rect);
    ColumnsRects(Pane(from), column, Pane(behind), quarter, half, area, placed[0].rect, middle, placed[3].rect);
    assert placed == [placed[0]] + (([placed[1]] + [placed[2]]) + [placed[3]]);
  }

  lemma ColumnRects(a: Layout, b: Layout, half: real, area: Rect, sa: Rect, sb: Rect)
    requires half == 0.5 && area.minY == 0.0 && area.maxY == 2000.0
    requires sa == area.(maxY := 1000.0) && sb == area.(minY := 1000.0)
    ensures Rects(Split(Down, [half, half], [a, b]), area, 0.0) == Rects(a, sa, 0.0) + Rects(b, sb, 0.0)
  {
    var u := Extent(area, Down);
    UsableWithoutGap(u, 2);
    RowOfTwo(Down, half, half, a, b, area, u, 0.0, sa, sb);
  }

  lemma ColumnsRects(a: Layout, b: Layout, c: Layout, quarter: real, half: real, area: Rect, sa: Rect, sb: Rect,
                     sc: Rect)
    requires quarter == 0.25 && half == 0.5 && area.minX == 0.0 && area.maxX == 1.0
    requires sa == area.(maxX := 0.25) && sb == area.(minX := 0.25, maxX := 0.75) && sc == area.(minX := 0.75)
    ensures Rects(Split(Right, [quarter, half, quarter], [a, b, c]), area, 0.0)
         == Rects(a, sa, 0.0) + (Rects(b, sb, 0.0) + Rects(c, sc, 0.0))
  {
    var u := Extent(area, Right);
    UsableWithoutGap(u, 3);
    RowOfThree(Right, quarter, half, quarter, a, b, c, area, u, sa, sb, sc);
  }

  lemma SkippingCanonical(from: PaneId, upper: PaneId, lower: PaneId, behind: PaneId, quarter: real, half: real)
    requires quarter == 0.25 && half == 0.5
    ensures var column := Split(Down, [half, half], [Pane(upper), Pane(lower)]);
      var t := Split(Right, [quarter, half, quarter], [Pane(from), column, Pane(behind)]);
      Canonical(t) && Leaves(t) == [from, upper, lower, behind]
  {
    var column := Split(Down, [half, half], [Pane(upper), Pane(lower)]);
    PairLeaves(Down, half, half, Pane(upper), Pane(lower));
    TripleLeaves(Right, quarter, half, quarter, Pane(from), column, Pane(behind));
    PairCanonical(half, Pane(upper), Pane(lower));
    TripleCanonical(quarter, half, Pane(from), column, Pane(behind));
  }

  lemma PairCanonical(half: real, a: Layout, b: Layout)
    requires half == 0.5 && a.Pane? && b.Pane?
    ensures Canonical(Split(Down, [half, half], [a, b]))
  {
    assert [half, half][1..] == [half] && [half][1..] == [];
    assert Sum([half]) == half + Sum([]) && Sum([half, half]) == half + Sum([half]);
  }

  lemma TripleCanonical(quarter: real, half: real, a: Layout, b: Layout, c: Layout)
    requires quarter == 0.25 && half == 0.5 && a.Pane? && c.Pane? && Canonical(b) && !SplitAlong(b, Right)
    ensures Canonical(Split(Right, [quarter, half, quarter], [a, b, c]))
  {
    hide Sum;
    SumOfThree(quarter, half, quarter);
  }

  lemma SumOfThree(a: real, b: real, c: real)
    ensures Sum([a, b, c]) == a + b + c
  {
    assert [a, b, c][1..] == [b, c] && [b, c][1..] == [c] && [c][1..] == [];
    assert Sum([c]) == c + Sum([]) && Sum([b, c]) == b + Sum([c]);
  }

  ghost function SkippingPlacement(from: PaneId, upper: PaneId, lower: PaneId, behind: PaneId): (r: seq<Placed>)
    ensures |r| == 4
  {
    [Placed(from, Rect(0.0, 0.0, 0.25, 2000.0)),
     Placed(upper, Rect(0.25, 0.0, 0.75, 1000.0)),
     Placed(lower, Rect(0.25, 1000.0, 0.75, 2000.0)),
     Placed(behind, Rect(0.75, 0.0, 1.0, 2000.0))]
  }

  lemma SkippingScores(from: PaneId, upper: PaneId, lower: PaneId, behind: PaneId)
    requires from != upper && from != lower && from != behind
    ensures Scores(SkippingPlacement(from, upper, lower, behind), from, Rect(0.0, 0.0, 0.25, 2000.0), ToRight)
         == [None, Some(-1.0), Some(-1.0), Some(-1.5)]
  {
    var origin, r := Rect(0.0, 0.0, 0.25, 2000.0), SkippingPlacement(from, upper, lower, behind);
    assert DirectionalGap(origin, r[1].rect, ToRight) == Some(Gap(0.0, 1000.0));
    assert DirectionalGap(origin, r[2].rect, ToRight) == Some(Gap(0.0, 1000.0));
    assert DirectionalGap(origin, r[3].rect, ToRight) == Some(Gap(0.5, 2000.0));
  }

  lemma RowStep(d: SplitDirection, w: real, ws: seq<real>, child: Layout, children: seq<Layout>,
                area: Rect, usable: real, offset: real, slice: Rect, next: real)
    requires slice == Slice(area, d, offset, Portion(usable, w)) && next == offset + Portion(usable, w)
    ensures RectsFrom(d, [w] + ws, [child] + children, area, usable, 0.0, offset)
         == Rects(child, slice, 0.0) + RectsFrom(d, ws, children, area, usable, 0.0, next)
  {
    assert ([w] + ws)[1..] == ws && ([child] + children)[1..] == children;
    assert offset + (Portion(usable, w) + 0.0) == next;
  }

  lemma RowOfTwo(d: SplitDirection, v: real, w: real, a: Layout, b: Layout, area: Rect, usable: real, offset: real,
                 sa: Rect, sb: Rect)
    requires sa == Slice(area, d, offset, Portion(usable, v))
    requires sb == Slice(area, d, offset + Portion(usable, v), Portion(usable, w))
    ensures RectsFrom(d, [v, w], [a, b], area, usable, 0.0, offset) == Rects(a, sa, 0.0) + Rects(b, sb, 0.0)
  {
    var next := offset + Portion(usable, v);
    RowStep(d, v, [w], a, [b], area, usable, offset, sa, next);
    RowStep(d, w, [], b, [], area, usable, next, sb, next + Portion(usable, w));
    assert [v] + [w] == [v, w] && [a] + [b] == [a, b] && [w] + [] == [w] && [b] + [] == [b];
  }

  lemma RowOfThree(d: SplitDirection, v: real, w: real, x: real, a: Layout, b: Layout, c: Layout,
                   area: Rect, usable: real, sa: Rect, sb: Rect, sc: Rect)
    requires sa == Slice(area, d, 0.0, Portion(usable, v))
    requires sb == Slice(area, d, Portion(usable, v), Portion(usable, w))
    requires sc == Slice(area, d, Portion(usable, v) + Portion(usable, w), Portion(usable, x))
    ensures RectsFrom(d, [v, w, x], [a, b, c], area, usable, 0.0, 0.0)
         == Rects(a, sa, 0.0) + (Rects(b, sb, 0.0) + Rects(c, sc, 0.0))
  {
    RowStep(d, v, [w, x], a, [b, c], area, usable, 0.0, sa, Portion(usable, v));
    RowOfTwo(d, w, x, b, c, area, usable, Portion(usable, v), sb, sc);
    assert [v] + [w, x] == [v, w, x] && [a] + [b, c] == [a, b, c];
  }

  lemma PairLeaves(d: SplitDirection, v: real, w: real, a: Layout, b: Layout)
    ensures Leaves(Split(d, [v, w], [a, b])) == Leaves(a) + Leaves(b)
    ensures Sum([v, w]) == v + w
  {
    assert [a, b][1..] == [b] && [b][1..] == [] && [v, w][1..] == [w] && [w][1..] == [];
    assert LeavesOf([b]) == Leaves(b) + LeavesOf([]);
    assert Sum([w]) == w + Sum([]);
  }

  lemma TripleLeaves(d: SplitDirection, v: real, w: real, x: real, a: Layout, b: Layout, c: Layout)
    ensures Leaves(Split(d, [v, w, x], [a, b, c])) == Leaves(a) + (Leaves(b) + Leaves(c))
    ensures Sum([v, w, x]) == v + w + x
  {
    assert [a, b, c][1..] == [b, c] && [v, w, x][1..] == [w, x];
    PairLeaves(d, w, x, b, c);
  }
}
