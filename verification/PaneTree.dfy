/**
 The split tree behind a window's panes and its canonical form.

 A split lays its children out along one axis in proportion to their weights. The normaliser
 collapses splits with one child and splices a child split into a parent of the same direction,
 scaling its weights. Weights are reals: the checks for NaN, infinity and underflow have no
 counterpart here.
 */
module PaneTree {
  import opened Wrappers
  import opened Sequences

  type PaneId = string

  datatype SplitDirection = Right | Down

  datatype Layout =
    | Pane(id: PaneId)
    | Split(direction: SplitDirection, weights: seq<real>, children: seq<Layout>)

  /** The panes of a tree from left to right. */
  function Leaves(t: Layout): (r: seq<PaneId>)
    ensures t.Pane? ==> r == [t.id]
    decreases t, 1
  {
    match t
    case Pane(id) => [id]
    case Split(_, _, children) => LeavesOf(children)
  }

  function LeavesOf(ts: seq<Layout>): seq<PaneId>
    decreases ts, 0
  {
    if ts == [] then [] else Leaves(ts[0]) + LeavesOf(ts[1..])
  }

  lemma LeavesOfNothing()
    ensures LeavesOf([]) == []
  {}

  lemma LeavesOfCons(ts: seq<Layout>)
    requires ts != []
    ensures LeavesOf(ts) == Leaves(ts[0]) + LeavesOf(ts[1..])
  {}

  lemma {:induction false} LeavesOfConcat(a: seq<Layout>, b: seq<Layout>)
    ensures LeavesOf(a + b) == LeavesOf(a) + LeavesOf(b)
    decreases |a|
  {
    hide Leaves, LeavesOf;
    if a == [] {
      assert a + b == b;
      LeavesOfNothing();
    } else {
      LeavesOfConcat(a[1..], b);
      assert (a + b)[1..] == a[1..] + b;
      LeavesOfCons(a + b);
      LeavesOfCons(a);
    }
  }

  function Sum(ws: seq<real>): real {
    if ws == [] then 0.0 else ws[0] + Sum(ws[1..])
  }

  lemma {:induction false} SumConcat(a: seq<real>, b: seq<real>)
    ensures Sum(a + b) == Sum(a) + Sum(b)
  {
    if a == [] {
      assert a + b == b;
    } else {
      SumConcat(a[1..], b);
      assert (a + b)[1..] == a[1..] + b;
    }
  }

  predicate Positive(ws: seq<real>) {
    forall i :: 0 <= i < |ws| ==> ws[i] > 0.0
  }

  lemma {:induction false} SumPositive(ws: seq<real>)
    requires Positive(ws) && ws != []
    ensures Sum(ws) > 0.0
  {
    if |ws| > 1 {
      SumPositive(ws[1..]);
    }
  }

  function Scale(factor: real, ws: seq<real>): (r: seq<real>)
    ensures |r| == |ws| && forall i :: 0 <= i < |ws| ==> r[i] == factor * ws[i]
  {
    seq(|ws|, i requires 0 <= i < |ws| => factor * ws[i])
  }

  lemma ScaleTail(factor: real, ws: seq<real>)
    requires ws != []
    ensures Scale(factor, ws)[1..] == Scale(factor, ws[1..])
  {
    var a, b := Scale(factor, ws)[1..], Scale(factor, ws[1..]);
    forall i | 0 <= i < |a| ensures a[i] == b[i] {
      assert a[i] == factor * ws[i + 1];
      assert ws[1..][i] == ws[i + 1];
    }
  }

  lemma {:induction false} SumScale(factor: real, ws: seq<real>)
    ensures Sum(Scale(factor, ws)) == factor * Sum(ws)
  {
    if ws != [] {
      SumScale(factor, ws[1..]);
      ScaleTail(factor, ws);
    }
  }

  lemma ScalePositive(factor: real, ws: seq<real>)
    requires factor > 0.0 && Positive(ws)
    ensures Positive(Scale(factor, ws))
  {
    forall i | 0 <= i < |ws| ensures factor * ws[i] > 0.0 {
      assert ws[i] > 0.0;
    }
  }

  function Divided(ws: seq<real>, total: real): (r: seq<real>)
    requires total > 0.0
    ensures |r| == |ws|
  {
    if ws == [] then [] else [ws[0] / total] + Divided(ws[1..], total)
  }

  lemma QuotientLaws(a: real, b: real, total: real)
    requires total > 0.0
    ensures a / total + b / total == (a + b) / total
    ensures a > 0.0 ==> a / total > 0.0
    ensures total / total == 1.0
  {
  }

  lemma {:induction false} DividedCorrect(ws: seq<real>, total: real)
    requires Positive(ws) && total > 0.0
    ensures Positive(Divided(ws, total)) && Sum(Divided(ws, total)) == Sum(ws) / total
  {
    if ws != [] {
      var head, tail := ws[0] / total, Divided(ws[1..], total);
      DividedCorrect(ws[1..], total);
      QuotientLaws(ws[0], Sum(ws[1..]), total);
      assert ([head] + tail)[1..] == tail;
      assert Positive([head] + tail);
    }
  }

  lemma {:induction false} DividedAt(ws: seq<real>, total: real, i: nat)
    requires total > 0.0 && i < |ws|
    ensures Divided(ws, total)[i] == ws[i] / total
  {
    if i > 0 {
      DividedAt(ws[1..], total, i - 1);
    }
  }

  lemma {:induction false} DividedByOne(ws: seq<real>)
    ensures Divided(ws, 1.0) == ws
  {
    if ws != [] {
      DividedByOne(ws[1..]);
    }
  }

  /** Each weight as its share of the split's total. */
  function Shares(ws: seq<real>): (r: seq<real>)
    requires Positive(ws) && ws != []
    ensures |r| == |ws| && Positive(r) && Sum(r) == 1.0
  {
    SumPositive(ws);
    DividedCorrect(ws, Sum(ws));
    QuotientLaws(Sum(ws), 0.0, Sum(ws));
    Divided(ws, Sum(ws))
  }

  /** What a saved tree must satisfy to be accepted: every split has children, one positive weight each. */
  predicate WellFormed(t: Layout) {
    t.Split? ==>
      && t.children != []
      && |t.weights| == |t.children|
      && Positive(t.weights)
      && forall i :: 0 <= i < |t.children| ==> WellFormed(t.children[i])
  }

  /** The canonical form the server keeps. */
  predicate Canonical(t: Layout) {
    t.Split? ==>
      && |t.children| >= 2
      && |t.weights| == |t.children|
      && Positive(t.weights)
      && Sum(t.weights) == 1.0
      && forall i :: 0 <= i < |t.children| ==>
           Canonical(t.children[i]) && !SplitAlong(t.children[i], t.direction)
  }

  predicate SplitAlong(t: Layout, d: SplitDirection) {
    t.Split? && t.direction == d
  }

  // ----- The normaliser as a function

  /** Children and their weights, collected while a split is flattened. */
  datatype Flat = Flat(weights: seq<real>, children: seq<Layout>)

  /** What one normalised child of weight w contributes to a split along d. */
  function Pieces(d: SplitDirection, w: real, child: Layout): Flat {
    if SplitAlong(child, d)
    then Flat(Scale(w, child.weights), child.children)
    else Flat([w], [child])
  }

  function Normalize(t: Layout): Option<Layout>
    decreases t, 1
  {
    match t
    case Pane(_) => Some(t)
    case Split(d, weights, children) =>
      if children == [] || |children| != |weights| || !Positive(weights) then None
      else
        match Flatten(d, Shares(weights), children)
        case None => None
        case Some(flat) => Rebuild(d, flat)
  }

  function Rebuild(d: SplitDirection, flat: Flat): Option<Layout> {
    if |flat.children| == 1 then Some(flat.children[0])
    else if !Positive(flat.weights) then None
    else Some(Split(d, flat.weights, flat.children))
  }

  function Flatten(d: SplitDirection, shares: seq<real>, children: seq<Layout>): Option<Flat>
    requires |shares| == |children|
    decreases children, 0
  {
    if children == [] then Some(Flat([], []))
    else
      match Normalize(children[0])
      case None => None
      case Some(child) =>
        match Flatten(d, shares[1..], children[1..])
        case None => None
        case Some(rest) =>
          var piece := Pieces(d, shares[0], child);
          Some(Flat(piece.weights + rest.weights, piece.children + rest.children))
  }

  // ----- The normaliser as the loop the server runs

  method NormalizeTree(node: Layout) returns (result: Option<Layout>)
    ensures result == Normalize(node)
    decreases node
  {
    if node.Pane? {
      return Some(node);
    }
    var d, weights, children := node.direction, node.weights, node.children;
    if children == [] || |children| != |weights| || !Positive(weights) {
      return None;
    }
    hide Sum, Scale, Flatten, Prepend, Pieces;
    SumPositive(weights);
    var total := Sum(weights);
    var flatWeights: seq<real> := [];
    var flatChildren: seq<Layout> := [];
    ghost var shares := Shares(weights);
    ghost var whole := Flatten(d, shares, children);
    var i := 0;
    assert shares[0..] == shares && children[0..] == children;
    PrependNothing(whole);
    while i < |children|
      invariant 0 <= i <= |children|
      invariant whole == Prepend(Flat(flatWeights, flatChildren), Flatten(d, shares[i..], children[i..]))
    {
      var weight := weights[i] / total;
      DividedAt(weights, total, i);
      var normalized := NormalizeTree(children[i]);
      FlattenAt(d, shares, children, i);
      if normalized.None? {
        PrependFailure(Flat(flatWeights, flatChildren));
        return None;
      }
      var child := normalized.value;
      PiecesAre(d, weight, child);
      PrependPiece(Flat(flatWeights, flatChildren), Pieces(d, weight, child),
                   Flatten(d, shares[i + 1..], children[i + 1..]));
      if child.Split? && child.direction == d {
        flatWeights := flatWeights + Scale(weight, child.weights);
        flatChildren := flatChildren + child.children;
      } else {
        flatChildren := flatChildren + [child];
        flatWeights := flatWeights + [weight];
      }
      i := i + 1;
    }
    FlattenEnds(d, shares, children, Flat(flatWeights, flatChildren));
    if |flatChildren| == 1 {
      return Some(flatChildren[0]);
    }
    if !Positive(flatWeights) {
      return None;
    }
    result := Some(Split(d, flatWeights, flatChildren));
  }

  /** Puts already collected pieces in front of a later result. */
  ghost function Prepend(flat: Flat, rest: Option<Flat>): Option<Flat> {
    match rest
    case None => None
    case Some(r) => Some(Flat(flat.weights + r.weights, flat.children + r.children))
  }

  lemma PrependNothing(rest: Option<Flat>)
    ensures Prepend(Flat([], []), rest) == rest
  {
    if rest.Some? {
      assert [] + rest.value.weights == rest.value.weights;
      assert [] + rest.value.children == rest.value.children;
    }
  }

  lemma PrependFailure(flat: Flat)
    ensures Prepend(flat, None) == None
  {}

  lemma FlattenAt(d: SplitDirection, shares: seq<real>, children: seq<Layout>, i: nat)
    requires |shares| == |children| && i < |children|
    ensures Flatten(d, shares[i..], children[i..])
      == if Normalize(children[i]).None? then None
         else Prepend(Pieces(d, shares[i], Normalize(children[i]).value),
           Flatten(d, shares[i + 1..], children[i + 1..]))
  {
    assert shares[i..][1..] == shares[i + 1..] && children[i..][1..] == children[i + 1..];
  }

  lemma FlattenEnds(d: SplitDirection, shares: seq<real>, children: seq<Layout>, flat: Flat)
    requires |shares| == |children|
    ensures Prepend(flat, Flatten(d, shares[|children|..], children[|children|..])) == Some(flat)
  {
    assert flat.weights + [] == flat.weights && flat.children + [] == flat.children;
  }

  lemma PiecesAre(d: SplitDirection, w: real, child: Layout)
    ensures Pieces(d, w, child)
      == if child.Split?
        && child.direction == d then Flat(Scale(w, child.weights), child.children) else Flat([w], [child])
  {}

  lemma PrependPiece(flat: Flat, piece: Flat, rest: Option<Flat>)
    ensures Prepend(flat, Prepend(piece, rest))
         == Prepend(Flat(flat.weights + piece.weights, flat.children + piece.children), rest)
  {
    if rest.Some? {
      assert flat.weights + (piece.weights + rest.value.weights) == flat.weights + piece.weights + rest.value.weights;
      assert flat.children + (piece.children + rest.value.children) == flat.children + piece.children
        + rest.value.children;
    }
  }

  // ----- What normalising means

  /** Normalising accepts exactly the well-formed trees; the result is canonical with the same panes. */
  lemma {:induction false} NormalizeCorrect(t: Layout)
    ensures Normalize(t).Some? <==> WellFormed(t)
    ensures Normalize(t).Some? ==> Canonical(Normalize(t).value) && Leaves(Normalize(t).value) == Leaves(t)
    decreases t, 1
  {
    if t.Split? && t.children != [] && |t.children| == |t.weights| && Positive(t.weights) {
      var shares := Shares(t.weights);
      FlattenCorrect(t.direction, shares, t.children);
      var flat := Flatten(t.direction, shares, t.children);
      if flat.Some? && |flat.value.children| == 1 {
        var only := flat.value.children;
        assert LeavesOf(only) == Leaves(only[0]) + LeavesOf(only[1..]) == Leaves(only[0]);
      }
    }
  }

  /** Weighted children that can stand in a split along d. */
  ghost predicate RowAlong(d: SplitDirection, flat: Flat) {
    && |flat.weights| == |flat.children|
    && Positive(flat.weights)
    && forall i :: 0 <= i < |flat.children| ==>
         Canonical(flat.children[i]) && !SplitAlong(flat.children[i], d)
  }

  lemma RowConcat(d: SplitDirection, a: Flat, b: Flat)
    requires RowAlong(d, a) && RowAlong(d, b)
    ensures RowAlong(d, Flat(a.weights + b.weights, a.children + b.children))
  {
  }

  lemma PiecesCorrect(d: SplitDirection, w: real, child: Layout)
    requires w > 0.0 && Canonical(child)
    ensures var p := Pieces(d, w, child);
      RowAlong(d, p) && Sum(p.weights) == w && LeavesOf(p.children) == Leaves(child) && p.children != []
  {
    if SplitAlong(child, d) {
      SumScale(w, child.weights);
      ScalePositive(w, child.weights);
    } else {
      assert Sum([w]) == w + Sum([]) == w;
      assert LeavesOf([child]) == Leaves(child) + LeavesOf([]) == Leaves(child);
    }
  }

  ghost predicate AllWellFormed(ts: seq<Layout>) {
    forall i :: 0 <= i < |ts| ==> WellFormed(ts[i])
  }

  lemma AllWellFormedTail(ts: seq<Layout>)
    requires ts != []
    ensures AllWellFormed(ts) <==> WellFormed(ts[0]) && AllWellFormed(ts[1..])
  {
    if WellFormed(ts[0]) && AllWellFormed(ts[1..]) {
      forall i | 0 <= i < |ts| ensures WellFormed(ts[i]) {
        if i > 0 {
          assert ts[i] == ts[1..][i - 1];
        }
      }
    }
  }

  lemma {:induction false} FlattenCorrect(d: SplitDirection, shares: seq<real>, children: seq<Layout>)
    requires |shares| == |children| && Positive(shares)
    ensures var flat := Flatten(d, shares, children);
      && (flat.Some? <==> AllWellFormed(children))
      && (flat.Some? ==>
            && RowAlong(d, flat.value)
            && Sum(flat.value.weights) == Sum(shares)
            && LeavesOf(flat.value.children) == LeavesOf(children)
            && |flat.value.children| >= |children|)
    decreases children, 0
  {
    if children != [] {
      NormalizeCorrect(children[0]);
      FlattenCorrect(d, shares[1..], children[1..]);
      AllWellFormedTail(children);
      var head := Normalize(children[0]);
      var rest := Flatten(d, shares[1..], children[1..]);
      if head.Some? && rest.Some? {
        var piece := Pieces(d, shares[0], head.value);
        PiecesCorrect(d, shares[0], head.value);
        RowConcat(d, piece, rest.value);
        SumConcat(piece.weights, rest.value.weights);
        LeavesOfConcat(piece.children, rest.value.children);
      }
    }
  }

  /** A canonical tree is its own normal form, so normalising twice changes nothing. */
  lemma {:induction false} NormalizeCanonical(t: Layout)
    requires Canonical(t)
    ensures Normalize(t) == Some(t)
    decreases t, 1
  {
    if t.Split? {
      DividedByOne(t.weights);
      FlattenCanonical(t.direction, t.weights, t.children);
    }
  }

  lemma {:induction false} FlattenCanonical(d: SplitDirection, weights: seq<real>, children: seq<Layout>)
    requires RowAlong(d, Flat(weights, children))
    ensures Flatten(d, weights, children) == Some(Flat(weights, children))
    decreases children, 0
  {
    if children != [] {
      NormalizeCanonical(children[0]);
      FlattenCanonical(d, weights[1..], children[1..]);
      assert [weights[0]] + weights[1..] == weights;
      assert [children[0]] + children[1..] == children;
    }
  }

  lemma NormalizeIdempotent(t: Layout)
    requires WellFormed(t)
    ensures Normalize(t).Some? && Normalize(Normalize(t).value) == Normalize(t)
  {
    NormalizeCorrect(t);
    NormalizeCanonical(Normalize(t).value);
  }

  lemma {:induction false} CanonicalWellFormed(t: Layout)
    requires Canonical(t)
    ensures WellFormed(t)
  {
    if t.Split? {
      forall i | 0 <= i < |t.children| ensures WellFormed(t.children[i]) {
        CanonicalWellFormed(t.children[i]);
      }
    }
  }
}
