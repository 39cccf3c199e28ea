/** Lists of panes: removing, inserting beside, swapping and keeping elements. */
module PaneOrder {
  import opened PaneTree
  import opened Sequences

  function Without(s: seq<PaneId>, pane: PaneId): (r: seq<PaneId>)
    ensures forall p :: p in r <==> p in s && p != pane
  {
    if s == [] then []
    else if s[0] == pane then Without(s[1..], pane)
    else [s[0]] + Without(s[1..], pane)
  }

  /** Puts pane right before or right after each occurrence of target. */
  function Beside(s: seq<PaneId>, target: PaneId, pane: PaneId, before: bool): (r: seq<PaneId>)
    ensures forall p :: p in r <==> p in s || (p == pane && target in s)
  {
    if s == [] then []
    else
      var rest := Beside(s[1..], target, pane, before);
      if s[0] == target then (if before then [pane, target] else [target, pane]) + rest
      else [s[0]] + rest
  }

  function Swapped(p: PaneId, first: PaneId, second: PaneId): PaneId {
    if p == first then second else if p == second then first else p
  }

  function SwapIn(s: seq<PaneId>, first: PaneId, second: PaneId): (r: seq<PaneId>)
    ensures |r| == |s| && forall i :: 0 <= i < |s| ==> r[i] == Swapped(s[i], first, second)
  {
    seq(|s|, i requires 0 <= i < |s| => Swapped(s[i], first, second))
  }

  lemma {:induction false} WithoutConcat(a: seq<PaneId>, b: seq<PaneId>, pane: PaneId)
    ensures Without(a + b, pane) == Without(a, pane) + Without(b, pane)
  {
    hide Without;
    if a == [] {
      assert a + b == b;
      NoneOf(pane, pane, false, {});
    } else {
      WithoutConcat(a[1..], b, pane);
      assert a + b == [a[0]] + (a[1..] + b) && a == [a[0]] + a[1..];
      WithoutCons(a[0], a[1..] + b, pane);
      WithoutCons(a[0], a[1..], pane);
    }
  }

  lemma WithoutCons(x: PaneId, s: seq<PaneId>, pane: PaneId)
    ensures Without([x] + s, pane) == (if x == pane then [] else [x]) + Without(s, pane)
  {
    assert ([x] + s)[1..] == s;
  }

  lemma BesideCons(x: PaneId, s: seq<PaneId>, target: PaneId, pane: PaneId, before: bool)
    ensures Beside([x] + s, target, pane, before)
      == (if x != target then [x] else if before then [pane, target] else [target, pane])
        + Beside(s, target, pane, before)
  {
    assert ([x] + s)[1..] == s;
  }

  lemma NoneOf(target: PaneId, pane: PaneId, before: bool, kept: set<PaneId>)
    ensures Without([], pane) == [] && Beside([], target, pane, before) == [] && Keep([], kept) == []
  {}

  lemma {:induction false} WithoutAbsent(s: seq<PaneId>, pane: PaneId)
    requires pane !in s
    ensures Without(s, pane) == s
  {
    if s != [] {
      WithoutAbsent(s[1..], pane);
    }
  }

  lemma {:induction false} BesideConcat(a: seq<PaneId>, b: seq<PaneId>, target: PaneId, pane: PaneId, before: bool)
    ensures Beside(a + b, target, pane, before) == Beside(a, target, pane, before) + Beside(b, target, pane, before)
  {
    hide Beside;
    if a == [] {
      assert a + b == b;
      NoneOf(target, pane, before, {});
    } else {
      BesideConcat(a[1..], b, target, pane, before);
      assert a + b == [a[0]] + (a[1..] + b) && a == [a[0]] + a[1..];
      BesideCons(a[0], a[1..] + b, target, pane, before);
      BesideCons(a[0], a[1..], target, pane, before);
    }
  }

  lemma {:induction false} BesideAbsent(s: seq<PaneId>, target: PaneId, pane: PaneId, before: bool)
    requires target !in s
    ensures Beside(s, target, pane, before) == s
  {
    if s != [] {
      BesideAbsent(s[1..], target, pane, before);
    }
  }

  lemma {:induction false} KeepConcat(a: seq<PaneId>, b: seq<PaneId>, kept: set<PaneId>)
    ensures Keep(a + b, kept) == Keep(a, kept) + Keep(b, kept)
  {
    hide Keep;
    if a == [] {
      assert a + b == b;
      NoneOf("", "", false, kept);
    } else {
      KeepConcat(a[1..], b, kept);
      assert a + b == [a[0]] + (a[1..] + b) && a == [a[0]] + a[1..];
      KeepCons(a[0], a[1..] + b, kept);
      KeepCons(a[0], a[1..], kept);
    }
  }

  lemma {:induction false} DistinctTail(s: seq<PaneId>)
    requires s != []
    ensures Distinct(s) <==> s[0] !in s[1..] && Distinct(s[1..])
  {
    if s[0] !in s[1..] && Distinct(s[1..]) {
      forall i, j | 0 <= i < j < |s| ensures s[i] != s[j] {
        assert s[j] == s[1..][j - 1];
        if i > 0 {
          assert s[i] == s[1..][i - 1];
        }
      }
    }
  }

  lemma DistinctAt(s: seq<PaneId>, i: nat, j: nat)
    requires Distinct(s) && i < j < |s|
    ensures s[i] != s[j]
  {
  }

  lemma DistinctConcat(a: seq<PaneId>, b: seq<PaneId>)
    ensures Distinct(a + b) <==> Distinct(a) && Distinct(b) && forall p :: p in a ==> p !in b
  {
    var ab := a + b;
    if Distinct(ab) {
      forall i, j | 0 <= i < j < |a| ensures a[i] != a[j] { assert ab[i] == a[i] && ab[j] == a[j]; }
      forall i, j | 0 <= i < j < |b| ensures b[i] != b[j] { assert ab[|a| + i] == b[i] && ab[|a| + j] == b[j]; }
      forall p | p in a ensures p !in b {
        if p in b {
          var i :| 0 <= i < |a| && a[i] == p;
          var j :| 0 <= j < |b| && b[j] == p;
          DistinctAt(ab, i, |a| + j);
        }
      }
    } else {
      var i, j :| 0 <= i < j < |ab| && ab[i] == ab[j];
      if j < |a| {
        assert a[i] == a[j];
      } else if i >= |a| {
        assert b[i - |a|] == b[j - |a|];
      } else {
        assert a[i] in a && b[j - |a|] in b;
      }
    }
  }

  lemma {:induction false} DistinctWithout(s: seq<PaneId>, pane: PaneId)
    requires Distinct(s)
    ensures Distinct(Without(s, pane))
  {
    if s != [] {
      DistinctTail(s);
      DistinctWithout(s[1..], pane);
      if s[0] != pane {
        DistinctTail(Without(s, pane));
      }
    }
  }

  lemma {:induction false} DistinctBeside(s: seq<PaneId>, target: PaneId, pane: PaneId, before: bool)
    requires Distinct(s) && pane !in s
    ensures Distinct(Beside(s, target, pane, before))
  {
    if s != [] {
      DistinctTail(s);
      DistinctBeside(s[1..], target, pane, before);
      var rest := Beside(s[1..], target, pane, before);
      var head := if s[0] != target then [s[0]] else if before then [pane, target] else [target, pane];
      if s[0] == target {
        BesideAbsent(s[1..], target, pane, before);
      }
      DistinctConcat(head, rest);
    }
  }

  lemma DistinctSwap(s: seq<PaneId>, first: PaneId, second: PaneId)
    requires Distinct(s)
    ensures Distinct(SwapIn(s, first, second))
  {
  }

  lemma {:induction false} BesideUndone(s: seq<PaneId>, target: PaneId, pane: PaneId, before: bool)
    requires target != pane && pane !in s
    ensures Without(Beside(s, target, pane, before), pane) == s
  {
    if s != [] {
      BesideUndone(s[1..], target, pane, before);
      var rest := Beside(s[1..], target, pane, before);
      if s[0] == target {
        var head := if before then [pane, target] else [target, pane];
        WithoutConcat(head, rest, pane);
        WithoutConcat([head[0]], [head[1]], pane);
        assert head == [head[0]] + [head[1]];
        assert Without([pane], pane) == [] && Without([target], pane) == [target];
      }
    }
  }

  lemma {:induction false} BesideCounts(s: seq<PaneId>, target: PaneId, pane: PaneId, before: bool)
    requires Distinct(s) && target in s
    ensures multiset(Beside(s, target, pane, before)) == multiset(s) + multiset{pane}
  {
    hide Beside;
    var x, rest := s[0], s[1..];
    DistinctTail(s);
    assert s == [x] + rest;
    BesideCons(x, rest, target, pane, before);
    if x == target {
      BesideAbsent(rest, target, pane, before);
      CountOne(if before then [pane, target] else [target, pane], target, pane, rest);
    } else {
      BesideCounts(rest, target, pane, before);
      assert multiset([x] + Beside(rest, target, pane, before)) == multiset{x} + (multiset(rest) + multiset{pane});
    }
  }

  lemma CountOne(head: seq<PaneId>, target: PaneId, pane: PaneId, rest: seq<PaneId>)
    requires head == [pane, target] || head == [target, pane]
    ensures multiset(head + rest) == multiset([target] + rest) + multiset{pane}
  {
    assert multiset(head) == multiset{target, pane};
  }

  /** In a list without repetition, pane lands next to target. */
  lemma {:induction false} BesideIsAdjacent(s: seq<PaneId>, target: PaneId, pane: PaneId, before: bool) returns (i: nat)
    requires target in s
    ensures var r := Beside(s, target, pane, before);
      i + 1 < |r| && (if before then r[i] == pane && r[i + 1] == target else r[i] == target && r[i + 1] == pane)
  {
    if s[0] == target {
      i := 0;
    } else {
      i := BesideIsAdjacent(s[1..], target, pane, before);
      i := i + 1;
    }
  }

  lemma {:induction false} WithoutCounts(s: seq<PaneId>, pane: PaneId)
    requires Distinct(s) && pane in s
    ensures multiset(s) == multiset(Without(s, pane)) + multiset{pane}
  {
    DistinctTail(s);
    assert s == [s[0]] + s[1..];
    if s[0] == pane {
      WithoutAbsent(s[1..], pane);
    } else {
      WithoutCounts(s[1..], pane);
      assert Without(s, pane) == [s[0]] + Without(s[1..], pane);
    }
  }

  lemma SwapKeepsMember(s: seq<PaneId>, first: PaneId, second: PaneId, p: PaneId)
    requires first in s && second in s && p in s
    ensures p in SwapIn(s, first, second)
  {
    var from := Swapped(p, first, second);
    assert from in s;
    var i :| 0 <= i < |s| && s[i] == from;
    assert SwapIn(s, first, second)[i] == p;
  }

  lemma {:induction false} KeepMembers(s: seq<PaneId>, kept: set<PaneId>)
    ensures forall p :: p in Keep(s, kept) <==> p in s && p in kept
  {
    if s != [] {
      KeepMembers(s[1..], kept);
    }
  }

  lemma {:induction false} KeepAll(s: seq<PaneId>, kept: set<PaneId>)
    requires forall p :: p in s ==> p in kept
    ensures Keep(s, kept) == s
  {
    if s != [] {
      KeepAll(s[1..], kept);
    }
  }

  lemma {:induction false} KeepNone(s: seq<PaneId>, kept: set<PaneId>)
    requires forall p :: p in s ==> p !in kept
    ensures Keep(s, kept) == []
  {
    if s != [] {
      KeepNone(s[1..], kept);
    }
  }

  lemma {:induction false} KeepWithout(s: seq<PaneId>, kept: set<PaneId>, pane: PaneId)
    requires pane !in kept
    ensures Keep(Without(s, pane), kept) == Keep(s, kept)
  {
    if s != [] {
      KeepWithout(s[1..], kept, pane);
    }
  }

  lemma {:induction false} KeepBeside(s: seq<PaneId>, kept: set<PaneId>, target: PaneId, pane: PaneId, before: bool)
    requires pane !in kept
    ensures Keep(Beside(s, target, pane, before), kept) == Keep(s, kept)
  {
    if s != [] {
      KeepBeside(s[1..], kept, target, pane, before);
      if s[0] == target {
        var head := if before then [pane, target] else [target, pane];
        assert head == [head[0]] + [head[1]];
        KeepConcat([head[0]], [head[1]], kept);
        KeepConcat(head, Beside(s[1..], target, pane, before), kept);
        assert Keep([pane], kept) == [] && Keep([target], kept) == (if target in kept then [target] else []);
      }
    }
  }
}
