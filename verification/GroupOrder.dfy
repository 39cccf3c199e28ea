/**
 Lists of sessions in groups: a group is one contiguous run, and lists are taken apart and put
 together at places where no group runs across.
 */
module GroupOrder {
  /** A claimed session. Its label is the name bootty gave it, or else the backend's. */
  datatype Member = Member(identity: string, backendName: string, displayName: string)

  function Label(m: Member): string {
    if m.displayName == "" then m.backendName else m.displayName
  }

  /** The part of a label before its first slash, or nothing. */
  function GroupOfLabel(name: string): string {
    if '/' in name then Before(name) else ""
  }

  /** What stands before the first slash. */
  function Before(s: string): string {
    if s == "" || s[0] == '/' then "" else [s[0]] + Before(s[1..])
  }

  /**
   A label's group has no slash and is followed by one. A label has no group exactly when it has no
   slash, or starts with one.
   */
  lemma GroupOfLabelIs(name: string)
    ensures var group := GroupOfLabel(name);
      && '/' !in group
      && (group != "" ==> |group| < |name| && name[..|group|] == group && name[|group|] == '/')
      && (group == "" <==> '/' !in name || name[0] == '/')
  {
    if '/' in name {
      BeforeIs(name);
    }
  }

  lemma {:induction false} BeforeIs(s: string)
    requires '/' in s
    ensures var r := Before(s); |r| < |s| && s[..|r|] == r && s[|r|] == '/' && '/' !in r
  {
    if s[0] != '/' {
      BeforeIs(s[1..]);
      assert s == [s[0]] + s[1..];
    }
  }

  function Group(m: Member): string {
    GroupOfLabel(Label(m))
  }

  // ----- Contiguous groups

  /** The members of a group have no others between them. */
  ghost predicate Contiguous(s: seq<Member>) {
    forall i, j, k :: 0 <= i < j < k < |s| && Group(s[i]) != "" && Group(s[i]) == Group(s[k])
      ==> Group(s[j]) == Group(s[i])
  }

  ghost predicate DistinctIds(s: seq<Member>) {
    forall i, j :: 0 <= i < j < |s| ==> s[i].identity != s[j].identity
  }

  /** No group has members in both. */
  ghost predicate Apart(a: seq<Member>, b: seq<Member>) {
    forall i, j :: 0 <= i < |a| && 0 <= j < |b| && Group(a[i]) != "" ==> Group(a[i]) != Group(b[j])
  }

  /** No group runs across this place. */
  ghost predicate Cut(s: seq<Member>, at: nat)
    requires at <= |s|
  {
    Apart(s[..at], s[at..])
  }

  lemma Straddle(a: seq<Member>, b: seq<Member>, i: int, k: int)
    requires Apart(a, b) && 0 <= i < |a| <= k < |a| + |b|
    ensures Group((a + b)[i]) == "" || Group((a + b)[i]) != Group((a + b)[k])
  {
    hide Group;
  }

  lemma ContiguousConcat(a: seq<Member>, b: seq<Member>)
    requires Contiguous(a) && Contiguous(b) && Apart(a, b)
    ensures Contiguous(a + b)
  {
    hide Group;
    var s := a + b;
    forall i, j, k | 0 <= i < j < k < |s| && Group(s[i]) != "" && Group(s[i]) == Group(s[k])
      ensures Group(s[j]) == Group(s[i])
    {
      if k < |a| {
        assert s[i] == a[i] && s[j] == a[j] && s[k] == a[k];
      } else if i < |a| {
        Straddle(a, b, i, k);
      } else {
        assert s[i] == b[i - |a|] && s[j] == b[j - |a|] && s[k] == b[k - |a|];
      }
    }
  }

  lemma ContiguousSlice(s: seq<Member>, a: nat, b: nat)
    requires Contiguous(s) && a <= b <= |s|
    ensures Contiguous(s[a..b])
  {
    hide Group;
    var t := s[a..b];
    forall i, j, k | 0 <= i < j < k < |t| && Group(t[i]) != "" && Group(t[i]) == Group(t[k])
      ensures Group(t[j]) == Group(t[i])
    {
      assert t[i] == s[a + i] && t[j] == s[a + j] && t[k] == s[a + k];
    }
  }

  lemma ApartConcat(a: seq<Member>, b: seq<Member>, c: seq<Member>)
    requires Apart(a, c) && Apart(b, c)
    ensures Apart(a + b, c) && Apart(c, a + b)
  {
    hide Group;
  }

  lemma CutParts(s: seq<Member>, a: nat, b: nat, c: nat, d: nat, at: nat)
    requires a <= b <= at <= c <= d <= |s| && Cut(s, at)
    ensures Apart(s[a..b], s[c..d]) && Apart(s[c..d], s[a..b])
  {
    hide Group;
    var left, right := s[..at], s[at..];
    forall i, j | 0 <= i < b - a && 0 <= j < d - c && Group(s[a..b][i]) != ""
      ensures Group(s[a..b][i]) != Group(s[c..d][j])
    {
      assert s[a..b][i] == left[a + i] && s[c..d][j] == right[c + j - at];
    }
    forall i, j | 0 <= i < d - c && 0 <= j < b - a && Group(s[c..d][i]) != ""
      ensures Group(s[c..d][i]) != Group(s[a..b][j])
    {
      assert s[a..b][j] == left[a + j] && s[c..d][i] == right[c + i - at];
    }
  }

  // ----- Exchanging neighbouring parts

  /** The parts from a to b and from b to c change places. */
  function Exchange<T>(s: seq<T>, a: nat, b: nat, c: nat): seq<T>
    requires a <= b <= c <= |s|
  {
    s[..a] + s[b..c] + s[a..b] + s[c..]
  }

  lemma ExchangePermutes<T>(s: seq<T>, a: nat, b: nat, c: nat)
    requires a <= b <= c <= |s|
    ensures |Exchange(s, a, b, c)| == |s| && multiset(Exchange(s, a, b, c)) == multiset(s)
  {
    assert s == s[..a] + s[a..b] + s[b..c] + s[c..];
  }

  /** Exchanging parts at cuts keeps every group in one run. */
  lemma ExchangeKeepsContiguous(s: seq<Member>, a: nat, b: nat, c: nat)
    requires a <= b <= c <= |s| && Contiguous(s) && Cut(s, a) && Cut(s, b) && Cut(s, c)
    ensures Contiguous(Exchange(s, a, b, c))
  {
    hide Contiguous, Apart, Cut;
    ContiguousSlice(s, 0, a);
    ContiguousSlice(s, a, b);
    ContiguousSlice(s, b, c);
    ContiguousSlice(s, c, |s|);
    var p, x, y, q := s[0..a], s[a..b], s[b..c], s[c..|s|];
    CutParts(s, a, b, b, c, b);
    CutParts(s, 0, a, a, b, a);
    CutParts(s, 0, a, b, c, a);
    CutParts(s, 0, a, c, |s|, a);
    CutParts(s, a, b, c, |s|, b);
    CutParts(s, b, c, c, |s|, c);
    ContiguousConcat(p, y);
    ApartConcat(p, y, x);
    ContiguousConcat(p + y, x);
    ApartConcat(p, y, q);
    ApartConcat(p + y, x, q);
    ContiguousConcat(p + y + x, q);
    assert Exchange(s, a, b, c) == p + y + x + q;
  }

  // ----- Identities

  function Identities(s: seq<Member>): (r: seq<string>)
    ensures |r| == |s| && forall i :: 0 <= i < |r| ==> r[i] == s[i].identity
  {
    seq(|s|, i requires 0 <= i < |s| => s[i].identity)
  }

  lemma DistinctByCount(s: seq<Member>)
    ensures DistinctIds(s) <==> forall x: string :: multiset(Identities(s))[x] <= 1
  {
    var ids := Identities(s);
    if DistinctIds(s) {
      forall x: string ensures multiset(ids)[x] <= 1 {
        CountOfDistinct(ids, x);
      }
    }
    if forall x: string :: multiset(ids)[x] <= 1 {
      forall i, j | 0 <= i < j < |s| ensures s[i].identity != s[j].identity {
        if ids[i] == ids[j] {
          CountOfTwo(ids, i, j);
        }
      }
    }
  }

  lemma {:induction false} CountOfDistinct(ids: seq<string>, x: string)
    requires forall i, j :: 0 <= i < j < |ids| ==> ids[i] != ids[j]
    ensures multiset(ids)[x] <= 1
  {
    if ids != [] {
      var rest := ids[1..];
      assert ids == [ids[0]] + rest;
      CountOfDistinct(rest, x);
      if x == ids[0] {
        assert x !in rest;
      }
    }
  }

  lemma CountOfTwo(ids: seq<string>, i: nat, j: nat)
    requires i < j < |ids| && ids[i] == ids[j]
    ensures multiset(ids)[ids[i]] >= 2
  {
    assert ids == ids[..j] + [ids[j]] + ids[j + 1..];
    assert ids[i] in ids[..j];
  }

  lemma ExchangeKeepsDistinct(s: seq<Member>, a: nat, b: nat, c: nat)
    requires a <= b <= c <= |s| && DistinctIds(s)
    ensures DistinctIds(Exchange(s, a, b, c))
  {
    var ids := Identities(s);
    assert Identities(Exchange(s, a, b, c)) == Exchange(ids, a, b, c);
    ExchangePermutes(ids, a, b, c);
    DistinctByCount(s);
    DistinctByCount(Exchange(s, a, b, c));
  }
}
