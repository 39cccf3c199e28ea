/**
 Sessions as the backend reports them, the stable order a refresh gives them, and the selection that
 survives a refresh.
 */
module Sessions {
  import opened Wrappers
  import opened Sequences

  datatype PaneAnchor = PaneAnchor(paneId: Option<string>, pid: Option<nat>, process: Option<string>)

  datatype MuxWindow = MuxWindow(id: string, anchor: PaneAnchor, panes: seq<PaneAnchor>)

  datatype MuxSession = MuxSession(id: string, name: string, active: bool, activeWindowId: Option<string>,
    windows: seq<MuxWindow>)

  predicate SessionMatches(session: MuxSession, key: string) {
    session.id == key || session.name == key
  }

  // ----- The stable order

  predicate SameSession(session: MuxSession, known: MuxSession) {
    session.id == known.id || session.name == known.name
  }

  /** The first session that is the old one, by id or by name, or the end. */
  function Position(sessions: seq<MuxSession>, known: MuxSession): (r: nat)
    ensures r <= |sessions|
    ensures forall k :: 0 <= k < r ==> !SameSession(sessions[k], known)
    ensures r < |sessions| ==> SameSession(sessions[r], known)
  {
    if sessions == [] || SameSession(sessions[0], known) then 0 else 1 + Position(sessions[1..], known)
  }

  /** The refreshed sessions, the ones known before first and in their old order. */
  function StableOrder(previous: seq<MuxSession>, refreshed: seq<MuxSession>): seq<MuxSession> {
    if previous == [] then refreshed
    else
      var i := Position(refreshed, previous[0]);
      if i < |refreshed| then [refreshed[i]] + StableOrder(previous[1..], RemoveAt(refreshed, i))
      else StableOrder(previous[1..], refreshed)
  }

  method StableSessionOrder(previous: seq<MuxSession>, refreshed: seq<MuxSession>) returns (ordered: seq<MuxSession>)
    ensures ordered == StableOrder(previous, refreshed)
  {
    hide Position, RemoveAt, StableOrder;
    ordered := [];
    var remaining := refreshed;
    var k := 0;
    assert previous[0..] == previous;
    while k < |previous|
      invariant 0 <= k <= |previous|
      invariant StableOrder(previous, refreshed) == ordered + StableOrder(previous[k..], remaining)
    {
      StableOrderStep(previous, remaining, k);
      var i := Position(remaining, previous[k]);
      if i < |remaining| {
        ConcatAssoc(ordered, [remaining[i]], StableOrder(previous[k + 1..], RemoveAt(remaining, i)));
        ordered, remaining := ordered + [remaining[i]], RemoveAt(remaining, i);
      }
      k := k + 1;
    }
    assert previous[k..] == [];
    NoneKnown(remaining);
    ordered := ordered + remaining;
  }

  lemma NoneKnown(refreshed: seq<MuxSession>)
    ensures StableOrder([], refreshed) == refreshed
  {}

  lemma StableOrderStep(previous: seq<MuxSession>, remaining: seq<MuxSession>, k: nat)
    requires k < |previous|
    ensures var i := Position(remaining, previous[k]);
      StableOrder(previous[k..], remaining)
      == if i < |remaining| then [remaining[i]] + StableOrder(previous[k + 1..], RemoveAt(remaining, i))
         else StableOrder(previous[k + 1..], remaining)
  {
    hide Position, RemoveAt;
    assert previous[k..][1..] == previous[k + 1..];
  }

  /** No refreshed session is lost or reported twice. */
  lemma {:induction false} StableOrderPermutes(previous: seq<MuxSession>, refreshed: seq<MuxSession>)
    ensures multiset(StableOrder(previous, refreshed)) == multiset(refreshed)
    decreases |previous|
  {
    if previous != [] {
      var i := Position(refreshed, previous[0]);
      if i < |refreshed| {
        StableOrderPermutes(previous[1..], RemoveAt(refreshed, i));
        RemoveAtCounts(refreshed, i);
        assert refreshed[i] in multiset(refreshed);
      } else {
        StableOrderPermutes(previous[1..], refreshed);
      }
    }
  }

  /** Ids and names each identify a session. */
  ghost predicate Identified(sessions: seq<MuxSession>) {
    forall i, j :: 0 <= i < |sessions| && 0 <= j < |sessions| && i != j ==> !SameSession(sessions[i], sessions[j])
  }

  lemma TailPermutes(first: MuxSession, rest: seq<MuxSession>, refreshed: seq<MuxSession>, i: nat)
    requires i < |refreshed| && refreshed[i] == first && multiset(refreshed) == multiset([first] + rest)
    ensures multiset(RemoveAt(refreshed, i)) == multiset(rest)
  {
    RemoveAtCounts(refreshed, i);
  }

  /** A session that is reported is found by itself. */
  lemma FindsItself(ordered: seq<MuxSession>, refreshed: seq<MuxSession>)
    requires ordered != [] && Identified(ordered) && multiset(refreshed) == multiset(ordered)
    ensures var i := Position(refreshed, ordered[0]); i < |refreshed| && refreshed[i] == ordered[0]
  {
    hide Position;
    assert ordered[0] in multiset(refreshed);
    var at :| 0 <= at < |refreshed| && refreshed[at] == ordered[0];
    var i := Position(refreshed, ordered[0]);
    assert refreshed[i] in multiset(ordered);
    var k :| 0 <= k < |ordered| && ordered[k] == refreshed[i];
  }

  lemma IdentifiedTail(ordered: seq<MuxSession>)
    requires ordered != [] && Identified(ordered)
    ensures Identified(ordered[1..])
  {
    hide SameSession;
    var rest := ordered[1..];
    forall i, j | 0 <= i < |rest| && 0 <= j < |rest| && i != j ensures !SameSession(rest[i], rest[j]) {
      assert rest[i] == ordered[i + 1] && rest[j] == ordered[j + 1];
    }
  }

  lemma SameSizes(ordered: seq<MuxSession>, refreshed: seq<MuxSession>)
    requires multiset(refreshed) == multiset(ordered)
    ensures |refreshed| == |ordered|
  {
    assert |refreshed| == |multiset(refreshed)| && |ordered| == |multiset(ordered)|;
  }

  /** A refresh that reports the same sessions in another order keeps the order they have. */
  lemma {:induction false} SameSessionsKeepOrder(ordered: seq<MuxSession>, refreshed: seq<MuxSession>)
    requires Identified(ordered) && multiset(refreshed) == multiset(ordered)
    ensures StableOrder(ordered, refreshed) == ordered
    decreases |ordered|
  {
    hide Identified, Position, RemoveAt;
    SameSizes(ordered, refreshed);
    if ordered != [] {
      var first, rest := ordered[0], ordered[1..];
      assert ordered == [first] + rest;
      var i := Position(refreshed, first);
      FindsItself(ordered, refreshed);
      IdentifiedTail(ordered);
      TailPermutes(first, rest, refreshed, i);
      SameSessionsKeepOrder(rest, RemoveAt(refreshed, i));
    }
  }

  // ----- The order of survivors

  function Ids(sessions: seq<MuxSession>): (r: seq<string>)
    ensures |r| == |sessions| && forall i :: 0 <= i < |r| ==> r[i] == sessions[i].id
  {
    seq(|sessions|, i requires 0 <= i < |sessions| => sessions[i].id)
  }

  function Dropped(s: seq<string>, dropped: set<string>): seq<string> {
    if s == [] then [] else (if s[0] in dropped then [] else [s[0]]) + Dropped(s[1..], dropped)
  }

  /** Nothing was renamed: an old and a refreshed session share an id exactly when they share a name. */
  ghost predicate Unrenamed(previous: seq<MuxSession>, refreshed: seq<MuxSession>) {
    forall p, s :: p in previous && s in refreshed ==> (p.id == s.id <==> p.name == s.name)
  }

  lemma {:induction false} KeptSame(s: seq<string>, a: set<string>, b: set<string>)
    requires forall x :: x in s ==> (x in a <==> x in b)
    ensures Keep(s, a) == Keep(s, b) && Dropped(s, a) == Dropped(s, b)
  {
    if s != [] {
      KeptSame(s[1..], a, b);
    }
  }

  lemma {:induction false} DroppedAll(s: seq<string>)
    ensures Dropped(s, {}) == s
  {
    if s != [] {
      DroppedAll(s[1..]);
    }
  }

  lemma {:induction false} DroppedConcat(a: seq<string>, b: seq<string>, dropped: set<string>)
    ensures Dropped(a + b, dropped) == Dropped(a, dropped) + Dropped(b, dropped)
  {
    if a == [] {
      assert a + b == b;
    } else {
      assert (a + b)[1..] == a[1..] + b;
      DroppedConcat(a[1..], b, dropped);
    }
  }

  /** Removing an entry that would be dropped anyway changes nothing. */
  lemma DroppedWithout(s: seq<string>, i: nat, dropped: set<string>)
    requires i < |s| && s[i] in dropped
    ensures Dropped(RemoveAt(s, i), dropped) == Dropped(s, dropped)
  {
    hide Dropped;
    DroppedConcat(s[..i], s[i + 1..], dropped);
    DroppedConcat(s[..i], [s[i]], dropped);
    DroppedConcat(s[..i] + [s[i]], s[i + 1..], dropped);
    assert s == s[..i] + [s[i]] + s[i + 1..];
    DroppedOne(s[i], dropped);
  }

  lemma DroppedOne(x: string, dropped: set<string>)
    requires x in dropped
    ensures Dropped([x], dropped) == []
  {}

  /** Taking one id from its place to the front, on ids alone. */
  lemma SurvivorIds(x: string, rest: seq<string>, ids: seq<string>, i: nat)
    requires Distinct(ids) && i < |ids| && ids[i] == x && x !in rest
    ensures [x] + (Keep(rest, SetOf(RemoveAt(ids, i))) + Dropped(RemoveAt(ids, i), SetOf(rest)))
      == Keep([x] + rest, SetOf(ids)) + Dropped(ids, SetOf([x] + rest))
  {
    hide Keep, Dropped, RemoveAt, Distinct;
    var remaining := RemoveAt(ids, i);
    OthersRemain(ids, i);
    KeepCons(x, rest, SetOf(ids));
    KeptSame(rest, SetOf(remaining), SetOf(ids));
    DroppedWithout(ids, i, SetOf([x] + rest));
    KeptSame(remaining, SetOf(rest), SetOf([x] + rest));
    ConcatAssoc([x], Keep(rest, SetOf(ids)), Dropped(remaining, SetOf(rest)));
  }

  lemma OthersRemain(ids: seq<string>, i: nat)
    requires Distinct(ids) && i < |ids|
    ensures forall x :: x in RemoveAt(ids, i) <==> x in ids && x != ids[i]
  {
    forall x | x in ids && x != ids[i] ensures x in RemoveAt(ids, i) {
      var k :| 0 <= k < |ids| && ids[k] == x;
      assert RemoveAt(ids, i)[if k < i then k else k - 1] == x;
    }
  }

  lemma GoneIds(x: string, rest: seq<string>, ids: seq<string>)
    requires x !in ids
    ensures Keep(rest, SetOf(ids)) + Dropped(ids, SetOf(rest)) == Keep([x] + rest, SetOf(ids))
      + Dropped(ids, SetOf([x] + rest))
  {
    hide Keep, Dropped;
    KeepCons(x, rest, SetOf(ids));
    KeptSame(ids, SetOf(rest), SetOf([x] + rest));
  }

  lemma IdsCons(session: MuxSession, rest: seq<MuxSession>)
    ensures Ids([session] + rest) == [session.id] + Ids(rest)
  {}

  /** Without renames, a refresh gives the survivors in their old order, and the new sessions after them in theirs. */
  lemma {:induction false} SurvivorsKeepOrder(previous: seq<MuxSession>, refreshed: seq<MuxSession>)
    requires Distinct(Ids(previous)) && Distinct(Ids(refreshed)) && Unrenamed(previous, refreshed)
    ensures Ids(StableOrder(previous, refreshed))
      == Keep(Ids(previous), SetOf(Ids(refreshed))) + Dropped(Ids(refreshed), SetOf(Ids(previous)))
    decreases |previous|
  {
    hide Keep, Dropped, SetOf, RemoveAt;
    if previous == [] {
      NoPrevious(Ids(refreshed));
      assert Ids(previous) == [];
    } else {
      var known, rest := previous[0], previous[1..];
      var i := Position(refreshed, known);
      assert previous == [known] + rest;
      IdsCons(known, rest);
      DistinctCons(known.id, Ids(rest));
      if i < |refreshed| {
        var remaining := RemoveAt(refreshed, i);
        RemovedIds(refreshed, i);
        SurvivorsKeepOrder(rest, remaining);
        SurvivorIds(known.id, Ids(rest), Ids(refreshed), i);
        IdsCons(refreshed[i], StableOrder(rest, remaining));
      } else {
        SurvivorsKeepOrder(rest, refreshed);
        GoneIds(known.id, Ids(rest), Ids(refreshed));
      }
    }
  }

  lemma DistinctCons(x: string, rest: seq<string>)
    requires Distinct([x] + rest)
    ensures x !in rest && Distinct(rest)
  {
    var s := [x] + rest;
    forall k | 0 <= k < |rest| ensures rest[k] != x {
      assert s[0] != s[k + 1];
    }
    forall i, j | 0 <= i < j < |rest| ensures rest[i] != rest[j] {
      assert s[i + 1] != s[j + 1];
    }
  }

  lemma NoPrevious(ids: seq<string>)
    ensures Keep([], SetOf(ids)) + Dropped(ids, SetOf([])) == ids
  {
    assert SetOf<string>([]) == {};
    DroppedAll(ids);
  }

  lemma KeptNone(kept: set<string>)
    ensures Keep([], kept) == []
  {}

  lemma RemovedIds(sessions: seq<MuxSession>, i: nat)
    requires i < |sessions| && Distinct(Ids(sessions))
    ensures Ids(RemoveAt(sessions, i)) == RemoveAt(Ids(sessions), i)
    ensures Distinct(Ids(RemoveAt(sessions, i)))
    ensures forall x :: x in Ids(RemoveAt(sessions, i)) <==> x in Ids(sessions) && x != sessions[i].id
    ensures forall s :: s in RemoveAt(sessions, i) ==> s in sessions
  {
    var removed := RemoveAt(sessions, i);
    forall x | x in Ids(sessions) && x != sessions[i].id ensures x in Ids(removed) {
      var k :| 0 <= k < |sessions| && sessions[k].id == x;
      assert Ids(removed)[if k < i then k else k - 1] == x;
    }
  }

  // ----- A Space's order

  function NamePosition(sessions: seq<MuxSession>, name: string): (r: nat)
    ensures r <= |sessions|
    ensures forall k :: 0 <= k < r ==> sessions[k].name != name
    ensures r < |sessions| ==> sessions[r].name == name
  {
    if sessions == [] || sessions[0].name == name then 0 else 1 + NamePosition(sessions[1..], name)
  }

  function OrderByNames(sessions: seq<MuxSession>, names: seq<string>): seq<MuxSession> {
    if names == [] then []
    else
      var i := NamePosition(sessions, names[0]);
      if i < |sessions| then [sessions[i]] + OrderByNames(RemoveAt(sessions, i), names[1..])
      else OrderByNames(sessions, names[1..])
  }

  method OrderSessionsByNames(sessions: seq<MuxSession>, names: seq<string>) returns (ordered: seq<MuxSession>)
    ensures ordered == OrderByNames(sessions, names)
  {
    hide NamePosition, RemoveAt, OrderByNames;
    ordered := [];
    var remaining := sessions;
    var k := 0;
    assert names[0..] == names;
    while k < |names|
      invariant 0 <= k <= |names|
      invariant OrderByNames(sessions, names) == ordered + OrderByNames(remaining, names[k..])
    {
      OrderByNamesStep(remaining, names, k);
      var i := NamePosition(remaining, names[k]);
      if i < |remaining| {
        ConcatAssoc(ordered, [remaining[i]], OrderByNames(RemoveAt(remaining, i), names[k + 1..]));
        ordered, remaining := ordered + [remaining[i]], RemoveAt(remaining, i);
      }
      k := k + 1;
    }
    assert names[k..] == [];
    NoNames(remaining);
  }

  lemma NoNames(sessions: seq<MuxSession>)
    ensures OrderByNames(sessions, []) == []
  {}

  lemma OrderByNamesStep(remaining: seq<MuxSession>, names: seq<string>, k: nat)
    requires k < |names|
    ensures var i := NamePosition(remaining, names[k]);
      OrderByNames(remaining, names[k..])
      == if i < |remaining| then [remaining[i]] + OrderByNames(RemoveAt(remaining, i), names[k + 1..])
         else OrderByNames(remaining, names[k + 1..])
  {
    hide NamePosition, RemoveAt;
    assert names[k..][1..] == names[k + 1..];
  }

  /** Nothing is made up: the ordered sessions are among the given ones, each as often at most. */
  lemma {:induction false} OrderByNamesSelects(sessions: seq<MuxSession>, names: seq<string>)
    ensures multiset(OrderByNames(sessions, names)) <= multiset(sessions)
    decreases |names|
  {
    if names != [] {
      var i := NamePosition(sessions, names[0]);
      if i < |sessions| {
        OrderByNamesSelects(RemoveAt(sessions, i), names[1..]);
        RemoveAtCounts(sessions, i);
        assert sessions[i] in multiset(sessions);
      } else {
        OrderByNamesSelects(sessions, names[1..]);
      }
    }
  }

  function Names(sessions: seq<MuxSession>): (r: seq<string>)
    ensures |r| == |sessions| && forall i :: 0 <= i < |r| ==> r[i] == sessions[i].name
  {
    seq(|sessions|, i requires 0 <= i < |sessions| => sessions[i].name)
  }

  /** The names that exist, in the order asked for. */
  lemma {:induction false} OrderByNamesIsOrder(sessions: seq<MuxSession>, names: seq<string>)
    requires Distinct(names)
    ensures Names(OrderByNames(sessions, names)) == Keep(names, SetOf(Names(sessions)))
    decreases |names|
  {
    hide Keep, SetOf, RemoveAt;
    if names == [] {
      KeptNone(SetOf(Names(sessions)));
    } else {
      var name, rest := names[0], names[1..];
      var i := NamePosition(sessions, name);
      assert names == [name] + rest;
      DistinctCons(name, rest);
      KeepCons(name, rest, SetOf(Names(sessions)));
      if i < |sessions| {
        var remaining := RemoveAt(sessions, i);
        OrderByNamesIsOrder(remaining, rest);
        OtherNames(sessions, i);
        KeptOthers(rest, Names(remaining), Names(sessions), name);
        NamesCons(sessions[i], OrderByNames(remaining, rest));
        InNames(sessions, i);
      } else {
        OrderByNamesIsOrder(sessions, rest);
        NotInNames(sessions, name);
      }
    }
  }

  lemma KeptOthers(s: seq<string>, a: seq<string>, b: seq<string>, name: string)
    requires name !in s && forall x :: x != name ==> (x in a <==> x in b)
    ensures Keep(s, SetOf(a)) == Keep(s, SetOf(b))
  {
    KeptSame(s, SetOf(a), SetOf(b));
  }

  lemma NamesCons(session: MuxSession, rest: seq<MuxSession>)
    ensures Names([session] + rest) == [session.name] + Names(rest)
  {}

  lemma InNames(sessions: seq<MuxSession>, i: nat)
    requires i < |sessions|
    ensures sessions[i].name in SetOf(Names(sessions))
  {
    assert Names(sessions)[i] == sessions[i].name;
  }

  lemma NotInNames(sessions: seq<MuxSession>, name: string)
    requires NamePosition(sessions, name) == |sessions|
    ensures name !in SetOf(Names(sessions))
  {}

  lemma OtherNames(sessions: seq<MuxSession>, i: nat)
    requires i < |sessions|
    ensures forall x :: x != sessions[i].name ==> (x in Names(RemoveAt(sessions, i)) <==> x in Names(sessions))
  {
    var removed := RemoveAt(sessions, i);
    forall x | x in Names(sessions) && x != sessions[i].name ensures x in Names(removed) {
      var k :| 0 <= k < |sessions| && sessions[k].name == x;
      assert Names(removed)[if k < i then k else k - 1] == x;
    }
  }

  // ----- The selection

  /** The first session that the key names. */
  function FindSession(sessions: seq<MuxSession>, key: string): (r: Option<MuxSession>)
    ensures r.Some? ==> r.value in sessions && SessionMatches(r.value, key)
    ensures r.None? <==> forall s :: s in sessions ==> !SessionMatches(s, key)
  {
    if sessions == [] then None
    else if SessionMatches(sessions[0], key) then Some(sessions[0])
    else FindSession(sessions[1..], key)
  }

  function FirstActive(sessions: seq<MuxSession>): (r: Option<MuxSession>)
    ensures r.Some? ==> r.value in sessions && r.value.active
    ensures r.None? <==> forall s :: s in sessions ==> !s.active
  {
    if sessions == [] then None
    else if sessions[0].active then Some(sessions[0])
    else FirstActive(sessions[1..])
  }

  /** The session to select after a refresh, by its id. */
  function SelectionAfterRefresh(current: Option<string>, sessions: seq<MuxSession>): (r: Option<string>)
    ensures r.None? <==> sessions == []
    ensures r.Some? ==> exists s :: s in sessions && s.id == r.value
  {
    if current.Some?
      && FindSession(sessions, current.value).Some? then Some(FindSession(sessions, current.value).value.id)
    else if FirstActive(sessions).Some? then Some(FirstActive(sessions).value.id)
    else if sessions == [] then None
    else Some(sessions[0].id)
  }

  lemma {:induction false} FirstMatch(sessions: seq<MuxSession>, key: string) returns (i: nat)
    requires FindSession(sessions, key).Some?
    ensures i < |sessions| && FindSession(sessions, key) == Some(sessions[i])
    ensures forall k :: 0 <= k < i ==> !SessionMatches(sessions[k], key)
  {
    if SessionMatches(sessions[0], key) {
      i := 0;
    } else {
      i := FirstMatch(sessions[1..], key);
      i := i + 1;
    }
  }

  lemma {:induction false} FirstActiveAt(sessions: seq<MuxSession>) returns (i: nat)
    requires FirstActive(sessions).Some?
    ensures i < |sessions| && FirstActive(sessions) == Some(sessions[i])
    ensures forall k :: 0 <= k < i ==> !sessions[k].active
  {
    if sessions[0].active {
      i := 0;
    } else {
      i := FirstActiveAt(sessions[1..]);
      i := i + 1;
    }
  }

  /** The selected session is the first that the current selection names, else the first active one, else the first. */
  lemma SelectionPrefers(current: Option<string>, sessions: seq<MuxSession>) returns (i: nat)
    requires sessions != []
    ensures i < |sessions| && SelectionAfterRefresh(current, sessions) == Some(sessions[i].id)
    ensures if current.Some? && exists s :: s in sessions && SessionMatches(s, current.value)
            then SessionMatches(sessions[i], current.value)
                 && forall k :: 0 <= k < i
                     ==> !SessionMatches(sessions[k], current.value)
            else if exists s :: s in sessions && s.active
            then sessions[i].active && forall k :: 0 <= k < i ==> !sessions[k].active
            else i == 0
  {
    hide FindSession, FirstActive;
    if current.Some? && FindSession(sessions, current.value).Some? {
      i := FirstMatch(sessions, current.value);
    } else if FirstActive(sessions).Some? {
      i := FirstActiveAt(sessions);
    } else {
      i := 0;
    }
  }

  predicate HasWindow(session: MuxSession, window: string) {
    exists i :: 0 <= i < |session.windows| && session.windows[i].id == window
  }

  function WindowAfterRefresh(selected: Option<string>, current: Option<string>,
                              sessions: seq<MuxSession>): Option<string> {
    if selected.None? || FindSession(sessions, selected.value).None? then None
    else
      var session := FindSession(sessions, selected.value).value;
      if current.Some? && HasWindow(session, current.value) then current else session.activeWindowId
  }
}
