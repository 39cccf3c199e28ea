/**
 A seekable reader that serves an open file from a cache of its last chunk. Every read that succeeds
 agrees with the content as opened; a fill that fails empties the cache and ends the reader.
 */
module FileReads {
  import opened Wrappers
  import opened Sequences

  const MAX_CHUNK: nat := 1024 * 1024
  const LOG_TAIL: nat := 64
  const LAST_POSITION: nat := 0xFFFF_FFFF_FFFF_FFFF

  datatype ReadError = Cancelled | CheckFailed | SourceChanged | ReadFailed | InvalidSeek

  // ----- The source

  /** The file at one moment: its bytes, and a token for its identity and metadata. */
  datatype Seen = Seen(content: seq<Byte>, revision: string)

  datatype Changes = Refused | Appended

  /** What an open source must still be. */
  datatype Guard = Guard(changes: Changes, length: nat, revision: string, tail: seq<Byte>)

  /** The last bytes before this length. */
  function TailOf(content: seq<Byte>, length: nat): seq<Byte>
    requires length <= |content|
  {
    content[if length < LOG_TAIL then 0 else length - LOG_TAIL..length]
  }

  function OpenGuard(seen: Seen, changes: Changes): Guard {
    Guard(changes, |seen.content|, seen.revision, if changes.Refused? then [] else TailOf(seen.content, |seen.content|))
  }

  predicate Passes(guard: Guard, seen: Seen) {
    if guard.changes.Refused? then |seen.content| == guard.length && seen.revision == guard.revision
    else guard.length <= |seen.content| && TailOf(seen.content, guard.length) == guard.tail
  }

  /**
   What one read finds of the file: at its first check, and around and during the fill it may need.
   Each of the two can also fail on I/O, whatever the file is.
   */
  datatype Looks = Looks(first: Seen, before: Seen, during: Seen, after: Seen, checkFails: bool, fillFails: bool)

  /** Between two checks that pass, the file still has its opened content. */
  ghost predicate Honest(original: seq<Byte>, guard: Guard, looks: Looks) {
    Passes(guard, looks.before) && Passes(guard, looks.after) ==> original <= looks.during.content
  }

  /** The bytes of a range, if the guard passes on both sides and the range is there. */
  function ReadRange(guard: Guard, offset: nat, length: nat, looks: Looks): Option<seq<Byte>> {
    if length > MAX_CHUNK || offset + length > guard.length then None
    else if !Passes(guard, looks.before) || looks.fillFails || offset + length > |looks.during.content|
      || !Passes(guard, looks.after) then None
    else Some(looks.during.content[offset..offset + length])
  }

  // ----- The reader

  datatype Reader = Reader(position: nat, cacheStart: nat, cache: seq<Byte>, cancelled: bool)

  function Opened(): Reader {
    Reader(0, 0, [], false)
  }

  datatype Outcome = Outcome(reader: Reader, result: Result<seq<Byte>, ReadError>)

  predicate Cached(r: Reader) {
    r.cacheStart <= r.position < r.cacheStart + |r.cache|
  }

  function Least(a: nat, b: nat): (r: nat)
    ensures r <= a && r <= b && (r == a || r == b)
  {
    if a < b then a else b
  }

  /** Copies what the cache has at the position. */
  function Serve(r: Reader, size: nat): Outcome
    requires Cached(r)
  {
    var offset := r.position - r.cacheStart;
    var count := Least(size, |r.cache| - offset);
    Outcome(r.(position := r.position + count), Ok(r.cache[offset..offset + count]))
  }

  function Read(r: Reader, guard: Guard, size: nat, looks: Looks): Outcome {
    if r.cancelled then Outcome(r, Err(Cancelled))
    else if looks.checkFails then Outcome(r, Err(CheckFailed))
    else if !Passes(guard, looks.first) then Outcome(r, Err(SourceChanged))
    else if size == 0 || r.position >= guard.length then Outcome(r, Ok([]))
    else if Cached(r) then Serve(r, size)
    else
      var length := Least(guard.length - r.position, MAX_CHUNK);
      match ReadRange(guard, r.position, length, looks)
      case None => Outcome(r.(cache := [], cancelled := true), Err(ReadFailed))
      case Some(bytes) =>
        var filled := r.(cache := bytes, cacheStart := r.position);
        assert |bytes| == length > 0;
        Serve(filled, size)
  }

  datatype SeekFrom = FromStart(offset: nat) | FromEnd(delta: int) | FromCurrent(delta: int)

  datatype SeekOutcome = SeekOutcome(reader: Reader, result: Result<nat, ReadError>)

  function Seek(r: Reader, guard: Guard, to: SeekFrom): SeekOutcome {
    if r.cancelled then SeekOutcome(r, Err(Cancelled))
    else
      var position: int :=
        match to
        case FromStart(offset) => offset
        case FromEnd(delta) => guard.length + delta
        case FromCurrent(delta) => r.position + delta;
      if 0 <= position <= LAST_POSITION then SeekOutcome(r.(position := position), Ok(position))
        else SeekOutcome(r, Err(InvalidSeek))
  }

  // ----- One read agrees with the file

  /** What is cached is part of the opened content. */
  ghost predicate Agrees(original: seq<Byte>, r: Reader) {
    r.cache == []
      || (r.cacheStart + |r.cache| <= |original| && r.cache == original[r.cacheStart..r.cacheStart + |r.cache|])
  }

  /** The bytes at this place of the opened content. */
  ghost predicate BytesAt(original: seq<Byte>, at: nat, bytes: seq<Byte>) {
    bytes == [] || (at + |bytes| <= |original| && bytes == original[at..at + |bytes|])
  }

  lemma ServeAgrees(original: seq<Byte>, r: Reader, size: nat)
    requires Agrees(original, r) && Cached(r) && size > 0
    ensures Serve(r, size).result.Ok?
    ensures var out := Serve(r, size); var bytes := out.result.value;
      && Agrees(original, out.reader) && BytesAt(original, r.position, bytes)
      && 0 < |bytes| <= size && out.reader.position == r.position + |bytes|
  {
    var offset := r.position - r.cacheStart;
    var count := Least(size, |r.cache| - offset);
    SliceOfSlice(original, r.cacheStart, |r.cache|, offset, count);
    assert Serve(r, size).result.value == original[r.position..r.position + count];
  }

  lemma SliceOfSlice(s: seq<Byte>, start: nat, length: nat, offset: nat, count: nat)
    requires start + length <= |s| && offset + count <= length
    ensures s[start..start + length][offset..offset + count] == s[start + offset..start + offset + count]
  {
    var t := s[start..start + length];
    var a, b := t[offset..offset + count], s[start + offset..start + offset + count];
    forall i | 0 <= i < count ensures a[i] == b[i] {
      assert t[offset + i] == s[start + offset + i];
    }
  }

  /**
   A successful read gives the bytes at the position, none only at the end or for an empty buffer, and
   moves past them. A failed one moves nothing.
   */
  lemma ReadAgrees(original: seq<Byte>, guard: Guard, r: Reader, size: nat, looks: Looks)
    requires guard.length == |original| && Honest(original, guard, looks) && Agrees(original, r)
    ensures var out := Read(r, guard, size, looks);
      && Agrees(original, out.reader)
      && (out.result.Ok? ==>
            var bytes := out.result.value;
            && BytesAt(original, r.position, bytes) && |bytes| <= size
            && out.reader.position == r.position + |bytes|
            && (bytes == [] <==> size == 0 || r.position >= |original|))
      && (out.result.Err? ==> out.reader.position == r.position)
  {
    hide Passes, Serve;
    if !r.cancelled && !looks.checkFails && Passes(guard, looks.first) && size > 0 && r.position < guard.length {
      if Cached(r) {
        ServeAgrees(original, r, size);
      } else {
        var length := Least(guard.length - r.position, MAX_CHUNK);
        var filled := ReadRange(guard, r.position, length, looks);
        if filled.Some? {
          FillAgrees(original, guard, r.position, length, looks);
          var next := r.(cache := filled.value, cacheStart := r.position);
          assert Cached(next);
          ServeAgrees(original, next, size);
        }
      }
    }
  }

  lemma FillAgrees(original: seq<Byte>, guard: Guard, offset: nat, length: nat, looks: Looks)
    requires guard.length == |original| && Honest(original, guard, looks)
      && ReadRange(guard, offset, length, looks).Some?
    ensures offset + length <= |original|
      && ReadRange(guard, offset, length, looks).value == original[offset..offset + length]
  {
    hide Passes;
    assert original <= looks.during.content;
    assert looks.during.content[..|original|] == original;
  }

  /**
   A read fails because it was cancelled, its first check met an I/O failure or a changed file, or its
   fill failed. Only a failed fill changes the reader: it empties the cache and cancels.
   */
  lemma FailuresOfRead(guard: Guard, r: Reader, size: nat, looks: Looks)
    requires Read(r, guard, size, looks).result.Err?
    ensures var out := Read(r, guard, size, looks); var error := out.result.error;
      && error != InvalidSeek
      && (error == Cancelled <==> r.cancelled)
      && (error == CheckFailed <==> !r.cancelled && looks.checkFails)
      && (error == SourceChanged <==> !r.cancelled && !looks.checkFails && !Passes(guard, looks.first))
      && (error == CheckFailed || error == SourceChanged <==> out.reader == r && !r.cancelled)
      && (error == ReadFailed <==> !r.cancelled && out.reader.cancelled)
      && (error == Cancelled || error == ReadFailed <==> out.reader.cancelled)
      && (error == ReadFailed ==> out.reader.cache == [])
  {
    hide Passes, ReadRange, Serve;
    if !r.cancelled && !looks.checkFails && Passes(guard, looks.first) && size > 0 && r.position < guard.length {
      var length := Least(guard.length - r.position, MAX_CHUNK);
      var filled := ReadRange(guard, r.position, length, looks);
      RangeIsWhole(guard, r.position, length, looks);
      ServeSucceeds(r, size);
      if !Cached(r) && filled.Some? {
        ServeSucceeds(r.(cache := filled.value, cacheStart := r.position), size);
      }
    }
  }

  /** A fill that fails empties the cache, and nothing is served after it. */
  lemma FailedFillEndsReading(guard: Guard, r: Reader, size: nat, looks: Looks, later: nat, again: Looks)
    requires Read(r, guard, size, looks).result == Err(ReadFailed)
    ensures var failed := Read(r, guard, size, looks).reader;
      failed.cache == [] && Read(failed, guard, later, again) == Outcome(failed, Err(Cancelled))
  {
    hide Passes, ReadRange, Serve;
    FailuresOfRead(guard, r, size, looks);
  }

  lemma ServeSucceeds(r: Reader, size: nat)
    ensures Cached(r) ==> Serve(r, size).result.Ok?
  {}

  /** A cancelled reader serves nothing in any run. */
  lemma {:induction false} CancelledServesNothing(guard: Guard, r: Reader, ops: seq<Operation>)
    requires r.cancelled
    ensures After(r, guard, ops) == r
    ensures forall i :: 0 <= i < |ops| && ops[i].DoRead?
             ==> Read(After(r, guard, ops[..i]), guard, ops[i].size, ops[i].looks) == Outcome(r, Err(Cancelled))
    decreases |ops|
  {
    hide Passes, ReadRange, Serve;
    if ops != [] {
      var before := ops[..|ops| - 1];
      CancelledServesNothing(guard, r, before);
      forall i | 0 <= i < |ops| && ops[i].DoRead?
        ensures Read(After(r, guard, ops[..i]), guard, ops[i].size, ops[i].looks) == Outcome(r, Err(Cancelled))
      {
        if i < |before| {
          assert ops[..i] == before[..i] && before[i] == ops[i];
        } else {
          assert ops[..i] == before;
        }
      }
    }
  }

  /** A read that fails at its first check leaves the cache in place: a later check that passes serves from it. */
  lemma FailedCheckKeepsCache(guard: Guard, r: Reader, size: nat, looks: Looks, later: nat, again: Looks)
    requires !r.cancelled && Cached(r) && r.position < guard.length
    requires looks.checkFails || !Passes(guard, looks.first)
    requires later > 0 && !again.checkFails && Passes(guard, again.first)
    ensures Read(r, guard, size, looks).reader == r && Read(r, guard, size, looks).result.Err?
    ensures var out := Read(r, guard, later, again);
      out == Serve(r, later) && out.result.Ok? && out.result.value != []
  {}

  /** After these operations, a read gives bytes. */
  ghost predicate ServesAfter(r: Reader, guard: Guard, ops: seq<Operation>, size: nat, looks: Looks) {
    var out := Read(After(r, guard, ops), guard, size, looks);
    out.result.Ok? && out.result.value != []
  }

  function Calm(seen: Seen): Looks {
    Looks(seen, seen, seen, seen, false, false)
  }

  lemma CalmReadServes(guard: Guard, r: Reader, seen: Seen)
    requires !r.cancelled && Passes(guard, seen) && guard.length > 0
    ensures ServesAfter(r, guard, [DoSeek(FromStart(0))], 1, Calm(seen))
  {
    var ops := [DoSeek(FromStart(0))];
    assert ops[..0] == [];
    assert After(r, guard, []) == r;
    assert After(r, guard, ops) == r.(position := 0);
    PassesLength(guard, seen);
  }

  lemma PassesLength(guard: Guard, seen: Seen)
    requires Passes(guard, seen)
    ensures guard.length <= |seen.content|
  {}

  lemma RangeIsWhole(guard: Guard, offset: nat, length: nat, looks: Looks)
    ensures var r := ReadRange(guard, offset, length, looks); r.Some? ==> |r.value| == length
  {}

  // ----- Runs

  datatype Operation = DoRead(size: nat, looks: Looks) | DoSeek(to: SeekFrom)

  function Step(r: Reader, guard: Guard, op: Operation): Reader {
    match op
    case DoRead(size, looks) => Read(r, guard, size, looks).reader
    case DoSeek(to) => Seek(r, guard, to).reader
  }

  function After(r: Reader, guard: Guard, ops: seq<Operation>): Reader
    decreases |ops|
  {
    if ops == [] then r else Step(After(r, guard, ops[..|ops| - 1]), guard, ops[|ops| - 1])
  }

  ghost predicate AllHonest(original: seq<Byte>, guard: Guard, ops: seq<Operation>) {
    forall i :: 0 <= i < |ops| && ops[i].DoRead? ==> Honest(original, guard, ops[i].looks)
  }

  /**
   After any seeks and reads of an opened file, the cache still agrees with the content as opened, so
   the next read does.
   */
  lemma {:induction false} EveryRunAgrees(original: seq<Byte>, guard: Guard, ops: seq<Operation>)
    requires guard.length == |original| && AllHonest(original, guard, ops)
    ensures Agrees(original, After(Opened(), guard, ops))
    decreases |ops|
  {
    hide Passes, Read, Honest;
    if ops != [] {
      var before, last := ops[..|ops| - 1], ops[|ops| - 1];
      EveryRunAgrees(original, guard, before);
      if last.DoRead? {
        ReadAgrees(original, guard, After(Opened(), guard, before), last.size, last.looks);
      }
    }
  }

  /** What a run of reads without seeks gives, put together. */
  function Gathered(r: Reader, guard: Guard, ops: seq<Operation>): seq<Byte>
    requires forall i :: 0 <= i < |ops| ==> ops[i].DoRead?
    decreases |ops|
  {
    if ops == [] then []
    else
      var before, last := ops[..|ops| - 1], ops[|ops| - 1];
      var out := Read(After(r, guard, before), guard, last.size, last.looks);
      Gathered(r, guard, before) + if out.result.Ok? then out.result.value else []
  }

  /** Reads in a row give the content between where they start and where they end. */
  lemma {:induction false} ReadsAreConsecutive(original: seq<Byte>, guard: Guard, r: Reader, ops: seq<Operation>)
    requires guard.length == |original| && AllHonest(original, guard, ops) && Agrees(original, r)
    requires forall i :: 0 <= i < |ops| ==> ops[i].DoRead?
    ensures var end := After(r, guard, ops);
      && Agrees(original, end) && end.position == r.position + |Gathered(r, guard, ops)|
      && BytesAt(original, r.position, Gathered(r, guard, ops))
    decreases |ops|
  {
    hide Passes, Read, Honest;
    if ops != [] {
      var before, last := ops[..|ops| - 1], ops[|ops| - 1];
      ReadsAreConsecutive(original, guard, r, before);
      var mid := After(r, guard, before);
      ReadAgrees(original, guard, mid, last.size, last.looks);
      var got, out := Gathered(r, guard, before), Read(mid, guard, last.size, last.looks);
      var more := if out.result.Ok? then out.result.value else [];
      BytesJoin(original, r.position, got, more);
    }
  }

  lemma BytesJoin(original: seq<Byte>, at: nat, a: seq<Byte>, b: seq<Byte>)
    requires BytesAt(original, at, a) && BytesAt(original, at + |a|, b)
    ensures BytesAt(original, at, a + b)
  {
    if a + b != [] {
      if b == [] {
        assert a + b == a;
      } else if a == [] {
        assert a + b == b;
      } else {
        assert original[at..at + |a| + |b|] == original[at..at + |a|] + original[at + |a|..at + |a| + |b|];
      }
    }
  }

  /** The check of a log looks at its tail alone: a rewrite before it passes. */
  lemma RewrittenLogPasses(seen: Seen, i: nat, b: Byte, revision: string)
    requires i + LOG_TAIL < |seen.content|
    ensures Passes(OpenGuard(seen, Appended), Seen(seen.content[i := b], revision))
  {
    var n := |seen.content|;
    assert seen.content[i := b][n - LOG_TAIL..n] == seen.content[n - LOG_TAIL..n];
  }

  // ----- The file over time

  /** Content of a log only grows; a file's revision, found again later, means nothing changed in between. */
  ghost predicate Timeline(file: seq<Seen>, changes: Changes) {
    match changes
    case Appended => forall i, j :: 0 <= i <= j < |file| ==> file[i].content <= file[j].content
    case Refused => forall i, k, j :: 0 <= i <= k <= j < |file| && file[i].revision == file[j].revision
                     ==> file[k] == file[i]
  }

  datatype Moments = Moments(first: nat, before: nat, during: nat, after: nat)

  ghost predicate TakenAt(file: seq<Seen>, opening: nat, m: Moments, looks: Looks) {
    && opening <= m.first <= m.before <= m.during <= m.after < |file|
    && looks.first == file[m.first] && looks.before == file[m.before] && looks.during == file[m.during]
       && looks.after == file[m.after]
  }

  /** The looks of a read, taken in order at moments since the file was opened. */
  ghost predicate TakenFrom(file: seq<Seen>, opening: nat, looks: Looks) {
    exists m: Moments :: TakenAt(file, opening, m, looks)
  }

  lemma UnchangedBetween(file: seq<Seen>, i: nat, k: nat, j: nat)
    requires i <= k <= j < |file| && Timeline(file, Refused) && file[i].revision == file[j].revision
    ensures file[k] == file[i]
  {}

  lemma GrowsBetween(file: seq<Seen>, i: nat, j: nat)
    requires i <= j < |file| && Timeline(file, Appended)
    ensures file[i].content <= file[j].content
  {}

  /** That a range is read between two checks makes it agree with the opened content. */
  lemma TimelineIsHonest(file: seq<Seen>, changes: Changes, at: nat, looks: Looks)
    requires at < |file| && Timeline(file, changes) && TakenFrom(file, at, looks)
    ensures Honest(file[at].content, OpenGuard(file[at], changes), looks)
  {
    hide Timeline, TailOf;
    var m: Moments :| TakenAt(file, at, m, looks);
    if changes.Appended? {
      GrowsBetween(file, at, m.during);
    } else if Passes(OpenGuard(file[at], changes), looks.after) {
      UnchangedBetween(file, at, m.during, m.after);
    }
  }

  /** A range that is read holds the opened content, since the checks on both sides passed. */
  lemma FillOverTimeAgrees(file: seq<Seen>, changes: Changes, at: nat, offset: nat, length: nat, looks: Looks)
    requires at < |file| && Timeline(file, changes) && TakenFrom(file, at, looks)
    requires ReadRange(OpenGuard(file[at], changes), offset, length, looks).Some?
    ensures offset + length <= |file[at].content|
    ensures ReadRange(OpenGuard(file[at], changes), offset, length, looks).value
      == file[at].content[offset..offset + length]
  {
    hide Timeline, TakenFrom, Honest, ReadRange;
    TimelineIsHonest(file, changes, at, looks);
    FillAgrees(file[at].content, OpenGuard(file[at], changes), offset, length, looks);
  }

  /**
   One check would not do: a file changed while it is read passes the check before, and only the check
   after fails.
   */
  lemma SecondCheckIsNeeded(calm: Seen, changed: Seen)
    requires calm.revision != changed.revision && |calm.content| == |changed.content| && calm.content != changed.content
    ensures var file := [calm, changed]; var looks := Looks(calm, calm, changed, changed, false, false);
      var guard := OpenGuard(calm, Refused);
      && Timeline(file, Refused) && TakenFrom(file, 0, looks)
      && Passes(guard, looks.before) && !(calm.content <= looks.during.content) && !Passes(guard, looks.after)
  {
    var file := [calm, changed];
    var looks := Looks(calm, calm, changed, changed, false, false);
    assert TakenAt(file, 0, Moments(0, 0, 1, 1), looks);
    assert changed.content[..|calm.content|] == changed.content;
  }

  /** After any seeks and reads of a file that behaves so, the cache agrees with the content as opened. */
  lemma EveryRunOverTimeAgrees(file: seq<Seen>, changes: Changes, at: nat, ops: seq<Operation>)
    requires at < |file| && Timeline(file, changes)
    requires forall i :: 0 <= i < |ops| && ops[i].DoRead? ==> TakenFrom(file, at, ops[i].looks)
    ensures Agrees(file[at].content, After(Opened(), OpenGuard(file[at], changes), ops))
  {
    hide Passes, Honest, Timeline, TakenFrom;
    var guard := OpenGuard(file[at], changes);
    forall i | 0 <= i < |ops| && ops[i].DoRead? ensures Honest(file[at].content, guard, ops[i].looks) {
      TimelineIsHonest(file, changes, at, ops[i].looks);
    }
    EveryRunAgrees(file[at].content, guard, ops);
  }

  /** A log that is only appended to passes its check for ever. */
  lemma LogAlwaysPasses(seen: Seen, later: Seen)
    requires seen.content <= later.content
    ensures Passes(OpenGuard(seen, Appended), later)
  {
    var n := |seen.content|;
    assert later.content[..n] == seen.content;
    var start := if n < LOG_TAIL then 0 else n - LOG_TAIL;
    SliceOfSlice(later.content, 0, n, start, n - start);
  }

  /** The file stays as the reader needs it: a log that grows, or a file whose revision stays. */
  ghost predicate Steady(file: seq<Seen>, changes: Changes, at: nat)
    requires at < |file|
  {
    Timeline(file, changes)
      && (changes.Refused? ==> forall i :: at <= i < |file| ==> file[i].revision == file[at].revision)
  }

  lemma SteadyPasses(file: seq<Seen>, changes: Changes, at: nat, i: nat)
    requires at <= i < |file| && Steady(file, changes, at)
    ensures Passes(OpenGuard(file[at], changes), file[i])
  {
    hide Timeline, TailOf;
    if changes.Appended? {
      GrowsBetween(file, at, i);
      LogAlwaysPasses(file[at], file[i]);
    } else {
      UnchangedBetween(file, at, i, i);
    }
  }

  /** Over such a file every read succeeds that meets no I/O failure, and leaves the reader open. */
  lemma SteadyReadSucceeds(file: seq<Seen>, changes: Changes, at: nat, r: Reader, size: nat, looks: Looks)
    requires at < |file| && Steady(file, changes, at) && TakenFrom(file, at, looks) && !looks.checkFails
      && !looks.fillFails && !r.cancelled
    ensures var out := Read(r, OpenGuard(file[at], changes), size, looks); out.result.Ok? && !out.reader.cancelled
  {
    hide Passes, Steady, Timeline, Read, OpenGuard;
    var guard := OpenGuard(file[at], changes);
    var m: Moments :| TakenAt(file, at, m, looks);
    SteadyPasses(file, changes, at, m.first);
    SteadyPasses(file, changes, at, m.before);
    SteadyPasses(file, changes, at, m.during);
    SteadyPasses(file, changes, at, m.after);
    PassingReadSucceeds(guard, r, size, looks);
  }

  lemma PassingReadSucceeds(guard: Guard, r: Reader, size: nat, looks: Looks)
    requires !r.cancelled && !looks.checkFails && !looks.fillFails
    requires Passes(guard, looks.first) && Passes(guard, looks.before) && Passes(guard, looks.during)
      && Passes(guard, looks.after)
    ensures var out := Read(r, guard, size, looks); out.result.Ok? && !out.reader.cancelled
  {
    hide Passes;
    PassesLength(guard, looks.during);
  }

  // ----- After a failed read

  /** A check that fails on the file fails for ever. */
  lemma ChangedForEver(file: seq<Seen>, changes: Changes, at: nat, i: nat, j: nat)
    requires at <= i <= j < |file| && Timeline(file, changes) && !Passes(OpenGuard(file[at], changes), file[i])
    ensures !Passes(OpenGuard(file[at], changes), file[j])
  {
    hide Timeline, TailOf;
    if changes.Appended? {
      GrowsBetween(file, at, i);
      LogAlwaysPasses(file[at], file[i]);
    } else if file[j].revision == file[at].revision {
      UnchangedBetween(file, at, i, j);
    }
  }

  /** The read failed, and not because its check met an I/O failure while the file was as it should be. */
  predicate FailsForGood(guard: Guard, r: Reader, looks: Looks) {
    r.cancelled || !looks.checkFails || !Passes(guard, looks.first)
  }

  /** After such a failure every later read fails, whatever comes in between. */
  lemma FailureIsFinal(file: seq<Seen>, changes: Changes, at: nat, r: Reader, size: nat, m: Moments, looks: Looks,
                       ops: seq<Operation>, later: nat, again: Looks)
    requires at < |file| && Timeline(file, changes) && TakenAt(file, at, m, looks) && TakenFrom(file, m.first, again)
    requires Read(r, OpenGuard(file[at], changes), size, looks).result.Err?
    requires FailsForGood(OpenGuard(file[at], changes), r, looks)
    ensures var guard := OpenGuard(file[at], changes);
      Read(After(Read(r, guard, size, looks).reader, guard, ops), guard, later, again).result.Err?
  {
    hide Passes, ReadRange, Serve, Timeline, OpenGuard;
    var guard := OpenGuard(file[at], changes);
    FailuresOfRead(guard, r, size, looks);
    var failed := Read(r, guard, size, looks).reader;
    if failed.cancelled {
      CancelledReadFails(guard, failed, ops, later, again);
    } else {
      var n: Moments :| TakenAt(file, m.first, n, again);
      ChangedForEver(file, changes, at, m.first, n.first);
    }
  }

  lemma CancelledReadFails(guard: Guard, r: Reader, ops: seq<Operation>, size: nat, looks: Looks)
    requires r.cancelled
    ensures Read(After(r, guard, ops), guard, size, looks).result.Err?
  {
    CancelledServesNothing(guard, r, ops);
  }

  /**
   Over a file or log that behaves so, bytes are served after a failed read exactly when it was the
   first check that failed, on I/O alone: the file was still as opened and the reader not cancelled.
   An empty file has no bytes to serve.
   */
  lemma ServedAfterFailureIff(file: seq<Seen>, changes: Changes, at: nat, r: Reader, size: nat, m: Moments,
                              looks: Looks)
    requires at < |file| && Timeline(file, changes) && TakenAt(file, at, m, looks)
    requires Read(r, OpenGuard(file[at], changes), size, looks).result.Err?
    ensures var guard := OpenGuard(file[at], changes); var failed := Read(r, guard, size, looks).reader;
      (exists ops, later, again :: TakenFrom(file, m.first, again) && ServesAfter(failed, guard, ops, later, again))
      <==> !r.cancelled && looks.checkFails && Passes(guard, looks.first) && file[at].content != []
  {
    hide Passes, ReadRange, Serve, Timeline, Read, OpenGuard;
    var guard := OpenGuard(file[at], changes);
    var failed := Read(r, guard, size, looks).reader;
    if FailsForGood(guard, r, looks) {
      forall ops, later, again | TakenFrom(file, m.first, again)
        ensures !ServesAfter(failed, guard, ops, later, again)
      {
        FailureIsFinal(file, changes, at, r, size, m, looks, ops, later, again);
      }
    } else if file[at].content == [] {
      GuardLength(file[at], changes);
      forall ops, later, again ensures !ServesAfter(failed, guard, ops, later, again) {
        NothingToServe(After(failed, guard, ops), guard, later, again);
      }
    } else {
      FailuresOfRead(guard, r, size, looks);
      GuardLength(file[at], changes);
      var calm := Calm(looks.first);
      assert TakenAt(file, m.first, Moments(m.first, m.first, m.first, m.first), calm);
      CalmReadServes(guard, failed, looks.first);
    }
  }

  lemma NothingToServe(r: Reader, guard: Guard, size: nat, looks: Looks)
    requires guard.length == 0
    ensures var out := Read(r, guard, size, looks); out.result.Err? || out.result.value == []
  {}

  lemma GuardLength(seen: Seen, changes: Changes)
    ensures OpenGuard(seen, changes).length == |seen.content|
  {}

  /**
   Such a run exists, over a file that never changes: a byte is read, a check fails on I/O, and the
   byte is served again.
   */
  lemma FailedCheckCanServe(b: Byte, revision: string, changes: Changes)
    ensures var seen := Seen([b], revision); var guard := OpenGuard(seen, changes); var calm := Calm(seen);
      var r := After(Opened(), guard, [DoRead(1, calm), DoSeek(FromStart(0))]);
      && Timeline([seen], changes) && TakenFrom([seen], 0, calm)
      && Read(r, guard, 1, calm.(checkFails := true)) == Outcome(r, Err(CheckFailed))
      && Read(r, guard, 1, calm).result == Ok([b])
  {
    hide Passes, Read, Timeline, OpenGuard, After;
    var seen := Seen([b], revision);
    var guard, calm := OpenGuard(seen, changes), Calm(seen);
    OneMoment(seen, changes);
    assert TakenAt([seen], 0, Moments(0, 0, 0, 0), calm);
    OneByteReads(b, revision, changes);
    AfterTwo(Opened(), guard, DoRead(1, calm), DoSeek(FromStart(0)));
  }

  lemma OneMoment(seen: Seen, changes: Changes)
    ensures Timeline([seen], changes)
  {}

  lemma AfterTwo(r: Reader, guard: Guard, a: Operation, b: Operation)
    ensures After(r, guard, [a, b]) == Step(Step(r, guard, a), guard, b)
  {
    hide Step;
    assert [a, b][..1] == [a] && [a][..0] == [];
    assert After(r, guard, []) == r;
    assert After(r, guard, [a]) == Step(r, guard, a);
  }

  /** The three reads of that run. */
  lemma OneByteReads(b: Byte, revision: string, changes: Changes)
    ensures var seen := Seen([b], revision); var guard := OpenGuard(seen, changes); var calm := Calm(seen);
      var r := Reader(0, 0, [b], false);
      && Read(Opened(), guard, 1, calm) == Outcome(r.(position := 1), Ok([b]))
      && Read(r, guard, 1, calm.(checkFails := true)) == Outcome(r, Err(CheckFailed))
      && Read(r, guard, 1, calm) == Outcome(r.(position := 1), Ok([b]))
  {
    hide TailOf;
    assert [b][0..1] == [b];
  }
}
