/** The reader object over a local file, and its methods against the reader's steps. */
module FileReaders {
  import opened Wrappers
  import opened Sequences
  import opened FileReads

  class FileReader {
    ghost const original: seq<Byte>
    const guard: Guard
    var position: nat
    var cacheStart: nat
    var cache: seq<Byte>
    var cancelled: bool

    ghost function State(): Reader
      reads this
    {
      Reader(position, cacheStart, cache, cancelled)
    }

    /** The cache is part of the content as opened. */
    ghost predicate Valid()
      reads this
    {
      guard.length == |original| && Agrees(original, State())
    }

    constructor (seen: Seen, changes: Changes)
      ensures Valid() && State() == Opened() && original == seen.content && guard == OpenGuard(seen, changes)
    {
      original := seen.content;
      guard := OpenGuard(seen, changes);
      position, cacheStart, cache, cancelled := 0, 0, [], false;
    }

    method ReadBytes(size: nat, looks: Looks) returns (result: Result<seq<Byte>, ReadError>)
      requires Valid() && Honest(original, guard, looks)
      modifies this
      ensures Valid() && Outcome(State(), result) == Read(old(State()), guard, size, looks)
      ensures result.Ok? ==>
        && BytesAt(original, old(position), result.value) && position == old(position) + |result.value|
        && (result.value == [] <==> size == 0 || old(position) >= |original|)
      ensures result == Err(ReadFailed) ==> cache == [] && cancelled
    {
      hide Passes, ReadRange, Honest, Agrees, BytesAt, Least, Serve;
      ReadAgrees(original, guard, State(), size, looks);
      if cancelled {
        return Err(Cancelled);
      }
      if looks.checkFails {
        return Err(CheckFailed);
      }
      if !Passes(guard, looks.first) {
        return Err(SourceChanged);
      }
      if size == 0 || position >= guard.length {
        return Ok([]);
      }
      if !(cacheStart <= position < cacheStart + |cache|) {
        var length := Least(guard.length - position, MAX_CHUNK);
        var filled := ReadRange(guard, position, length, looks);
        if filled.None? {
          cache := [];
          cancelled := true;
          return Err(ReadFailed);
        }
        RangeIsWhole(guard, position, length, looks);
        cache := filled.value;
        cacheStart := position;
      }
      result := ServeCached(size);
    }

    /** Gives what the cache holds at the position, and moves past it. */
    method ServeCached(size: nat) returns (result: Result<seq<Byte>, ReadError>)
      requires Cached(State())
      modifies this`position
      ensures result.Ok? && Outcome(State(), result) == Serve(old(State()), size)
    {
      var offset := position - cacheStart;
      var count := Least(size, |cache| - offset);
      result := Ok(cache[offset..offset + count]);
      position := position + count;
    }

    method SeekTo(to: SeekFrom) returns (result: Result<nat, ReadError>)
      requires Valid()
      modifies this`position
      ensures Valid() && SeekOutcome(State(), result) == Seek(old(State()), guard, to)
    {
      if cancelled {
        return Err(Cancelled);
      }
      var target: int :=
        match to
        case FromStart(offset) => offset
        case FromEnd(delta) => guard.length + delta
        case FromCurrent(delta) => position + delta;
      if target < 0 || target > LAST_POSITION {
        return Err(InvalidSeek);
      }
      position := target;
      result := Ok(position);
    }
  }
}
