/**
 The output of a job: numbered chunks, of which a bounded ring keeps the last ones, and cursored
 reads. The ring is shown to hold the longest suffix of the whole output within both limits, and a
 reader that never sees a gap to receive the output exactly.
 */
module JobOutput {
  import opened Wrappers

  const OUTPUT_LIMIT: nat := 2 * 1024 * 1024
  const CHUNK_LIMIT: nat := 512
  const READ_LIMIT: nat := 64 * 1024
  const LAST_CURSOR: nat := 0xFFFF_FFFF_FFFF_FFFF

  datatype Stream = Stdout | Stderr

  /** A chunk of output. Its data is the encoded text. */
  datatype Chunk = Chunk(sequence: nat, stream: Stream, data: string)

  datatype ReadError = CursorAhead

  datatype JobRead = JobRead(chunks: seq<Chunk>, cursor: nat, gap: bool)

  function Size(chunks: seq<Chunk>): nat {
    if chunks == [] then 0 else |chunks[0].data| + Size(chunks[1..])
  }

  predicate Fits(chunks: seq<Chunk>) {
    Size(chunks) <= OUTPUT_LIMIT && |chunks| <= CHUNK_LIMIT
  }

  // ----- What is retained

  /** The longest suffix of the output that fits, from place k on. */
  function FitFrom(log: seq<Chunk>, k: nat): (r: nat)
    requires k <= |log|
    ensures k <= r <= |log| && Fits(log[r..])
    ensures forall i :: k <= i < r ==> !Fits(log[i..])
    decreases |log| - k
  {
    if Fits(log[k..]) then k else FitFrom(log, k + 1)
  }

  function RetainedFrom(log: seq<Chunk>): (r: nat)
    ensures r <= |log| && Fits(log[r..])
    ensures forall i :: 0 <= i < r ==> !Fits(log[i..])
  {
    FitFrom(log, 0)
  }

  /** Chunks are numbered from one. */
  ghost predicate Numbered(log: seq<Chunk>) {
    forall i :: 0 <= i < |log| ==> log[i].sequence == i + 1
  }

  lemma {:induction false} SizeConcat(a: seq<Chunk>, b: seq<Chunk>)
    ensures Size(a + b) == Size(a) + Size(b)
  {
    if a == [] {
      assert a + b == b;
    } else {
      assert (a + b)[1..] == a[1..] + b;
      SizeConcat(a[1..], b);
    }
  }

  lemma SizePush(chunks: seq<Chunk>, chunk: Chunk)
    ensures Size(chunks + [chunk]) == Size(chunks) + |chunk.data|
  {
    SizeConcat(chunks, [chunk]);
    assert [chunk][1..] == [];
  }

  /** What does not fit does not fit with more after it. */
  lemma MisfitGrows(chunks: seq<Chunk>, chunk: Chunk)
    requires !Fits(chunks)
    ensures !Fits(chunks + [chunk])
  {
    SizePush(chunks, chunk);
  }

  /** A new chunk never brings an evicted one back. */
  lemma RetainedGrows(log: seq<Chunk>, chunk: Chunk)
    ensures RetainedFrom(log) <= RetainedFrom(log + [chunk])
  {
    hide Fits, FitFrom;
    forall i | 0 <= i < RetainedFrom(log) ensures !Fits((log + [chunk])[i..]) {
      assert (log + [chunk])[i..] == log[i..] + [chunk];
      MisfitGrows(log[i..], chunk);
    }
  }

  /** So eviction can go on from where it stood. */
  lemma EvictionResumes(log: seq<Chunk>, chunk: Chunk)
    ensures RetainedFrom(log + [chunk]) == FitFrom(log + [chunk], RetainedFrom(log))
  {
    RetainedGrows(log, chunk);
    FitFromIs(log + [chunk], RetainedFrom(log), RetainedFrom(log + [chunk]));
  }

  lemma {:induction false} FitFromIs(log: seq<Chunk>, k: nat, r: nat)
    requires k <= r <= |log| && Fits(log[r..]) && forall i :: k <= i < r ==> !Fits(log[i..])
    ensures FitFrom(log, k) == r
    decreases |log| - k
  {
    if k < r {
      FitFromIs(log, k + 1, r);
    }
  }

  // ----- Reading

  /** How many of the chunks one read can carry. */
  function Carried(chunks: seq<Chunk>, size: nat): (n: nat)
    ensures n <= |chunks|
    ensures n > 0 <==> chunks != [] && size + |chunks[0].data| <= READ_LIMIT
  {
    if chunks == []
      || size + |chunks[0].data| > READ_LIMIT then 0 else 1 + Carried(chunks[1..], size + |chunks[0].data|)
  }

  function Later(cursor: nat, from: nat): nat {
    if cursor < from then from else cursor
  }

  /** A read in terms of the whole output and of what is retained of it. */
  function ReadLog(log: seq<Chunk>, from: nat, cursor: nat): Result<JobRead, ReadError>
    requires from <= |log|
  {
    if cursor > |log| then Err(CursorAhead)
    else
      var start := Later(cursor, from);
      var n := Carried(log[start..], 0);
      Ok(JobRead(log[start..start + n], if n == 0 then cursor else start + n, cursor < from))
  }

  /** A read moves on exactly when something is retained after the cursor, and the next chunk is small enough. */
  lemma ReadProgress(log: seq<Chunk>, cursor: nat)
    requires cursor <= |log|
    ensures var from := RetainedFrom(log); var start := Later(cursor, from); var r := ReadLog(log, from, cursor).value;
      && cursor <= r.cursor <= |log|
      && (r.cursor > cursor <==> start < |log| && |log[start].data| <= READ_LIMIT)
  {}

  lemma CursorIsAhead(log: seq<Chunk>, from: nat, cursor: nat)
    requires from <= |log| < cursor
    ensures ReadLog(log, from, cursor) == Err(CursorAhead)
  {}

  /** A read in terms of the retained chunks, the first of them after the cursor being at start. */
  lemma ReadIs(log: seq<Chunk>, from: nat, cursor: nat, start: nat, n: nat)
    requires from + start <= |log| && cursor <= |log| && (start == 0 || from + start <= cursor)
    requires from + start == |log| || from + start >= cursor
    requires n == Carried(log[from..][start..], 0)
    ensures ReadLog(log, from, cursor)
      == Ok(JobRead(log[from..][start..start + n], if n == 0 then cursor else from + start + n, cursor < from))
  {
    hide Carried;
    DropTwice(log, from, start);
    SliceAfterDrop(log, from, start, n);
  }

  lemma DropTwice(log: seq<Chunk>, from: nat, start: nat)
    requires from + start <= |log|
    ensures log[from..][start..] == log[from + start..]
  {
    var a, b := log[from..][start..], log[from + start..];
    assert |a| == |b|;
    assert forall i :: 0 <= i < |a| ==> a[i] == log[from + start + i] == b[i];
  }

  lemma SliceAfterDrop(log: seq<Chunk>, from: nat, start: nat, n: nat)
    requires from + start + n <= |log|
    ensures log[from..][start..start + n] == log[from + start..from + start + n]
  {
    var a, b := log[from..][start..start + n], log[from + start..from + start + n];
    assert |a| == |b|;
    assert forall i :: 0 <= i < n ==> a[i] == log[from + start + i] == b[i];
  }

  /**
   A chunk above the read limit, which only a remote peer that breaks that limit can send, holds every
   reader before it.
   */
  lemma LargeChunkHoldsReader(stream: Stream, data: string)
    requires READ_LIMIT < |data| <= OUTPUT_LIMIT
    ensures var log := [Chunk(1, stream, data)];
      RetainedFrom(log) == 0 && ReadLog(log, RetainedFrom(log), 0) == Ok(JobRead([], 0, false))
  {
    var log := [Chunk(1, stream, data)];
    assert log[0..] == log && log[1..] == [];
    assert Size(log) == |data|;
    assert log[0..0] == [];
  }

  // ----- The job

  datatype Status =
    | Starting
    | Transferring
    | Running(pid: nat)
    | Exited(code: Option<int>, signal: Option<int>)
    | Failed(message: string)

  predicate Finished(status: Status) {
    status.Exited? || status.Failed?
  }

  class Job {
    ghost var log: seq<Chunk>
    var chunks: seq<Chunk>
    var bytes: nat
    var nextCursor: nat
    var retainedFrom: nat
    var status: Status
    var cancelRequested: bool
    var timedOut: bool

    /** The ring is the longest suffix of the output that fits. */
    ghost predicate Valid()
      reads this
    {
      && Numbered(log)
      && nextCursor == |log| <= LAST_CURSOR
      && retainedFrom == RetainedFrom(log)
      && chunks == log[retainedFrom..]
      && bytes == Size(chunks)
    }

    constructor ()
      ensures Valid() && log == [] && status == Starting && !cancelRequested && !timedOut
    {
      log, chunks, bytes, nextCursor, retainedFrom := [], [], 0, 0, 0;
      status, cancelRequested, timedOut := Starting, false, false;
    }

    method Cancel(timedOut: bool)
      modifies this`cancelRequested, this`timedOut
      ensures cancelRequested == (old(cancelRequested) || !Finished(status))
      ensures this.timedOut == (old(this.timedOut) || (timedOut && !Finished(status)))
    {
      if Finished(status) {
        return;
      }
      cancelRequested := true;
      this.timedOut := this.timedOut || timedOut;
    }

    method Output(stream: Stream, data: string)
      requires Valid()
      modifies this
      ensures Valid()
      ensures old(nextCursor) < LAST_CURSOR ==>
        log == old(log) + [Chunk(old(nextCursor) + 1, stream, data)]
        && status == old(status) && cancelRequested == old(cancelRequested) && timedOut == old(timedOut)
      ensures old(nextCursor) == LAST_CURSOR ==>
        log == old(log) && status.Failed? && cancelRequested == (old(cancelRequested) || !Finished(old(status)))
          && timedOut == old(timedOut)
    {
      hide RetainedFrom, FitFrom, Size, Fits, Numbered;
      if nextCursor == LAST_CURSOR {
        Cancel(false);
        status := Failed("job output sequence exhausted");
        return;
      }
      Append(stream, data);
    }

    /** Numbers the chunk, puts it behind the ring and drops what no longer fits. */
    method Append(stream: Stream, data: string)
      requires Valid() && nextCursor < LAST_CURSOR
      modifies this`log, this`chunks, this`bytes, this`nextCursor, this`retainedFrom
      ensures Valid() && log == old(log) + [Chunk(old(nextCursor) + 1, stream, data)]
    {
      hide RetainedFrom, FitFrom, Size, Fits, Numbered;
      nextCursor := nextCursor + 1;
      var chunk := Chunk(nextCursor, stream, data);
      ghost var from := retainedFrom;
      PushKeepsRing(log, chunk);
      log := log + [chunk];
      bytes := bytes + |data|;
      chunks := chunks + [chunk];
      Evict(from);
      FrontOfRing(log, RetainedFrom(log));
      retainedFrom := if chunks == [] then nextCursor else chunks[0].sequence - 1;
    }

    /** Drops chunks from the front until the ring fits. */
    method Evict(ghost start: nat)
      requires Numbered(log) && start <= |log| && chunks == log[start..] && bytes == Size(chunks)
      modifies this`chunks, this`bytes
      ensures chunks == log[FitFrom(log, start)..] && bytes == Size(chunks)
    {
      hide FitFrom;
      ghost var from := start;
      while bytes > OUTPUT_LIMIT || |chunks| > CHUNK_LIMIT
        invariant start <= from <= |log| && chunks == log[from..] && bytes == Size(chunks)
        invariant FitFrom(log, start) == FitFrom(log, from)
        decreases |chunks|
      {
        EvictOne(log, from);
        bytes := bytes - |chunks[0].data|;
        chunks := chunks[1..];
        from := from + 1;
      }
      FitFromIs(log, from, from);
    }

    method Read(cursor: nat) returns (r: Result<JobRead, ReadError>)
      requires Valid()
      ensures r == ReadLog(log, retainedFrom, cursor)
    {
      hide RetainedFrom, FitFrom, Fits, Size, Carried, ReadLog;
      if cursor > nextCursor {
        CursorIsAhead(log, retainedFrom, cursor);
        return Err(CursorAhead);
      }
      var start := 0;
      while start < |chunks| && chunks[start].sequence <= cursor
        invariant 0 <= start <= |chunks| && (start == 0 || retainedFrom + start <= cursor)
      {
        start := start + 1;
      }
      var n := CarriedCount(chunks[start..]);
      ReadIs(log, retainedFrom, cursor, start, n);
      r := Ok(JobRead(chunks[start..start + n], if n == 0 then cursor else chunks[start + n - 1].sequence,
        cursor < retainedFrom));
    }

    static method CarriedCount(chunks: seq<Chunk>) returns (n: nat)
      ensures n == Carried(chunks, 0)
    {
      var size: nat := 0;
      n := 0;
      while n < |chunks| && size + |chunks[n].data| <= READ_LIMIT
        invariant 0 <= n <= |chunks|
        invariant Carried(chunks, 0) == n + Carried(chunks[n..], size)
      {
        assert chunks[n..][1..] == chunks[n + 1..];
        size := size + |chunks[n].data|;
        n := n + 1;
      }
    }
  }

  lemma PushKeepsRing(log: seq<Chunk>, chunk: Chunk)
    requires Numbered(log) && chunk.sequence == |log| + 1
    ensures var from, pushed := RetainedFrom(log), log + [chunk];
      && Numbered(pushed)
      && pushed[from..] == log[from..] + [chunk] && Size(pushed[from..]) == Size(log[from..]) + |chunk.data|
      && FitFrom(pushed, from) == RetainedFrom(pushed)
  {
    hide RetainedFrom, FitFrom, Size, Fits;
    SizePush(log[RetainedFrom(log)..], chunk);
    EvictionResumes(log, chunk);
  }

  lemma FrontOfRing(log: seq<Chunk>, from: nat)
    requires Numbered(log) && from <= |log|
    ensures log[from..] == [] <==> from == |log|
    ensures from < |log| ==> log[from..][0].sequence == from + 1
  {}

  lemma EvictOne(log: seq<Chunk>, from: nat)
    requires from <= |log| && !Fits(log[from..])
    ensures from < |log|
    ensures FitFrom(log, from) == FitFrom(log, from + 1)
    ensures log[from..][1..] == log[from + 1..]
    ensures Size(log[from..]) == |log[from].data| + Size(log[from + 1..])
  {
    if from < |log| {
      assert log[from..][1..] == log[from + 1..];
    }
  }

  // ----- A reader beside the writer

  datatype Event = Wrote(stream: Stream, data: string) | DidRead

  /** The output so far, and a reader with its cursor, what it received, and whether it saw a gap. */
  datatype Session = Session(log: seq<Chunk>, cursor: nat, received: seq<Chunk>, sawGap: bool)

  function Next(s: Session, event: Event): Session
  {
    match event
    case Wrote(stream, data) => s.(log := s.log + [Chunk(|s.log| + 1, stream, data)])
    case DidRead =>
      match ReadLog(s.log, RetainedFrom(s.log), s.cursor)
      case Err(_) => s
      case Ok(r) => s.(cursor := r.cursor, received := s.received + r.chunks, sawGap := s.sawGap || r.gap)
  }

  function Run(s: Session, events: seq<Event>): Session
    decreases |events|
  {
    if events == [] then s else Next(Run(s, events[..|events| - 1]), events[|events| - 1])
  }

  /** The reader has what was written between its start and its cursor, unless it saw a gap. */
  ghost predicate Exact(start: Session, s: Session) {
    && start.cursor <= s.cursor <= |s.log| && start.log <= s.log
    && (!s.sawGap ==> s.received == s.log[start.cursor..s.cursor])
  }

  lemma WriteKeepsExact(start: Session, s: Session, stream: Stream, data: string)
    requires Exact(start, s)
    ensures Exact(start, Next(s, Wrote(stream, data)))
  {
    var t := Next(s, Wrote(stream, data));
    assert t.log[start.cursor..s.cursor] == s.log[start.cursor..s.cursor];
  }

  lemma ReadKeepsExact(start: Session, s: Session)
    requires Exact(start, s)
    ensures Exact(start, Next(s, DidRead))
  {
    hide RetainedFrom, Carried;
    JoinSlices(s.log, start.cursor, s.cursor, Next(s, DidRead).cursor);
  }

  lemma JoinSlices(log: seq<Chunk>, a: nat, b: nat, c: nat)
    requires a <= b <= c <= |log|
    ensures log[a..b] + log[b..c] == log[a..c]
  {
  }

  /** A reader that never saw a gap has received exactly the output between where it started and its cursor. */
  lemma {:induction false} ReaderIsExact(start: Session, events: seq<Event>)
    requires start.cursor <= |start.log| && start.received == [] && !start.sawGap
    ensures Exact(start, Run(start, events))
    decreases |events|
  {
    if events == [] {
      assert start.log[start.cursor..start.cursor] == [];
    } else {
      var last := events[|events| - 1];
      ReaderIsExact(start, events[..|events| - 1]);
      if last.Wrote? {
        WriteKeepsExact(start, Run(start, events[..|events| - 1]), last.stream, last.data);
      } else {
        ReadKeepsExact(start, Run(start, events[..|events| - 1]));
      }
    }
  }

  /** With small chunks and no further output, a reader reaches the end of what is retained, one read after another. */
  lemma {:induction false} ReadsReachHead(s: Session, n: nat)
    requires s.cursor <= |s.log|
    requires forall i :: 0 <= i < |s.log| ==> |s.log[i].data| <= READ_LIMIT
    requires n >= |s.log| - s.cursor
    ensures Run(s, seq(n, _ => DidRead)).cursor == |s.log|
    ensures Run(s, seq(n, _ => DidRead)).log == s.log
  {
    ReadsAdvance(s, n);
  }

  /** The last chunk is retained, if it is small enough to be read. */
  lemma LastIsRetained(log: seq<Chunk>)
    requires log != [] ==> |log[|log| - 1].data| <= READ_LIMIT
    ensures log != [] ==> RetainedFrom(log) < |log|
  {
    if log != [] {
      var last := log[|log| - 1..];
      assert last == [log[|log| - 1]] && last[1..] == [];
      assert Fits(last);
    }
  }

  lemma {:induction false} ReadsAdvance(s: Session, n: nat)
    requires s.cursor <= |s.log|
    requires forall i :: 0 <= i < |s.log| ==> |s.log[i].data| <= READ_LIMIT
    ensures var r := Run(s, seq(n, _ => DidRead));
      && r.log == s.log && r.cursor <= |s.log|
      && (r.cursor == |s.log| || r.cursor >= s.cursor + n)
  {
    hide RetainedFrom, Carried, Run, Next;
    if n > 0 {
      ReadsAdvance(s, n - 1);
      OneMoreRead(s, n);
      AdvancesOrEnds(Run(s, seq(n - 1, _ => DidRead)));
    } else {
      NoReads(s);
    }
  }

  lemma NoReads(s: Session)
    ensures Run(s, seq(0, _ => DidRead)) == s
  {}

  lemma OneMoreRead(s: Session, n: nat)
    requires n > 0
    ensures Run(s, seq(n, _ => DidRead)) == Next(Run(s, seq(n - 1, _ => DidRead)), DidRead)
  {
    hide Next;
    var events := seq(n, _ => DidRead);
    assert events[..n - 1] == seq(n - 1, _ => DidRead);
    assert events[n - 1] == DidRead;
  }

  lemma AdvancesOrEnds(s: Session)
    requires s.cursor <= |s.log|
    requires forall i :: 0 <= i < |s.log| ==> |s.log[i].data| <= READ_LIMIT
    ensures var t := Next(s, DidRead);
      && t.log == s.log && s.cursor <= t.cursor <= |s.log|
      && (s.cursor < |s.log| ==> t.cursor > s.cursor)
  {
    hide RetainedFrom, Carried;
    LastIsRetained(s.log);
    ReadProgress(s.log, s.cursor);
  }
}
