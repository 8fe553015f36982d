/**
 Verification that a cancelled camera transfer did not change the pixels already downloaded.

 The log holds only lengths and digests of chunk interiors. The check cuts it into passes; these are related to
 the bytes the requests delivered through `WireRuns`, the independent reassembly of the same stream.
 */
module KnownPixels {
  import opened Wrappers
  import opened Bytes
  import opened WireRuns
  import TransportTrace

  /** The log's digests, opaque values compared for equality. */
  type Digest = string

  datatype Event =
    | BulkHash(sequence: int, bytes: int, digest: Digest)
    | IoSubmit(sequence: int, code: nat)
    | Other

  datatype HashedChunk = HashedChunk(length: int, digest: Digest)

  type Run = seq<HashedChunk>

  /** Whole passes, passes cut short by a missing request, and the pass still open at the end. */
  datatype Passes = Passes(complete: seq<Run>, partial: seq<Run>, open: Run)

  datatype Failure = InvalidBoundary | NotTwoEqualPasses | PixelsChanged

  const FRAME: int := 122342976

  // ---------------------------------------------------------------- the check

  /** The last digest logged for each request. */
  function Hashes(events: seq<Event>): map<int, HashedChunk> {
    if events == [] then map[] else
    var last, before := events[|events| - 1], Hashes(events[..|events| - 1]);
    if last.BulkHash? then before[last.sequence := HashedChunk(last.bytes, last.digest)] else before
  }

  /** What each submitted bulk read is known to have delivered, in submission order. */
  function Reads(events: seq<Event>, hashes: map<int, HashedChunk>): seq<Option<HashedChunk>> {
    if events == [] then []
    else if events[0].IoSubmit? && events[0].code == TransportTrace.BULK_READ then
      [if events[0].sequence in hashes then Some(hashes[events[0].sequence]) else None] + Reads(events[1..], hashes)
    else Reads(events[1..], hashes)
  }

  function Size(run: Run): int {
    if run == [] then 0 else Size(run[..|run| - 1]) + run[|run| - 1].length
  }

  function Cut(run: Run): seq<Run> {
    if run == [] then [] else [run]
  }

  function Split(log: seq<Option<HashedChunk>>, run: Run): Result<Passes, Failure> {
    if log == [] then Ok(Passes([], [], run)) else
    match log[0]
    case None =>
      var rest :- Split(log[1..], []);
      Ok(Passes(rest.complete, Cut(run) + rest.partial, rest.open))
    case Some(chunk) =>
      if Size(run + [chunk]) > FRAME then Err(InvalidBoundary)
      else if Size(run + [chunk]) == FRAME then
        var rest :- Split(log[1..], []);
        Ok(Passes([run + [chunk]] + rest.complete, rest.partial, rest.open))
      else Split(log[1..], run + [chunk])
  }

  /** Each chunk counts without the four bytes at either end that its digest leaves out. */
  function ComparedIn(run: Run): int {
    if run == [] then 0 else run[0].length - 8 + ComparedIn(run[1..])
  }

  function Compared(partial: seq<Run>): int {
    if partial == [] then 0 else ComparedIn(partial[0]) + Compared(partial[1..])
  }

  function Verdict(log: seq<Option<HashedChunk>>): Result<int, Failure> {
    var passes :- Split(log, []);
    if |passes.complete| != 2 || passes.complete[0] != passes.complete[1] then Err(NotTwoEqualPasses)
    else if exists k | 0 <= k < |passes.partial| :: !(passes.partial[k] <= passes.complete[0]) then Err(PixelsChanged)
    else Ok(Compared(passes.partial))
  }

  /** `tail` follows the whole and partial passes already found. */
  function After(complete: seq<Run>, partial: seq<Run>, tail: Result<Passes, Failure>): Result<Passes, Failure> {
    match tail
    case Err(e) => Err(e)
    case Ok(p) => Ok(Passes(complete + p.complete, partial + p.partial, p.open))
  }

  lemma AfterGap(complete: seq<Run>, partial: seq<Run>, run: Run, log: seq<Option<HashedChunk>>)
    requires log != [] && log[0] == None
    ensures After(complete, partial, Split(log, run)) == After(complete, partial + Cut(run), Split(log[1..], []))
  {
    var rest := Split(log[1..], []);
    assert rest.Ok? ==> partial + (Cut(run) + rest.value.partial) == (partial + Cut(run)) + rest.value.partial;
  }

  lemma AfterFrame(complete: seq<Run>, partial: seq<Run>, run: Run, log: seq<Option<HashedChunk>>)
    requires log != [] && log[0].Some? && Size(run + [log[0].value]) == FRAME
    ensures After(complete, partial, Split(log, run)) ==
            After(complete + [run + [log[0].value]], partial, Split(log[1..], []))
  {
    var rest, frame := Split(log[1..], []), [run + [log[0].value]];
    assert rest.Ok? ==> complete + (frame + rest.value.complete) == (complete + frame) + rest.value.complete;
  }

  lemma AfterNothing(tail: Result<Passes, Failure>)
    ensures After([], [], tail) == tail
  {
    assert tail.Ok? ==> [] + tail.value.complete == tail.value.complete && [] + tail.value.partial == tail.value.partial;
  }

  lemma SizeOfNothing()
    ensures Size([]) == 0
  {
  }

  lemma AfterError(complete: seq<Run>, partial: seq<Run>)
    ensures After(complete, partial, Err(InvalidBoundary)) == Err(InvalidBoundary)
  {
  }

  lemma SizeSnoc(run: Run, chunk: HashedChunk)
    ensures Size(run + [chunk]) == Size(run) + chunk.length
  {
  }

  method SplitLog(events: seq<Event>) returns (r: Result<Passes, Failure>)
    ensures r == Split(Reads(events, Hashes(events)), [])
  {
    var hashes := Hashes(events);
    var complete: seq<Run>, partial: seq<Run>, run: Run, size := [], [], [], 0;
    ghost var all := Split(Reads(events, hashes), []);
    assert events[0..] == events;
    AfterNothing(all);
    for i := 0 to |events|
      invariant size == Size(run)
      invariant all == After(complete, partial, Split(Reads(events[i..], hashes), run))
    {
      hide After, Size;
      var event := events[i];
      ghost var rest := Reads(events[i..], hashes);
      assert events[i..][0] == event && events[i..][1..] == events[i + 1..];
      if !event.IoSubmit? || event.code != TransportTrace.BULK_READ {
        continue;
      }
      assert rest[1..] == Reads(events[i + 1..], hashes);
      if event.sequence !in hashes {
        AfterGap(complete, partial, run, rest);
        assert partial + [] == partial;
        if run != [] {
          partial := partial + [run];
        }
        run, size := [], 0;
        SizeOfNothing();
        continue;
      }
      var chunk := hashes[event.sequence];
      SizeSnoc(run, chunk);
      size := size + chunk.length;
      if size > FRAME {
        AfterError(complete, partial);
        return Err(InvalidBoundary);
      }
      if size == FRAME {
        AfterFrame(complete, partial, run, rest);
      }
      run := run + [chunk];
      if size == FRAME {
        complete := complete + [run];
        run, size := [], 0;
        SizeOfNothing();
      }
    }
    assert events[|events|..] == [];
    assert complete + [] == complete && partial + [] == partial;
    return Ok(Passes(complete, partial, run));
  }

  /** The verdict on what the events log of every bulk read. */
  method VerifyKnownPixels(events: seq<Event>) returns (r: Result<int, Failure>)
    ensures exists log :: Logs(events, log) && r == Verdict(log)
  {
    ReadsExact(events);
    hide Logs, Split, Reads, Hashes;
    ghost var log := Reads(events, Hashes(events));
    r := VerifyPasses(events);
    assert Logs(events, log) && r == Verdict(log);
  }

  method VerifyPasses(events: seq<Event>) returns (r: Result<int, Failure>)
    ensures r == Verdict(Reads(events, Hashes(events)))
  {
    var passes :- SplitLog(events);
    if |passes.complete| != 2 || passes.complete[0] != passes.complete[1] {
      return Err(NotTwoEqualPasses);
    }
    var sum := 0;
    for k := 0 to |passes.partial|
      invariant forall j | 0 <= j < k :: passes.partial[j] <= passes.complete[0]
      invariant sum + Compared(passes.partial[k..]) == Compared(passes.partial)
    {
      assert passes.partial[k..][0] == passes.partial[k] && passes.partial[k..][1..] == passes.partial[k + 1..];
      if !(passes.partial[k] <= passes.complete[0]) {
        return Err(PixelsChanged);
      }
      sum := sum + ComparedIn(passes.partial[k]);
    }
    return Ok(sum);
  }

  // ---------------------------------------------------------------- which reads the events log

  /** A submitted bulk read. */
  predicate BulkRead(e: Event) {
    e.IoSubmit? && e.code == 0x22004b
  }

  /** `at` are the positions of all submitted bulk reads, in order. */
  ghost predicate BulkReads(events: seq<Event>, at: seq<nat>) {
    && (forall j, k | 0 <= j < k < |at| :: at[j] < at[k])
    && forall i: nat :: i in at <==> i < |events| && BulkRead(events[i])
  }

  predicate HashOf(e: Event, sequence: int) {
    e.BulkHash? && e.sequence == sequence
  }

  /** `hashed` is the last digest logged for the request anywhere in the events, or nothing if there is none. */
  ghost predicate LastHash(events: seq<Event>, sequence: int, hashed: Option<HashedChunk>) {
    match hashed
    case None => forall i | 0 <= i < |events| :: !HashOf(events[i], sequence)
    case Some(chunk) =>
      exists i :: && 0 <= i < |events| && events[i] == BulkHash(sequence, chunk.length, chunk.digest)
                  && forall j | i < j < |events| :: !HashOf(events[j], sequence)
  }

  ghost predicate LogsAt(events: seq<Event>, log: seq<Option<HashedChunk>>, at: seq<nat>) {
    && BulkReads(events, at) && |log| == |at|
    && forall k | 0 <= k < |at| :: at[k] < |events| && events[at[k]].IoSubmit? && LastHash(events, events[at[k]].sequence, log[k])
  }

  /** The log has one entry for each submitted bulk read, in order: the last digest logged for it, if any. */
  ghost predicate Logs(events: seq<Event>, log: seq<Option<HashedChunk>>) {
    exists at :: LogsAt(events, log, at)
  }

  lemma {:induction false} HashesExact(events: seq<Event>, n: int)
    ensures LastHash(events, n, if n in Hashes(events) then Some(Hashes(events)[n]) else None)
  {
    if events != [] {
      var front, last := events[..|events| - 1], events[|events| - 1];
      HashesExact(front, n);
      if HashOf(last, n) {
        assert events[|events| - 1] == BulkHash(n, last.bytes, last.digest);
      } else if n in Hashes(front) {
        var chunk := Hashes(front)[n];
        var i :| && 0 <= i < |front| && front[i] == BulkHash(n, chunk.length, chunk.digest)
                 && forall j | i < j < |front| :: !HashOf(front[j], n);
        assert events[i] == front[i];
        assert forall j | i < j < |front| :: events[j] == front[j];
      } else {
        assert forall j | 0 <= j < |front| :: events[j] == front[j];
      }
    }
  }

  function Looked(hashes: map<int, HashedChunk>, n: int): Option<HashedChunk> {
    if n in hashes then Some(hashes[n]) else None
  }

  /** What a log's entry says of the event at position `i`. */
  predicate EntryAt(events: seq<Event>, hashes: map<int, HashedChunk>, i: nat, entry: Option<HashedChunk>) {
    i < |events| && events[i].IoSubmit? && entry == Looked(hashes, events[i].sequence)
  }

  ghost predicate EntriesAt(events: seq<Event>, hashes: map<int, HashedChunk>, at: seq<nat>, log: seq<Option<HashedChunk>>) {
    |at| == |log| && forall k | 0 <= k < |at| :: EntryAt(events, hashes, at[k], log[k])
  }

  /** Every position one later. */
  function Shifted(at: seq<nat>): (later: seq<nat>)
    ensures |later| == |at| && forall k | 0 <= k < |at| :: later[k] == at[k] + 1
  {
    seq<nat>(|at|, k requires 0 <= k < |at| => at[k] + 1)
  }

  lemma ShiftedHolds(at: seq<nat>, i: nat)
    ensures i in Shifted(at) <==> i > 0 && i - 1 in at
  {
    if i > 0 && i - 1 in at {
      var k :| 0 <= k < |at| && at[k] == i - 1;
      assert Shifted(at)[k] == i;
    }
  }

  lemma BulkReadsCons(events: seq<Event>, later: seq<nat>)
    requires events != [] && BulkReads(events[1..], later)
    ensures BulkReads(events, (if BulkRead(events[0]) then [0] else []) + Shifted(later))
  {
    var first: seq<nat> := if BulkRead(events[0]) then [0] else [];
    var at := first + Shifted(later);
    forall i: nat
      ensures i in at <==> i < |events| && BulkRead(events[i])
    {
      ShiftedHolds(later, i);
      assert 0 < i < |events| ==> events[i] == events[1..][i - 1];
    }
  }

  lemma EntriesLater(events: seq<Event>, hashes: map<int, HashedChunk>, at: seq<nat>, log: seq<Option<HashedChunk>>)
    requires events != [] && EntriesAt(events[1..], hashes, at, log)
    ensures EntriesAt(events, hashes, Shifted(at), log)
  {
    forall k | 0 <= k < |at|
      ensures EntryAt(events, hashes, at[k] + 1, log[k])
    {
      assert EntryAt(events[1..], hashes, at[k], log[k]);
    }
    hide EntryAt;
  }

  lemma NoReads(hashes: map<int, HashedChunk>)
    ensures BulkReads([], []) && EntriesAt([], hashes, [], Reads([], hashes))
  {
  }

  lemma EntriesCons(events: seq<Event>, hashes: map<int, HashedChunk>, at: seq<nat>, log: seq<Option<HashedChunk>>)
    requires events != [] && BulkRead(events[0]) && EntriesAt(events, hashes, at, log)
    ensures EntriesAt(events, hashes, [0] + at, [Looked(hashes, events[0].sequence)] + log)
  {
    hide Looked;
  }

  /** The positions of the reads the log is made from. */
  lemma {:induction false} ReadsAt(events: seq<Event>, hashes: map<int, HashedChunk>) returns (at: seq<nat>)
    ensures BulkReads(events, at) && EntriesAt(events, hashes, at, Reads(events, hashes))
  {
    hide BulkReads, EntriesAt;
    if events == [] {
      at := [];
      NoReads(hashes);
    } else {
      var later := ReadsAt(events[1..], hashes);
      BulkReadsCons(events, later);
      EntriesLater(events, hashes, later, Reads(events[1..], hashes));
      at := Shifted(later);
      if BulkRead(events[0]) {
        EntriesCons(events, hashes, at, Reads(events[1..], hashes));
        at := [0] + at;
      } else {
        assert [] + at == at;
      }
    }
  }

  /** The check reads exactly that log. */
  lemma ReadsExact(events: seq<Event>)
    ensures Logs(events, Reads(events, Hashes(events)))
  {
    var hashes := Hashes(events);
    var at := ReadsAt(events, hashes);
    hide Hashes, Reads, LastHash, BulkReads;
    forall k | 0 <= k < |at|
      ensures EntryAt(events, hashes, at[k], Reads(events, hashes)[k])
      ensures LastHash(events, events[at[k]].sequence, Reads(events, hashes)[k])
    {
      HashesExact(events, events[at[k]].sequence);
    }
    assert LogsAt(events, Reads(events, hashes), at);
  }

  lemma FrontOf(a: seq<nat>, i: nat)
    requires a != [] && forall j, k | 0 <= j < k < |a| :: a[j] < a[k]
    ensures i in a[..|a| - 1] <==> i in a && i < a[|a| - 1]
  {
  }

  lemma LargestAgree(a: seq<nat>, b: seq<nat>)
    requires a != [] && b != [] && forall j, k | 0 <= j < k < |a| :: a[j] < a[k]
    requires a[|a| - 1] in b && b[|b| - 1] in a && forall j, k | 0 <= j < k < |b| :: b[j] < b[k]
    ensures a[|a| - 1] == b[|b| - 1]
  {
    var j :| 0 <= j < |b| && b[j] == a[|a| - 1];
    var k :| 0 <= k < |a| && a[k] == b[|b| - 1];
    assert b[j] <= b[|b| - 1] && a[k] <= a[|a| - 1];
  }

  lemma SameElements(a: seq<nat>, b: seq<nat>)
    requires a != [] && forall i: nat :: i in a <==> i in b
    ensures b != []
  {
    assert a[0] in a;
  }

  lemma {:induction false} IncreasingUnique(a: seq<nat>, b: seq<nat>)
    requires forall j, k | 0 <= j < k < |a| :: a[j] < a[k]
    requires forall j, k | 0 <= j < k < |b| :: b[j] < b[k]
    requires forall i: nat :: i in a <==> i in b
    ensures a == b
  {
    if a == [] {
      if b != [] {
        SameElements(b, a);
      }
    } else {
      SameElements(a, b);
      assert a[|a| - 1] in a && b[|b| - 1] in b;
      LargestAgree(a, b);
      var front, rest := a[..|a| - 1], b[..|b| - 1];
      forall i: nat
        ensures i in front <==> i in rest
      {
        FrontOf(a, i);
        FrontOf(b, i);
      }
      IncreasingUnique(front, rest);
      assert a == front + [a[|a| - 1]] && b == rest + [b[|b| - 1]];
    }
  }

  lemma LastHashUnique(events: seq<Event>, n: int, a: Option<HashedChunk>, b: Option<HashedChunk>)
    requires LastHash(events, n, a) && LastHash(events, n, b)
    ensures a == b
  {
    if a.Some? && b.Some? {
      var i :| && 0 <= i < |events| && events[i] == BulkHash(n, a.value.length, a.value.digest)
               && forall j | i < j < |events| :: !HashOf(events[j], n);
      var j :| && 0 <= j < |events| && events[j] == BulkHash(n, b.value.length, b.value.digest)
               && forall k | j < k < |events| :: !HashOf(events[k], n);
      assert HashOf(events[i], n) && HashOf(events[j], n);
    }
  }

  /** Events have one log. */
  lemma LogsUnique(events: seq<Event>, a: seq<Option<HashedChunk>>, b: seq<Option<HashedChunk>>)
    requires Logs(events, a) && Logs(events, b)
    ensures a == b
  {
    var at :| LogsAt(events, a, at);
    var to :| LogsAt(events, b, to);
    assert forall i: nat :: i in at <==> i in to;
    IncreasingUnique(at, to);
    hide LastHash, BulkReads;
    forall k | 0 <= k < |a|
      ensures a[k] == b[k]
    {
      LastHashUnique(events, events[at[k]].sequence, a[k], b[k]);
    }
  }

  // ---------------------------------------------------------------- what the log says about bytes

  /** The bytes a chunk's digest covers. */
  function Interior(chunk: Chunk): seq<Byte> {
    if |chunk| <= 8 then [] else chunk[4..|chunk| - 4]
  }

  function Hashed(chunk: Chunk, digest: seq<Byte> -> Digest): HashedChunk {
    HashedChunk(|chunk|, digest(Interior(chunk)))
  }

  /** The log records, of a stream whose chunks are not empty, lengths and interior digests. */
  ghost predicate Records(log: seq<Option<HashedChunk>>, stream: Stream, digest: seq<Byte> -> Digest) {
    && |log| == |stream|
    && forall i | 0 <= i < |stream| ::
         match stream[i]
         case None => log[i] == None
         case Some(chunk) => chunk != [] && log[i] == Some(Hashed(chunk, digest))
  }

  function HashedRun(run: seq<Chunk>, digest: seq<Byte> -> Digest): (r: Run)
    ensures |r| == |run|
  {
    seq(|run|, i requires 0 <= i < |run| => Hashed(run[i], digest))
  }

  function HashedRuns(runs: seq<seq<Chunk>>, digest: seq<Byte> -> Digest): (r: seq<Run>)
    ensures |r| == |runs|
  {
    seq(|runs|, i requires 0 <= i < |runs| => HashedRun(runs[i], digest))
  }

  /** The passes of the byte stream. */
  datatype BytePasses = BytePasses(complete: seq<seq<Chunk>>, partial: seq<seq<Chunk>>, open: seq<Chunk>) {
    function Hashed(digest: seq<Byte> -> Digest): Passes {
      Passes(HashedRuns(complete, digest), HashedRuns(partial, digest), HashedRun(open, digest))
    }
  }

  function Joins(runs: seq<seq<Chunk>>): (r: seq<seq<Byte>>)
    ensures |r| == |runs|
  {
    seq(|runs|, i requires 0 <= i < |runs| => Join(runs[i]))
  }

  function Sizes(runs: seq<seq<Chunk>>): (r: seq<nat>)
    ensures |r| == |runs|
  {
    seq(|runs|, i requires 0 <= i < |runs| => |Join(runs[i])|)
  }

  lemma {:induction false} HashedSize(run: seq<Chunk>, digest: seq<Byte> -> Digest)
    ensures Size(HashedRun(run, digest)) == |Join(run)|
  {
    if run != [] {
      var front, last := run[..|run| - 1], run[|run| - 1];
      HashedSize(front, digest);
      JoinSnoc(front, last);
      assert front + [last] == run;
      assert HashedRun(run, digest)[..|run| - 1] == HashedRun(front, digest);
    }
  }

  /**
   The passes of the delivered chunks themselves: cut at every missing request, and whole when they reach the size
   of a frame.
   */
  function PassesOf(stream: Stream, run: seq<Chunk>): BytePasses {
    if stream == [] then BytePasses([], [], run) else
    match stream[0]
    case None =>
      var rest := PassesOf(stream[1..], []);
      if run == [] then rest else rest.(partial := [run] + rest.partial)
    case Some(chunk) =>
      if |Join(run + [chunk])| == FRAME then
        var rest := PassesOf(stream[1..], []);
        rest.(complete := [run + [chunk]] + rest.complete)
      else PassesOf(stream[1..], run + [chunk])
  }

  /** The bytes behind `passes`: the same runs, and what the reassembly makes of them. */
  ghost predicate Behind(q: BytePasses, passes: Passes, digest: seq<Byte> -> Digest, whole: Reassembly) {
    && q.Hashed(digest) == passes
    && whole == Reassembly(Joins(q.complete), Sizes(q.partial) + Flush(Join(q.open)))
  }

  /** A chunk that does not overflow the frame either completes it or joins the run. */
  lemma RestJoins(stream: Stream, run: seq<Chunk>, chunk: Chunk)
    requires stream != [] && stream[0] == Some(chunk) && |Join(run + [chunk])| <= FRAME
    ensures Rest(stream, Join(run), FRAME) ==
            if |Join(run + [chunk])| == FRAME then Reassembly([Join(run + [chunk])], []).Then(Rest(stream[1..], [], FRAME))
            else Rest(stream[1..], Join(run + [chunk]), FRAME)
  {
    JoinSnoc(run, chunk);
    ThenUnit(Rest(stream[1..], Join(run + [chunk]), FRAME));
  }

  lemma HashedSnoc(run: seq<Chunk>, chunk: Chunk, digest: seq<Byte> -> Digest)
    ensures HashedRun(run + [chunk], digest) == HashedRun(run, digest) + [Hashed(chunk, digest)]
    ensures Size(HashedRun(run, digest) + [Hashed(chunk, digest)]) == |Join(run + [chunk])| == |Join(run)| + |chunk|
  {
    assert HashedRun(run + [chunk], digest) == HashedRun(run, digest) + [Hashed(chunk, digest)];
    HashedSize(run + [chunk], digest);
    JoinSnoc(run, chunk);
  }

  lemma {:induction false} SplitRefines(log: seq<Option<HashedChunk>>, stream: Stream, run: seq<Chunk>, digest: seq<Byte> -> Digest)
    requires Records(log, stream, digest)
    requires Split(log, HashedRun(run, digest)).Ok?
    requires run == [] || |Join(run)| > 0
    ensures Behind(PassesOf(stream, run), Split(log, HashedRun(run, digest)).value, digest, Rest(stream, Join(run), FRAME))
    decreases |log|, 1
  {
    if log == [] {
      assert Joins([]) == [] && Sizes([]) == [] && HashedRuns([], digest) == [];
      assert [] + Flush(Join(run)) == Flush(Join(run));
    } else {
      hide Behind;
      match stream[0]
      case None =>
        assert HashedRun([], digest) == [] && Join([]) == [];
        SplitRefines(log[1..], stream[1..], [], digest);
        var rest := Split(log[1..], []).value;
        ThenUnit(Rest(stream[1..], [], FRAME));
        if run == [] {
          assert HashedRun(run, digest) == [] && [] + rest.partial == rest.partial;
        } else {
          GapRefines(PassesOf(stream[1..], []), run, digest, rest, Rest(stream[1..], [], FRAME));
        }
      case Some(chunk) =>
        ChunkRefines(log, stream, run, chunk, digest);
    }
  }

  lemma {:induction false} ChunkRefines(log: seq<Option<HashedChunk>>, stream: Stream, run: seq<Chunk>, chunk: Chunk,
                                        digest: seq<Byte> -> Digest)
    requires Records(log, stream, digest) && stream != [] && stream[0] == Some(chunk)
    requires Split(log, HashedRun(run, digest)).Ok?
    ensures Behind(PassesOf(stream, run), Split(log, HashedRun(run, digest)).value, digest, Rest(stream, Join(run), FRAME))
    decreases |log|, 0
  {
    hide Behind, Hashed, HashedRun, Size, Join, Rest;
    assert chunk != [];
    HashedSnoc(run, chunk, digest);
    RestJoins(stream, run, chunk);
    if |Join(run + [chunk])| == FRAME {
      NothingHashed(digest);
      SplitRefines(log[1..], stream[1..], [], digest);
      FrameRefines(PassesOf(stream[1..], []), run + [chunk], digest, Split(log[1..], []).value, Rest(stream[1..], [], FRAME));
    } else {
      SplitRefines(log[1..], stream[1..], run + [chunk], digest);
    }
  }

  lemma NothingHashed(digest: seq<Byte> -> Digest)
    ensures HashedRun([], digest) == [] && Join([]) == []
  {
  }

  /** One more run in front. */
  lemma RunsCons(run: seq<Chunk>, runs: seq<seq<Chunk>>, digest: seq<Byte> -> Digest)
    ensures HashedRuns([run] + runs, digest) == [HashedRun(run, digest)] + HashedRuns(runs, digest)
    ensures Joins([run] + runs) == [Join(run)] + Joins(runs) && Sizes([run] + runs) == [|Join(run)|] + Sizes(runs)
  {
    hide HashedRun, Join;
  }

  lemma FrameRefines(q: BytePasses, run: seq<Chunk>, digest: seq<Byte> -> Digest, passes: Passes, whole: Reassembly)
    requires Behind(q, passes, digest, whole)
    ensures Behind(q.(complete := [run] + q.complete), Passes([HashedRun(run, digest)] + passes.complete, passes.partial, passes.open), digest,
                   Reassembly([Join(run)], []).Then(whole))
  {
    hide HashedRuns, HashedRun, Join, Joins, Sizes, Flush;
    RunsCons(run, q.complete, digest);
    assert [] + whole.rejected == whole.rejected;
  }

  lemma GapRefines(q: BytePasses, run: seq<Chunk>, digest: seq<Byte> -> Digest, passes: Passes, whole: Reassembly)
    requires run != [] && |Join(run)| > 0 && Behind(q, passes, digest, whole)
    ensures Behind(q.(partial := [run] + q.partial), Passes(passes.complete, [HashedRun(run, digest)] + passes.partial, passes.open),
                   digest, Reassembly([], [|Join(run)|]).Then(whole))
  {
    hide HashedRuns, HashedRun, Join, Joins, Sizes, Flush;
    RunsCons(run, q.partial, digest);
    assert [] + whole.frames == whole.frames;
    assert [|Join(run)|] + (Sizes(q.partial) + Flush(Join(q.open))) == ([|Join(run)|] + Sizes(q.partial)) + Flush(Join(q.open));
  }

  // ---------------------------------------------------------------- what acceptance means

  /** `chunk` is the part of `frame` that starts at byte `offset`, except for its first and last four bytes. */
  ghost predicate SamePixels(frame: seq<Byte>, offset: nat, chunk: Chunk) {
    && offset + |chunk| <= |frame|
    && forall x | 4 <= x < |chunk| - 4 :: frame[offset + x] == chunk[x]
  }

  /** No two chunks with different interiors share a digest. */
  ghost predicate CollisionFree(stream: Stream, digest: seq<Byte> -> Digest) {
    forall i, j | 0 <= i < |stream| && 0 <= j < |stream| && stream[i].Some? && stream[j].Some? ::
      digest(Interior(stream[i].value)) == digest(Interior(stream[j].value)) ==>
        Interior(stream[i].value) == Interior(stream[j].value)
  }

  /**
   An accepted log is a stream that reassembles to exactly two frames, rejecting exactly the partial passes in
   order and whatever was still open at the end.
   */
  lemma AcceptedStream(log: seq<Option<HashedChunk>>, stream: Stream, digest: seq<Byte> -> Digest)
    requires Records(log, stream, digest) && Verdict(log).Ok?
    ensures var q := PassesOf(stream, []);
            && Split(log, []) == Ok(q.Hashed(digest)) && |Reassemble(stream, FRAME).frames| == |q.complete| == 2
            && Reassemble(stream, FRAME) == Reassembly(Joins(q.complete), Sizes(q.partial) + Flush(Join(q.open)))
  {
    assert HashedRun([], digest) == [];
    SplitRefines(log, stream, [], digest);
  }

  /** Where in its frame request `p` belongs, `size` bytes having come before: after the bytes of its pass so far. */
  function Offset(stream: Stream, size: nat, p: nat): nat
    requires p <= |stream|
  {
    if p == 0 then size
    else if stream[0] == None then Offset(stream[1..], 0, p - 1)
    else
      var more := size + |stream[0].value|;
      Offset(stream[1..], if more == FRAME then 0 else more, p - 1)
  }

  /** No pass of the stream is overrun: every chunk fits into its frame where it belongs. */
  ghost predicate Fitting(stream: Stream, size: nat) {
    forall p | 0 <= p < |stream| && stream[p].Some? :: Offset(stream, size, p) + |stream[p].value| <= FRAME
  }

  lemma FittingStep(stream: Stream, size: nat)
    requires stream != []
    ensures var more := if stream[0] == None then 0 else size + |stream[0].value|;
            var next := if more == FRAME then 0 else more;
            Fitting(stream, size) <==> (stream[0].Some? ==> more <= FRAME) && Fitting(stream[1..], next)
  {
    var more := if stream[0] == None then 0 else size + |stream[0].value|;
    var next := if more == FRAME then 0 else more;
    assert Offset(stream, size, 0) == size;
    forall p | 0 < p < |stream|
      ensures Offset(stream, size, p) == Offset(stream[1..], next, p - 1) && stream[p] == stream[1..][p - 1]
    {
    }
    if Fitting(stream, size) {
      forall p | 0 <= p < |stream[1..]| && stream[1..][p].Some?
        ensures Offset(stream[1..], next, p) + |stream[1..][p].value| <= FRAME
      {
        assert stream[p + 1] == stream[1..][p] && Offset(stream, size, p + 1) == Offset(stream[1..], next, p);
      }
    }
  }

  /** The check finds an invalid boundary exactly when a chunk does not fit into its frame. */
  lemma {:induction false} SplitFits(log: seq<Option<HashedChunk>>, stream: Stream, run: seq<Chunk>, digest: seq<Byte> -> Digest)
    requires Records(log, stream, digest) && |Join(run)| < FRAME
    ensures Split(log, HashedRun(run, digest)) == Err(InvalidBoundary) <==> !Fitting(stream, |Join(run)|)
    ensures Split(log, HashedRun(run, digest)).Err? ==> Split(log, HashedRun(run, digest)) == Err(InvalidBoundary)
  {
    if log != [] {
      hide Fitting, Offset, Hashed, HashedRun, Size, Join;
      FittingStep(stream, |Join(run)|);
      NothingHashed(digest);
      match stream[0]
      case None =>
        SplitFits(log[1..], stream[1..], [], digest);
      case Some(chunk) =>
        HashedSnoc(run, chunk, digest);
        if |Join(run + [chunk])| == FRAME {
          SplitFits(log[1..], stream[1..], [], digest);
        } else if |Join(run + [chunk])| < FRAME {
          SplitFits(log[1..], stream[1..], run + [chunk], digest);
        }
    }
  }

  /** What the stream's passes must be like: two whole ones, and the cut ones their beginnings, as far as digests tell. */
  ghost predicate Unchanged(q: BytePasses, digest: seq<Byte> -> Digest) {
    && |q.complete| == 2 && HashedRun(q.complete[0], digest) == HashedRun(q.complete[1], digest)
    && forall k | 0 <= k < |q.partial| :: HashedRun(q.partial[k], digest) <= HashedRun(q.complete[0], digest)
  }

  /** The check accepts exactly the streams in which every chunk fits and no pass differs. */
  lemma VerdictExact(log: seq<Option<HashedChunk>>, stream: Stream, digest: seq<Byte> -> Digest)
    requires Records(log, stream, digest)
    ensures Verdict(log) == Err(InvalidBoundary) <==> !Fitting(stream, 0)
    ensures Verdict(log).Ok? <==> Fitting(stream, 0) && Unchanged(PassesOf(stream, []), digest)
  {
    NothingHashed(digest);
    SplitFits(log, stream, [], digest);
    if Fitting(stream, 0) {
      SplitRefines(log, stream, [], digest);
      var q, passes := PassesOf(stream, []), Split(log, []).value;
      hide Fitting, Split, PassesOf, HashedRun, Records;
      assert forall k | 0 <= k < |q.complete| :: passes.complete[k] == HashedRun(q.complete[k], digest);
      assert forall k | 0 <= k < |q.partial| :: passes.partial[k] == HashedRun(q.partial[k], digest);
    }
  }

  /** The pass of request `p` is cut short by the missing request `gap`: it neither ended nor was completed before. */
  ghost predicate CutShort(stream: Stream, size: nat, p: nat, gap: nat) {
    p < gap < |stream| && stream[gap] == None && forall x | p < x <= gap :: Offset(stream, size, x) > 0
  }

  lemma CutShortLater(stream: Stream, size: nat, p: nat, gap: nat)
    requires CutShort(stream, size, p, gap) && p > 0
    ensures stream[0] == None ==> CutShort(stream[1..], 0, p - 1, gap - 1)
    ensures stream[0].Some? ==>
              var more := size + |stream[0].value|; CutShort(stream[1..], if more == FRAME then 0 else more, p - 1, gap - 1)
  {
    var more := if stream[0] == None then 0 else size + |stream[0].value|;
    var next := if more == FRAME then 0 else more;
    forall x | p - 1 < x <= gap - 1
      ensures Offset(stream[1..], next, x) > 0
    {
      assert Offset(stream, size, x + 1) > 0;
    }
  }

  /** A run that is cut short before it is completed becomes the beginning of the first partial pass. */
  lemma {:induction false} RunCut(stream: Stream, run: seq<Chunk>, gap: nat)
    requires run != [] && gap < |stream| && stream[gap] == None
    requires forall x | 0 < x <= gap :: Offset(stream, |Join(run)|, x) > 0
    ensures var q := PassesOf(stream, run); q.partial != [] && run <= q.partial[0]
  {
    if gap > 0 {
      assert Offset(stream, |Join(run)|, 1) > 0;
      var chunk := stream[0].value;
      JoinSnoc(run, chunk);
      forall x | 0 < x <= gap - 1
        ensures Offset(stream[1..], |Join(run + [chunk])|, x) > 0
      {
        assert Offset(stream, |Join(run)|, x + 1) > 0;
      }
      RunCut(stream[1..], run + [chunk], gap - 1);
    }
  }

  /** Every delivered chunk whose pass was cut short is in a partial pass, at its offset. */
  lemma {:induction false} CutLocated(stream: Stream, run: seq<Chunk>, p: nat, gap: nat) returns (k: nat, j: nat)
    requires CutShort(stream, |Join(run)|, p, gap) && stream[p].Some?
    ensures var q := PassesOf(stream, run);
            && k < |q.partial| && j < |q.partial[k]| && q.partial[k][j] == stream[p].value
            && |Join(q.partial[k][..j])| == Offset(stream, |Join(run)|, p)
  {
    if p > 0 {
      CutShortLater(stream, |Join(run)|, p, gap);
      match stream[0]
      case None =>
        assert Join([]) == [];
        k, j := CutLocated(stream[1..], [], p - 1, gap - 1);
        k := if run == [] then k else k + 1;
      case Some(chunk) =>
        JoinSnoc(run, chunk);
        if |Join(run + [chunk])| == FRAME {
          assert Join([]) == [];
          k, j := CutLocated(stream[1..], [], p - 1, gap - 1);
        } else {
          k, j := CutLocated(stream[1..], run + [chunk], p - 1, gap - 1);
        }
    } else {
      var chunk := stream[0].value;
      JoinSnoc(run, chunk);
      assert Offset(stream, |Join(run)|, 1) > 0;
      forall x | 0 < x <= gap - 1
        ensures Offset(stream[1..], |Join(run + [chunk])|, x) > 0
      {
        assert Offset(stream, |Join(run)|, x + 1) > 0;
      }
      RunCut(stream[1..], run + [chunk], gap - 1);
      k, j := 0, |run|;
      assert PassesOf(stream, run).partial[0][..|run|] == run;
    }
  }

  lemma {:induction false} JoinAt(run: seq<Chunk>, j: nat)
    requires j < |run|
    ensures |Join(run[..j])| + |run[j]| <= |Join(run)|
    ensures Join(run)[|Join(run[..j])|..|Join(run[..j])| + |run[j]|] == run[j]
  {
    JoinConcat(run[..j], run[j..]);
    assert run[..j] + run[j..] == run;
    assert Join(run[j..]) == run[j] + Join(run[j..][1..]);
  }

  lemma SameSizes(a: seq<Chunk>, b: seq<Chunk>, digest: seq<Byte> -> Digest, j: nat)
    requires j <= |a| && HashedRun(a, digest) <= HashedRun(b, digest)
    ensures j <= |b| && |Join(a[..j])| == |Join(b[..j])|
  {
    HashedSize(a[..j], digest);
    HashedSize(b[..j], digest);
    assert HashedRun(a[..j], digest) == HashedRun(a, digest)[..j] == HashedRun(b, digest)[..j] == HashedRun(b[..j], digest);
  }

  lemma PrefixPixels(cut: seq<Chunk>, whole: seq<Chunk>, digest: seq<Byte> -> Digest, j: nat)
    requires HashedRun(cut, digest) <= HashedRun(whole, digest) && j < |cut|
    requires digest(Interior(cut[j])) == digest(Interior(whole[j])) ==> Interior(cut[j]) == Interior(whole[j])
    ensures SamePixels(Join(whole), |Join(cut[..j])|, cut[j])
    ensures Hashed(cut[j], digest) == Hashed(whole[j], digest)
  {
    assert HashedRun(cut, digest)[j] == HashedRun(whole, digest)[j];
    SameSizes(cut, whole, digest, j);
    JoinAt(whole, j);
    var c, d, offset, frame := cut[j], whole[j], |Join(whole[..j])|, Join(whole);
    forall x | 4 <= x < |c| - 4
      ensures frame[offset + x] == c[x]
    {
      assert frame[offset + x] == frame[offset..offset + |d|][x];
      assert Interior(c)[x - 4] == c[x] && Interior(d)[x - 4] == d[x];
    }
  }

  ghost predicate Delivered(runs: seq<seq<Chunk>>, run: seq<Chunk>, stream: Stream) {
    forall k, c | 0 <= k < |runs| && c in runs[k] :: c in run || Some(c) in stream
  }

  lemma DeliveredLater(runs: seq<seq<Chunk>>, run': seq<Chunk>, run: seq<Chunk>, stream: Stream)
    requires stream != [] && Delivered(runs, run', stream[1..]) && (forall c | c in run' :: c in run || Some(c) == stream[0])
    ensures Delivered(runs, run, stream)
    ensures forall first: seq<Chunk> | (forall c | c in first :: c in run || Some(c) == stream[0]) ::
              Delivered([first] + runs, run, stream)
  {
    assert stream == [stream[0]] + stream[1..];
  }

  /** The chunks of a pass are chunks of the stream. */
  lemma {:induction false} PassesDelivered(stream: Stream, run: seq<Chunk>)
    ensures Delivered(PassesOf(stream, run).complete, run, stream) && Delivered(PassesOf(stream, run).partial, run, stream)
  {
    if stream != [] {
      hide Delivered;
      var longer := if stream[0].Some? then run + [stream[0].value] else [];
      var next := if stream[0].Some? && |Join(longer)| != FRAME then longer else [];
      var q := PassesOf(stream[1..], next);
      PassesDelivered(stream[1..], next);
      DeliveredLater(q.complete, next, run, stream);
      DeliveredLater(q.partial, next, run, stream);
      assert forall c | c in run :: c in run || Some(c) == stream[0];
      assert forall c | c in longer :: c in run || Some(c) == stream[0];
    }
  }

  /**
   Downloaded pixels did not change: in an accepted log every chunk delivered in a pass that was then cut short is
   found in both frames, at the offset where it was delivered, with the same pixels.
   */
  lemma PixelsUnchanged(log: seq<Option<HashedChunk>>, stream: Stream, digest: seq<Byte> -> Digest, p: nat, gap: nat, n: nat)
    requires Records(log, stream, digest) && Verdict(log).Ok? && CollisionFree(stream, digest)
    requires CutShort(stream, 0, p, gap) && stream[p].Some? && n < 2
    ensures |Reassemble(stream, FRAME).frames| == 2
    ensures SamePixels(Reassemble(stream, FRAME).frames[n], Offset(stream, 0, p), stream[p].value)
  {
    AcceptedStream(log, stream, digest);
    assert Join([]) == [];
    var k, j := CutLocated(stream, [], p, gap);
    PassesDelivered(stream, []);
    hide SamePixels, Records, Join, Interior, Hashed, HashedRun, PassesOf, CollisionFree, Delivered, Verdict, Split;
    PassPixels(log, stream, digest, k, j, n);
  }

  /** The same of a chunk given by its place in the partial passes. */
  lemma PassPixels(log: seq<Option<HashedChunk>>, stream: Stream, digest: seq<Byte> -> Digest, k: nat, j: nat, n: nat)
    requires Verdict(log).Ok? && CollisionFree(stream, digest) && n < 2
    requires var q := PassesOf(stream, []);
             && Split(log, []) == Ok(q.Hashed(digest)) && k < |q.partial| && j < |q.partial[k]|
             && Delivered(q.complete, [], stream) && Delivered(q.partial, [], stream)
    ensures var q := PassesOf(stream, []);
            |q.complete| == 2 && SamePixels(Join(q.complete[n]), |Join(q.partial[k][..j])|, q.partial[k][j])
  {
    hide SamePixels, Join, Interior, Hashed, HashedRun, PassesOf, CollisionFree, Split;
    var q := PassesOf(stream, []);
    var passes := Split(log, []).value;
    var cut, whole := q.partial[k], q.complete[n];
    assert passes.partial[k] == HashedRun(cut, digest) && passes.complete[n] == HashedRun(whole, digest);
    assert passes.partial[k] <= passes.complete[n];
    assert cut[j] in cut && whole[j] in whole;
    NoCollision(stream, digest, cut[j], whole[j]);
    PrefixPixels(cut, whole, digest, j);
  }

  lemma NoCollision(stream: Stream, digest: seq<Byte> -> Digest, c: Chunk, d: Chunk)
    requires CollisionFree(stream, digest) && Some(c) in stream && Some(d) in stream
    ensures digest(Interior(c)) == digest(Interior(d)) ==> Interior(c) == Interior(d)
  {
    var i :| 0 <= i < |stream| && stream[i] == Some(c);
    var j :| 0 <= j < |stream| && stream[j] == Some(d);
  }

  /** The bytes whose digests were compared. */
  function InteriorBytes(run: seq<Chunk>): nat {
    if run == [] then 0 else |Interior(run[0])| + InteriorBytes(run[1..])
  }

  function AllInteriorBytes(runs: seq<seq<Chunk>>): nat {
    if runs == [] then 0 else InteriorBytes(runs[0]) + AllInteriorBytes(runs[1..])
  }

  lemma {:induction false} ComparedBytes(run: seq<Chunk>, digest: seq<Byte> -> Digest)
    ensures ComparedIn(HashedRun(run, digest)) <= InteriorBytes(run)
    ensures ComparedIn(HashedRun(run, digest)) == InteriorBytes(run) <==> forall i | 0 <= i < |run| :: |run[i]| >= 8
    ensures ComparedIn(HashedRun(run, digest)) == |Join(run)| - 8 * |run|
  {
    if run != [] {
      assert HashedRun(run, digest)[1..] == HashedRun(run[1..], digest);
      assert run == [run[0]] + run[1..];
      ComparedBytes(run[1..], digest);
    }
  }

  lemma {:induction false} CountOfRuns(runs: seq<seq<Chunk>>, digest: seq<Byte> -> Digest)
    ensures Compared(HashedRuns(runs, digest)) <= AllInteriorBytes(runs)
    ensures Compared(HashedRuns(runs, digest)) == AllInteriorBytes(runs) <==>
            forall k, i | 0 <= k < |runs| && 0 <= i < |runs[k]| :: |runs[k][i]| >= 8
  {
    if runs != [] {
      assert HashedRuns(runs, digest)[1..] == HashedRuns(runs[1..], digest);
      ComparedBytes(runs[0], digest);
      CountOfRuns(runs[1..], digest);
      assert forall k | 1 <= k < |runs| :: runs[k] == runs[1..][k - 1];
    }
  }

  /**
   The count reported for an accepted log never exceeds the bytes of the cut passes actually compared, and equals
   them exactly when no chunk of a cut pass is shorter than the eight bytes its digest leaves out.
   */
  lemma CountExact(log: seq<Option<HashedChunk>>, stream: Stream, digest: seq<Byte> -> Digest)
    requires Records(log, stream, digest) && Verdict(log).Ok?
    ensures var partial := PassesOf(stream, []).partial;
            && Verdict(log).value <= AllInteriorBytes(partial)
            && (Verdict(log).value == AllInteriorBytes(partial) <==>
                forall k, i | 0 <= k < |partial| && 0 <= i < |partial[k]| :: |partial[k][i]| >= 8)
  {
    AcceptedStream(log, stream, digest);
    CountOfRuns(PassesOf(stream, []).partial, digest);
  }

  /** An accepted log with a four-byte chunk: nothing is compared, and the count is negative. */
  lemma ShortChunkCount(small: Digest, large: Digest)
    ensures var a, b := HashedChunk(4, small), HashedChunk(FRAME - 4, large);
            Verdict([Some(a), None, Some(a), Some(b), Some(a), Some(b)]) == Ok(-4)
  {
    var a, b := HashedChunk(4, small), HashedChunk(FRAME - 4, large);
    ShortChunkSplit(a, b);
    hide Split;
    assert [a] <= [a, b] && [a][1..] == [] && [[a]][1..] == [];
    assert Compared([[a]]) == ComparedIn([a]) == -4;
  }

  lemma ShortChunkSplit(a: HashedChunk, b: HashedChunk)
    requires a.length == 4 && b.length == FRAME - 4
    ensures Split([Some(a), None, Some(a), Some(b), Some(a), Some(b)], []) == Ok(Passes([[a, b], [a, b]], [[a]], []))
  {
    var rest := [Some(a), Some(b), Some(a), Some(b)];
    var log := [Some(a), None] + rest;
    assert log == [Some(a), None, Some(a), Some(b), Some(a), Some(b)];
    TwoFrames(a, b);
    SizeSnoc([], a);
    hide Size;
    assert Size([]) == 0 by { SizeOfNothing(); }
    assert [] + [a] == [a] && log[1..] == [None] + rest && log[1..][1..] == rest;
    assert Split(log, []) == Split(log[1..], [a]);
    assert Cut([a]) + [] == [[a]];
  }

  lemma TwoFrames(a: HashedChunk, b: HashedChunk)
    requires a.length == 4 && b.length == FRAME - 4
    ensures Split([Some(a), Some(b), Some(a), Some(b)], []) == Ok(Passes([[a, b], [a, b]], [], []))
  {
    var one := [Some(a), Some(b)];
    assert one + [] == one && one + one == [Some(a), Some(b), Some(a), Some(b)];
    assert [[a, b]] + [[a, b]] == [[a, b], [a, b]] && [[a, b]] + [] == [[a, b]];
    assert Split([], []) == Ok(Passes([], [], []));
    OneFrame(a, b, []);
    OneFrame(a, b, one);
  }

  lemma OneFrame(a: HashedChunk, b: HashedChunk, log: seq<Option<HashedChunk>>)
    requires a.length == 4 && b.length == FRAME - 4 && Split(log, []).Ok?
    ensures var rest := Split(log, []).value;
            Split([Some(a), Some(b)] + log, []) == Ok(Passes([[a, b]] + rest.complete, rest.partial, rest.open))
  {
    var more := [Some(b)] + log;
    var all := [Some(a), Some(b)] + log;
    assert all[0] == Some(a) && all[1..] == more && more[1..] == log;
    SizeSnoc([], a);
    SizeSnoc([a], b);
    assert [] + [a] == [a] && [a] + [b] == [a, b];
    assert Split(all, []) == Split(more, [a]);
  }
}
