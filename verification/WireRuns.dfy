/**
 Whole frames out of a stream of submitted USB requests, some of which returned nothing.

 `CompleteRuns` is the loop; `Rest` is what it computes from any point of the stream on.
 */
module WireRuns {
  import opened Wrappers
  import opened Bytes

  type Chunk = seq<Byte>

  /** What each submitted request delivered: a chunk, or nothing when it was cancelled or missing. */
  type Stream = seq<Option<Chunk>>

  datatype Reassembly = Reassembly(frames: seq<seq<Byte>>, rejected: seq<nat>) {
    function Then(next: Reassembly): Reassembly {
      Reassembly(frames + next.frames, rejected + next.rejected)
    }
  }

  const NOTHING := Reassembly([], [])

  function StreamOf(submitted: seq<int>, chunks: map<int, Chunk>): (s: Stream)
    ensures |s| == |submitted|
    ensures forall i | 0 <= i < |s| :: s[i].Some? <==> submitted[i] in chunks
    ensures forall i | 0 <= i < |s| :: submitted[i] in chunks ==> s[i] == Some(chunks[submitted[i]])
  {
    seq(|submitted|, i requires 0 <= i < |submitted| =>
      if submitted[i] in chunks then Some(chunks[submitted[i]]) else None)
  }

  /** An abandoned run is reported by its size, unless it is empty. */
  function Flush(run: seq<Byte>): seq<nat> {
    if run == [] then [] else [|run|]
  }

  /** What one request emits, and the bytes collected towards a frame after it. */
  datatype Turn = Turn(out: Reassembly, run: seq<Byte>)

  function TurnOf(request: Option<Chunk>, run: seq<Byte>, expected: int): Turn {
    if request == None then Turn(Reassembly([], Flush(run)), []) else
    var chunk := request.value;
    var overflows := |run| + |chunk| > expected;
    var flushed := if overflows then Flush(run) else [];
    var joined := if overflows then chunk else run + chunk;
    if |chunk| > expected then Turn(Reassembly([], flushed + [|chunk|]), [])
    else if |joined| == expected then Turn(Reassembly([joined], flushed), [])
    else Turn(Reassembly([], flushed), joined)
  }

  /** The frames and rejected sizes still to come, with the bytes of `run` collected so far. */
  function Rest(stream: Stream, run: seq<Byte>, expected: int): Reassembly {
    if stream == [] then Reassembly([], Flush(run)) else
    var turn := TurnOf(stream[0], run, expected);
    turn.out.Then(Rest(stream[1..], turn.run, expected))
  }

  function Reassemble(stream: Stream, expected: int): Reassembly {
    Rest(stream, [], expected)
  }

  method CompleteRuns(submitted: seq<int>, chunks: map<int, Chunk>, expected: int)
    returns (frames: seq<seq<Byte>>, rejected: seq<nat>)
    ensures Reassembly(frames, rejected) == Reassemble(StreamOf(submitted, chunks), expected)
  {
    ghost var stream := StreamOf(submitted, chunks);
    frames, rejected := [], [];
    var run: seq<Chunk>, size := [], 0;
    assert stream[0..] == stream;
    ThenUnit(Rest(stream, [], expected));
    for i := 0 to |submitted|
      invariant |Join(run)| == size
      invariant Reassemble(stream, expected) == Reassembly(frames, rejected).Then(Rest(stream[i..], Join(run), expected))
    {
      ghost var done, turn := Reassembly(frames, rejected), TurnOf(stream[i], Join(run), expected);
      assert stream[i..][1..] == stream[i + 1..] && stream[i..][0] == stream[i];
      ThenAssociates(done, turn.out, Rest(stream[i + 1..], turn.run, expected));
      frames, rejected, run, size := CompleteTurn(submitted[i], chunks, expected, frames, rejected, run, size);
    }
    assert stream[|submitted|..] == [];
    if size != 0 {
      rejected := rejected + [size];
    }
  }

  /** The body of the loop over submitted requests. */
  method CompleteTurn(sequence: int, chunks: map<int, Chunk>, expected: int,
                      frames0: seq<seq<Byte>>, rejected0: seq<nat>, run0: seq<Chunk>, size0: nat)
    returns (frames: seq<seq<Byte>>, rejected: seq<nat>, run: seq<Chunk>, size: nat)
    requires |Join(run0)| == size0
    ensures |Join(run)| == size
    ensures var turn := TurnOf(if sequence in chunks then Some(chunks[sequence]) else None, Join(run0), expected);
            && Reassembly(frames, rejected) == Reassembly(frames0, rejected0).Then(turn.out)
            && Join(run) == turn.run
  {
    frames, rejected, run, size := frames0, rejected0, run0, size0;
    assert frames0 + [] == frames0 && rejected0 + [] == rejected0;
    var chunk := if sequence in chunks then Some(chunks[sequence]) else None;
    if chunk == None || size + |chunk.value| > expected {
      if size != 0 {
        rejected := rejected + [size];
      }
      run, size := [], 0;
    }
    if chunk == None {
      return;
    }
    ghost var flushed := if size0 + |chunk.value| > expected then Flush(Join(run0)) else [];
    assert rejected == rejected0 + flushed && [] + chunk.value == chunk.value;
    if |chunk.value| > expected {
      rejected := rejected + [|chunk.value|];
      assert rejected == rejected0 + (flushed + [|chunk.value|]);
      return;
    }
    JoinSnoc(run, chunk.value);
    run := run + [chunk.value];
    size := size + |chunk.value|;
    if size == expected {
      frames := frames + [Join(run)];
      run, size := [], 0;
    }
  }

  // ---------------------------------------------------------------- concatenation

  function Join(chunks: seq<Chunk>): seq<Byte> {
    if chunks == [] then [] else chunks[0] + Join(chunks[1..])
  }

  lemma {:induction false} JoinConcat(a: seq<Chunk>, b: seq<Chunk>)
    ensures Join(a + b) == Join(a) + Join(b)
  {
    if a == [] {
      assert a + b == b;
    } else {
      JoinConcat(a[1..], b);
      assert (a + b)[0] == a[0] && (a + b)[1..] == a[1..] + b;
      BytesAssociate(a[0], Join(a[1..]), Join(b));
    }
  }

  lemma BytesAssociate(a: seq<Byte>, b: seq<Byte>, c: seq<Byte>)
    ensures a + (b + c) == (a + b) + c
  {
  }

  lemma JoinSnoc(run: seq<Chunk>, chunk: Chunk)
    ensures Join(run + [chunk]) == Join(run) + chunk
  {
    JoinConcat(run, [chunk]);
    assert Join([chunk]) == chunk;
  }

  lemma ThenAssociates(a: Reassembly, b: Reassembly, c: Reassembly)
    ensures a.Then(b).Then(c) == a.Then(b.Then(c))
  {
  }

  lemma ThenUnit(a: Reassembly)
    ensures NOTHING.Then(a) == a && a.Then(NOTHING) == a
  {
  }

  // ---------------------------------------------------------------- soundness

  /** A stretch of the stream, from request `lo` up to but not including request `hi`. */
  datatype Stretch = Stretch(lo: nat, hi: nat)

  /** Every request in `stream[lo..hi]` delivered a chunk. */
  ghost predicate Present(stream: Stream, lo: nat, hi: nat) {
    lo <= hi <= |stream| && forall i | lo <= i < hi :: stream[i].Some?
  }

  function Payload(stream: Stream, lo: nat, hi: nat): seq<Byte>
    requires Present(stream, lo, hi)
    decreases hi - lo
  {
    if lo == hi then [] else Payload(stream, lo, hi - 1) + stream[hi - 1].value
  }

  /** The frames are the payloads of disjoint, ordered stretches without a missing request, one frame's bytes each. */
  ghost predicate FromStretches(stream: Stream, from: nat, frames: seq<seq<Byte>>, at: seq<Stretch>, expected: int) {
    && |at| == |frames|
    && (forall k | 0 <= k < |at| :: && from <= at[k].lo && Present(stream, at[k].lo, at[k].hi)
                                    && frames[k] == Payload(stream, at[k].lo, at[k].hi) && |frames[k]| == expected)
    && forall j, k | 0 <= j < k < |at| :: at[j].hi <= at[k].lo
  }

  /** After request `i`, the bytes collected are again the payload of a stretch, and so is a frame it completes. */
  lemma TurnStretch(stream: Stream, lo: nat, i: nat, expected: int) returns (kept: nat)
    requires Present(stream, lo, i) && i < |stream|
    ensures var turn := TurnOf(stream[i], Payload(stream, lo, i), expected);
            && lo <= kept <= i + 1
            && Present(stream, kept, i + 1)
            && if turn.out.frames == [] then turn.run == Payload(stream, kept, i + 1)
               else && turn.out.frames == [Payload(stream, kept, i + 1)] && turn.run == []
                    && |Payload(stream, kept, i + 1)| == expected
  {
    var run := Payload(stream, lo, i);
    if stream[i] == None || |stream[i].value| > expected {
      kept := i + 1;
    } else if |run| + |stream[i].value| > expected {
      kept := i;
      assert Payload(stream, i, i + 1) == stream[i].value;
    } else {
      kept := lo;
    }
  }

  lemma StretchFirst(stream: Stream, from: nat, lo: nat, hi: nat, frames: seq<seq<Byte>>, at: seq<Stretch>, expected: int)
    requires from <= lo && Present(stream, lo, hi) && |Payload(stream, lo, hi)| == expected
    requires FromStretches(stream, hi, frames, at, expected)
    ensures FromStretches(stream, from, [Payload(stream, lo, hi)] + frames, [Stretch(lo, hi)] + at, expected)
  {
  }

  lemma {:induction false} RestSound(stream: Stream, lo: nat, i: nat, expected: int) returns (at: seq<Stretch>)
    requires Present(stream, lo, i)
    ensures FromStretches(stream, lo, Rest(stream[i..], Payload(stream, lo, i), expected).frames, at, expected)
    decreases |stream| - i
  {
    var tail := stream[i..];
    if tail == [] {
      at := [];
    } else {
      assert tail[1..] == stream[i + 1..] && tail[0] == stream[i];
      var turn := TurnOf(stream[i], Payload(stream, lo, i), expected);
      var kept := TurnStretch(stream, lo, i, expected);
      hide TurnOf, Payload;
      if turn.out.frames == [] {
        at := RestSound(stream, kept, i + 1, expected);
        assert [] + Rest(tail[1..], turn.run, expected).frames == Rest(tail[1..], turn.run, expected).frames;
      } else {
        assert Payload(stream, i + 1, i + 1) == [] by {
          PayloadEmpty(stream, i + 1);
        }
        var later := RestSound(stream, i + 1, i + 1, expected);
        at := [Stretch(kept, i + 1)] + later;
        StretchFirst(stream, lo, kept, i + 1, Rest(tail[1..], [], expected).frames, later, expected);
      }
    }
  }

  lemma PayloadEmpty(stream: Stream, i: nat)
    requires i <= |stream|
    ensures Payload(stream, i, i) == []
  {
  }

  /** Every frame is exactly `expected` bytes, joined from consecutive requests none of which is missing. */
  lemma ReassemblySound(stream: Stream, expected: int)
    ensures exists at :: FromStretches(stream, 0, Reassemble(stream, expected).frames, at, expected)
  {
    assert stream[0..] == stream;
    var at := RestSound(stream, 0, 0, expected);
    PayloadEmpty(stream, 0);
    assert FromStretches(stream, 0, Reassemble(stream, expected).frames, at, expected);
  }

  // ---------------------------------------------------------------- separation

  lemma {:induction false} RestAcrossGap(a: Stream, b: Stream, run: seq<Byte>, expected: int)
    ensures Rest(a + [None] + b, run, expected) == Rest(a, run, expected).Then(Rest(b, [], expected))
  {
    var whole := a + [None] + b;
    if a == [] {
      assert whole[1..] == b;
    } else {
      assert whole[0] == a[0] && whole[1..] == a[1..] + [None] + b;
      var turn := TurnOf(a[0], run, expected);
      RestAcrossGap(a[1..], b, turn.run, expected);
      ThenAssociates(turn.out, Rest(a[1..], turn.run, expected), Rest(b, [], expected));
    }
  }

  /** A missing request separates the computation: nothing before it influences a frame after it. */
  lemma GapSeparates(a: Stream, b: Stream, expected: int)
    ensures Reassemble(a + [None] + b, expected) == Reassemble(a, expected).Then(Reassemble(b, expected))
  {
    RestAcrossGap(a, b, [], expected);
  }

  // ---------------------------------------------------------------- conservation

  function StreamBytes(stream: Stream): nat {
    if stream == [] then 0 else (if stream[0].Some? then |stream[0].value| else 0) + StreamBytes(stream[1..])
  }

  function Sum(sizes: seq<nat>): nat {
    if sizes == [] then 0 else sizes[0] + Sum(sizes[1..])
  }

  lemma {:induction false} SumConcat(a: seq<nat>, b: seq<nat>)
    ensures Sum(a + b) == Sum(a) + Sum(b)
  {
    if a == [] {
      assert a + b == b;
    } else {
      SumConcat(a[1..], b);
      assert (a + b)[1..] == a[1..] + b;
    }
  }

  function Total(r: Reassembly): nat {
    |Join(r.frames)| + Sum(r.rejected)
  }

  lemma TotalThen(a: Reassembly, b: Reassembly)
    ensures Total(a.Then(b)) == Total(a) + Total(b)
  {
    JoinConcat(a.frames, b.frames);
    SumConcat(a.rejected, b.rejected);
  }

  lemma FlushSum(run: seq<Byte>)
    ensures Sum(Flush(run)) == |run|
  {
  }

  lemma TurnConserves(request: Option<Chunk>, run: seq<Byte>, expected: int)
    ensures var turn := TurnOf(request, run, expected);
            Total(turn.out) + |turn.run| == |run| + if request.Some? then |request.value| else 0
  {
    FlushSum(run);
    if request.Some? {
      var flushed := if |run| + |request.value| > expected then Flush(run) else [];
      SumConcat(flushed, [|request.value|]);
      assert Sum([|request.value|]) == |request.value|;
      assert Join([request.value]) == request.value && Join([run + request.value]) == run + request.value;
    }
  }

  lemma {:induction false} RestConserves(stream: Stream, run: seq<Byte>, expected: int)
    ensures Total(Rest(stream, run, expected)) == |run| + StreamBytes(stream)
  {
    FlushSum(run);
    if stream != [] {
      var turn := TurnOf(stream[0], run, expected);
      TurnConserves(stream[0], run, expected);
      RestConserves(stream[1..], turn.run, expected);
      TotalThen(turn.out, Rest(stream[1..], turn.run, expected));
    }
  }

  /** Every delivered byte is accounted for once, in a frame or in a rejected size. */
  lemma BytesConserved(stream: Stream, expected: int)
    ensures |Join(Reassemble(stream, expected).frames)| + Sum(Reassemble(stream, expected).rejected) == StreamBytes(stream)
  {
    RestConserves(stream, [], expected);
  }

  lemma {:induction false} RestRejects(stream: Stream, run: seq<Byte>, expected: int)
    requires run == [] || |run| < expected
    ensures expected !in Rest(stream, run, expected).rejected
    ensures 0 in Rest(stream, run, expected).rejected <==> expected < 0 && Some([]) in stream
  {
    if stream != [] {
      assert stream == [stream[0]] + stream[1..];
      RestRejects(stream[1..], TurnOf(stream[0], run, expected).run, expected);
    }
  }

  /** A whole frame is never rejected, and a size of zero only for an empty chunk against a negative frame size. */
  lemma RejectedSizes(stream: Stream, expected: int)
    ensures expected !in Reassemble(stream, expected).rejected
    ensures 0 in Reassemble(stream, expected).rejected <==> expected < 0 && Some([]) in stream
  {
    RestRejects(stream, [], expected);
  }

  // ---------------------------------------------------------------- recovery

  function Delivered(chunks: seq<Chunk>): (s: Stream)
    ensures |s| == |chunks|
  {
    seq(|chunks|, i requires 0 <= i < |chunks| => Some(chunks[i]))
  }

  lemma {:induction false} RestOfPass(pass: seq<Chunk>, b: Stream, run: seq<Byte>, expected: int)
    requires pass != [] && forall i | 0 <= i < |pass| :: pass[i] != []
    requires expected == |run| + |Join(pass)|
    ensures Rest(Delivered(pass) + b, run, expected) == Reassembly([run + Join(pass)], []).Then(Rest(b, [], expected))
  {
    var stream, later := Delivered(pass) + b, pass[1..];
    assert stream[0] == Some(pass[0]) && stream[1..] == Delivered(later) + b;
    assert run + Join(pass) == (run + pass[0]) + Join(later);
    if later == [] {
      assert stream[1..] == b && run + Join(pass) == run + pass[0];
      ThenUnit(Rest(b, [], expected));
    } else {
      assert Join(later) == later[0] + Join(later[1..]) && later[0] == pass[1];
      RestOfPass(later, b, run + pass[0], expected);
      assert TurnOf(stream[0], run, expected) == Turn(NOTHING, run + pass[0]);
      ThenUnit(Rest(stream[1..], run + pass[0], expected));
    }
  }

  /**
   A complete transfer after a missing request is always recovered whole, whatever came before the gap and
   whatever follows.
   */
  lemma ReplayRecovered(a: Stream, pass: seq<Chunk>, b: Stream)
    requires pass != [] && forall i | 0 <= i < |pass| :: pass[i] != []
    ensures var expected := |Join(pass)|;
            Reassemble(a + [None] + (Delivered(pass) + b), expected)
            == Reassemble(a, expected).Then(Reassembly([Join(pass)], []).Then(Reassemble(b, expected)))
  {
    GapSeparates(a, Delivered(pass) + b, |Join(pass)|);
    RestOfPass(pass, b, [], |Join(pass)|);
    assert [] + Join(pass) == Join(pass);
  }

  /** A chunk too large for the bytes collected so far separates like a gap, and begins the next run itself. */
  lemma OverflowSeparates(run: seq<Byte>, chunk: Chunk, b: Stream, expected: int)
    requires 0 < |run| && |chunk| <= expected < |run| + |chunk|
    ensures Rest([Some(chunk)] + b, run, expected) == Reassembly([], [|run|]).Then(Reassemble([Some(chunk)] + b, expected))
  {
    var stream := [Some(chunk)] + b;
    assert stream[0] == Some(chunk) && stream[1..] == b && [] + chunk == chunk;
  }

  /** A chunk larger than a frame is rejected by itself, after the bytes collected before it, and nothing is kept. */
  lemma OversizedRejected(run: seq<Byte>, chunk: Chunk, b: Stream, expected: int)
    requires |chunk| > expected
    ensures Rest([Some(chunk)] + b, run, expected) == Reassembly([], Flush(run) + [|chunk|]).Then(Reassemble(b, expected))
  {
    var stream := [Some(chunk)] + b;
    assert stream[0] == Some(chunk) && stream[1..] == b;
    if run == [] {
      assert Flush(run) == [] && [] + [|chunk|] == [|chunk|];
    }
  }

  /** Chunks that stay below a frame are collected. */
  lemma {:induction false} RestOfCut(cut: seq<Chunk>, b: Stream, run: seq<Byte>, expected: int)
    requires |run| + |Join(cut)| < expected
    ensures Rest(Delivered(cut) + b, run, expected) == Rest(b, run + Join(cut), expected)
  {
    var stream := Delivered(cut) + b;
    if cut == [] {
      assert stream == b && run + Join(cut) == run;
    } else {
      var later := cut[1..];
      assert stream[0] == Some(cut[0]) && stream[1..] == Delivered(later) + b;
      assert run + Join(cut) == (run + cut[0]) + Join(later);
      RestOfCut(later, b, run + cut[0], expected);
      assert TurnOf(stream[0], run, expected) == Turn(NOTHING, run + cut[0]);
      ThenUnit(Rest(stream[1..], run + cut[0], expected));
    }
  }

  /**
   A complete transfer is recovered whole also without a gap before it, when its first chunk does not fit after
   the unfinished one; that one is rejected by its size.
   */
  lemma ReplayAfterOverflow(a: Stream, cut: seq<Chunk>, pass: seq<Chunk>, b: Stream)
    requires pass != [] && forall i | 0 <= i < |pass| :: pass[i] != []
    requires 0 < |Join(cut)| < |Join(pass)| < |Join(cut)| + |pass[0]|
    ensures var expected := |Join(pass)|;
            Reassemble(a + [None] + (Delivered(cut) + (Delivered(pass) + b)), expected)
            == Reassemble(a, expected).Then(Reassembly([Join(pass)], [|Join(cut)|]).Then(Reassemble(b, expected)))
  {
    var expected, replay := |Join(pass)|, Delivered(pass) + b;
    assert replay == [Some(pass[0])] + replay[1..];
    assert Join(pass) == pass[0] + Join(pass[1..]);
    hide Rest, Join, TurnOf, Delivered;
    GapSeparates(a, Delivered(cut) + replay, expected);
    RestOfCut(cut, replay, [], expected);
    assert [] + Join(cut) == Join(cut) && [] + Join(pass) == Join(pass);
    OverflowSeparates(Join(cut), pass[0], replay[1..], expected);
    RestOfPass(pass, b, [], expected);
    RejectedFirst(Join(pass), |Join(cut)|, Reassemble(b, expected));
  }

  lemma RejectedFirst(frame: seq<Byte>, size: nat, rest: Reassembly)
    ensures Reassembly([], [size]).Then(Reassembly([frame], []).Then(rest)) == Reassembly([frame], [size]).Then(rest)
  {
    assert [] + ([frame] + rest.frames) == [frame] + rest.frames;
    assert [size] + ([] + rest.rejected) == [size] + rest.rejected;
  }
}
