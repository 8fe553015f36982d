/**
 The client of an SDK worker process: one length-framed reply read for each request written, on one pipe.

 The worker's future output is the field `stdout`; a read may return any nonempty part of it, and nothing once it
 is exhausted or the worker has been killed. The deadline timer and I/O errors can strike at any step.
 */
module HostClient {
  import opened Wrappers
  import opened Bytes

  const MAX_JSON: int := 65536
  const MAX_BINARY: int := 536870912
  const PIECE: int := 1048576

  /** A JSON value as far as the client looks at it; an absent member reads as `Null`. */
  datatype Json = Null | Bool(b: bool) | Int(n: int) | Real(r: real) | Text

  datatype Reply = Reply(id: Json, version: Json, binaryLength: Json, ok: bool, hasResult: bool)

  /** Python's `==` between a decoded value and an integer: booleans and floats compare by value. */
  predicate EqualsInt(j: Json, n: int) {
    match j
    case Bool(b) => n == if b then 1 else 0
    case Int(m) => m == n
    case Real(r) => r == n as real
    case _ => false
  }

  type Decoder = seq<Byte> -> Option<Reply>

  datatype Failure =
    | Unavailable
    | DeadlinePassed
    | Exited
    | InvalidJsonLength
    | Mismatch
    | InvalidBinaryLength
    | UnexpectedBinary
    | CommandFailed
    | Interrupted

  datatype CallResult = Success(bytes: nat, digest: string) | Failed(why: Failure)

  // ---------------------------------------------------------------- the framing

  datatype RawFrame = Frame(json: seq<Byte>, payload: seq<Byte>)

  /** A frame whose JSON text is short enough for its length prefix to be accepted. */
  type ReplyFrame = f: RawFrame | |f.json| <= MAX_JSON witness Frame([], [])

  function Encoded(f: ReplyFrame): seq<Byte> {
    Le32(|f.json|) + f.json + f.payload
  }

  /** The reply's header fields fit request `id`, and it promises `size` binary bytes that its method may return. */
  predicate Fits(r: Reply, id: int, download: bool, size: nat) {
    && EqualsInt(r.id, id) && EqualsInt(r.version, 1)
    && r.binaryLength == Int(size) && size <= MAX_BINARY && (size > 0 ==> download)
  }

  /** `f` is one whole reply to request `id`. */
  ghost predicate Answers(f: ReplyFrame, id: int, download: bool, decode: Decoder) {
    && 0 < |f.json|
    && decode(f.json).Some? && Fits(decode(f.json).value, id, download, |f.payload|)
  }

  /** What the coming bytes hold for request `id`. */
  datatype Coming = Whole(frame: ReplyFrame) | Broken(why: Failure)

  function Expect(stream: seq<Byte>, id: int, download: bool, decode: Decoder): Coming {
    if |stream| < 4 then Broken(Exited) else
    var length := U32(stream, 0);
    if length == 0 || length > MAX_JSON then Broken(InvalidJsonLength) else
    if |stream| < 4 + length then Broken(Exited) else
    var json := stream[4..4 + length];
    if decode(json).None? then Broken(Interrupted) else
    var reply := decode(json).value;
    if !EqualsInt(reply.id, id) || !EqualsInt(reply.version, 1) then Broken(Mismatch) else
    if !reply.binaryLength.Int? || !(0 <= reply.binaryLength.n <= MAX_BINARY) then Broken(InvalidBinaryLength) else
    var size: nat := reply.binaryLength.n;
    if size > 0 && !download then Broken(UnexpectedBinary) else
    if |stream| < 4 + length + size then Broken(Exited) else
    Whole(Frame(json, stream[4 + length..4 + length + size]))
  }

  /** The stream holds a whole reply for the request exactly when it starts with the encoding of an answer to it. */
  lemma ExpectExact(stream: seq<Byte>, id: int, download: bool, decode: Decoder, f: ReplyFrame)
    ensures Expect(stream, id, download, decode) == Whole(f) <==>
            Answers(f, id, download, decode) && Encoded(f) <= stream
  {
    if Expect(stream, id, download, decode) == Whole(f) {
      Le32U32(stream);
      assert Encoded(f) == stream[..4 + |f.json| + |f.payload|];
    }
    if Answers(f, id, download, decode) && Encoded(f) <= stream {
      var n := |f.json|;
      assert stream[0..4] == Encoded(f)[0..4] == Le32(n);
      ReadBack32(stream, 0, n);
      assert stream[4..4 + n] == Encoded(f)[4..4 + n] == f.json;
      assert stream[4 + n..4 + n + |f.payload|] == Encoded(f)[4 + n..] == f.payload;
    }
  }

  /** A boolean answers request 1 or 0, and a float its integer value; nothing else but the integer itself does. */
  lemma EqualsIntExact(j: Json, n: int)
    ensures EqualsInt(j, n) <==>
            || j == Int(n) || j == Real(n as real) || (j == Bool(true) && n == 1) || (j == Bool(false) && n == 0)
  {
  }

  /** Why a reply with a whole JSON text breaks the client, if its header does. */
  lemma HeaderReasons(json: seq<Byte>, rest: seq<Byte>, id: int, download: bool, decode: Decoder)
    requires 0 < |json| <= MAX_JSON
    ensures var coming, decoded := Expect(Le32(|json|) + json + rest, id, download, decode), decode(json);
            var matches := decoded.Some? && EqualsInt(decoded.value.id, id) && EqualsInt(decoded.value.version, 1);
            var sized := matches && decoded.value.binaryLength.Int? && 0 <= decoded.value.binaryLength.n <= 536870912;
            && (coming == Broken(Interrupted) <==> decoded.None?)
            && (coming == Broken(Mismatch) <==> decoded.Some? && !matches)
            && (coming == Broken(InvalidBinaryLength) <==> matches && !sized)
            && (coming == Broken(UnexpectedBinary) <==> sized && decoded.value.binaryLength.n > 0 && !download)
            && (coming == Broken(Exited) <==>
                  sized && (decoded.value.binaryLength.n > 0 ==> download) && |rest| < decoded.value.binaryLength.n)
  {
    var stream, n := Le32(|json|) + json + rest, |json|;
    assert stream[0..4] == Le32(n);
    ReadBack32(stream, 0, n);
    assert stream[4..4 + n] == json;
    hide U32, Le32, EqualsInt;
  }

  /** Four bytes are the encoding of the integer they hold. */
  lemma Le32U32(stream: seq<Byte>)
    requires |stream| >= 4
    ensures Le32(U32(stream, 0)) == stream[..4]
  {
    var a, b, c, d := stream[0] as int, stream[1] as int, stream[2] as int, stream[3] as int;
    var n := U32(stream, 0);
    assert n == a + 0x100 * (b + 0x100 * (c + 0x100 * d));
    assert n / 0x100 == b + 0x100 * (c + 0x100 * d);
    assert n / 0x100 / 0x100 == c + 0x100 * d;
  }

  // ---------------------------------------------------------------- the client

  class Host {
    const decode: Decoder
    const digest: seq<Byte> -> string
    var nextId: nat
    var broken: bool
    var expired: bool
    var stdout: seq<Byte>
    /** Everything the worker writes, the methods of the requests sent, and the replies read. */
    ghost const output: seq<Byte>
    ghost var downloads: seq<bool>
    ghost var frames: seq<ReplyFrame>
    /** How many I/O errors there have been: a write to the worker, or to the saved sample, that failed. */
    ghost var faults: nat

    /** While the pipe is in use, exactly one whole reply has been read for each request sent. */
    ghost predicate Valid()
      reads this
    {
      && |downloads| == nextId && (expired ==> broken)
      && (!broken ==> && |frames| == nextId
                      && InOrder(frames, downloads, decode)
                      && output == EncodedAll(frames) + stdout)
    }

    constructor (output: seq<Byte>, decode: Decoder, digest: seq<Byte> -> string)
      ensures Valid() && !broken && !expired && nextId == 0 && stdout == output && faults == 0
      ensures this.output == output && this.decode == decode && this.digest == digest
    {
      this.output, this.decode, this.digest := output, decode, digest;
      nextId, broken, expired, stdout := 0, false, false, output;
      downloads, frames, faults := [], [], 0;
    }

    method Kill()
      modifies this`broken
      ensures broken
    {
      broken := true;
    }

    /** A write, which may fail. */
    method Write() returns (failed: bool)
      modifies this`faults
      ensures faults == old(faults) + if failed then 1 else 0
    {
      failed := *;
      if failed {
        faults := faults + 1;
      }
    }

    /** The timer thread may fire between any two steps. */
    method MaybeExpire()
      modifies this`broken, this`expired
      ensures old(broken) ==> broken
      ensures (broken == old(broken) && expired == old(expired)) || (broken && expired)
    {
      if * {
        expired, broken := true, true;
      }
    }

    /** One read: some nonempty part of what is left, or nothing at the end or from a killed worker. */
    method Read(size: nat) returns (chunk: seq<Byte>)
      requires size > 0
      modifies this`stdout
      ensures |chunk| <= size && old(stdout) == chunk + stdout
      ensures chunk == [] ==> stdout == [] || broken
    {
      if stdout == [] {
        return [];
      }
      if broken {
        if * {
          return [];
        }
      }
      var n: nat :| 1 <= n <= size && n <= |stdout|;
      chunk, stdout := stdout[..n], stdout[n..];
    }

    /** Exactly `size` bytes, in whatever pieces they come. */
    method Exact(size: nat) returns (data: Option<seq<Byte>>)
      requires expired ==> broken
      modifies this`stdout, this`broken, this`expired
      ensures expired ==> broken
      ensures data.Some? ==> |data.value| == size && old(stdout) == data.value + stdout
      ensures data.None? ==> broken
      ensures data.None? && !expired && !old(broken) ==> |old(stdout)| < size
      ensures old(broken) ==> broken
      ensures old(expired) ==> expired
      ensures data.Some? && broken && !old(broken) ==> expired
    {
      var buffer: seq<Byte> := [];
      while |buffer| < size
        invariant |buffer| <= size && old(stdout) == buffer + stdout
        invariant expired ==> broken
        invariant old(broken) ==> broken
        invariant old(expired) ==> expired
        invariant broken && !old(broken) ==> expired
      {
        MaybeExpire();
        var chunk := Read(size - |buffer|);
        if chunk == [] {
          Kill();
          return None;
        }
        buffer := buffer + chunk;
      }
      return Some(buffer);
    }

    /** The reply's length and JSON text, checked against the request just sent. */
    method ReadReply(download: bool) returns (r: Result<seq<Byte>, Failure>)
      requires !broken && !expired
      modifies this`stdout, this`broken, this`expired
      ensures r.Ok? ==> 0 < |r.value| <= MAX_JSON && old(stdout) == Le32(|r.value|) + r.value + stdout
      ensures r.Ok? ==> decode(r.value).Some? && decode(r.value).value.binaryLength.Int?
                        && decode(r.value).value.binaryLength.n >= 0
                        && Fits(decode(r.value).value, nextId, download, decode(r.value).value.binaryLength.n)
      ensures r.Ok? ==> (broken <==> expired)
      ensures r.Err? ==> broken
      ensures r.Err? && !expired ==> Expect(old(stdout), nextId, download, decode) == Broken(r.error)
    {
      var stream := stdout;
      var prefix := Exact(4);
      if prefix.None? {
        return Err(Exited);
      }
      assert stream[..4] == prefix.value && stream[4..] == stdout;
      Le32U32(stream);
      var length := U32(prefix.value, 0);
      if length == 0 || length > MAX_JSON {
        Kill();
        return Err(InvalidJsonLength);
      }
      var json := Exact(length);
      if json.None? {
        return Err(Exited);
      }
      assert stream == prefix.value + (json.value + stdout) == Le32(length) + json.value + stdout;
      assert stream[4..4 + length] == json.value;
      if decode(json.value).None? {
        Kill();
        return Err(Interrupted);
      }
      var reply := decode(json.value).value;
      if !EqualsInt(reply.id, nextId) || !EqualsInt(reply.version, 1) {
        Kill();
        return Err(Mismatch);
      }
      if !reply.binaryLength.Int? || !(0 <= reply.binaryLength.n <= MAX_BINARY) {
        Kill();
        return Err(InvalidBinaryLength);
      }
      if reply.binaryLength.n > 0 && !download {
        Kill();
        return Err(UnexpectedBinary);
      }
      return Ok(json.value);
    }

    /** The reply's binary part, digested and optionally saved piece by piece. */
    method ReadPayload(size: nat, save: bool)
      returns (r: Result<seq<Byte>, Failure>, written: seq<Byte>)
      requires expired ==> broken
      modifies this`stdout, this`broken, this`expired, this`faults
      ensures expired ==> broken
      ensures r.Ok? ==> |r.value| == size && old(stdout) == r.value + stdout && faults == old(faults)
      ensures r.Ok? ==> written == if save then r.value else []
      ensures r.Err? ==> broken
      ensures faults >= old(faults)
      ensures r.Err? && faults == old(faults) && !expired && !old(broken) ==> |old(stdout)| < size && r.error == Exited
      ensures old(broken) ==> broken
      ensures old(expired) ==> expired
      ensures r.Ok? && broken && !old(broken) ==> expired
    {
      var fed: seq<Byte>, remaining := [], size;
      written := [];
      if save && size > 0 {
        var failed := Write();
        if failed {
          Kill();
          return Err(Interrupted), written;
        }
      }
      while remaining > 0
        invariant faults == old(faults)
        invariant remaining >= 0 && |fed| + remaining == size && old(stdout) == fed + stdout
        invariant expired ==> broken
        invariant written == if save then fed else []
        invariant old(broken) ==> broken
        invariant old(expired) ==> expired
        invariant broken && !old(broken) ==> expired
      {
        ghost var stream := stdout;
        var chunk := Exact(if remaining < PIECE then remaining else PIECE);
        if chunk.None? {
          return Err(Exited), written;
        }
        assert fed + (chunk.value + stdout) == (fed + chunk.value) + stdout;
        fed := fed + chunk.value;
        if save {
          var failed := Write();
          if failed {
            Kill();
            return Err(Interrupted), written;
          }
          written := written + chunk.value;
        }
        remaining := remaining - |chunk.value|;
      }
      return Ok(fed), written;
    }

    /** Writing the request just numbered and reading one whole reply to it. */
    method Exchange(download: bool, save: bool)
      returns (r: Result<ReplyFrame, Failure>, written: seq<Byte>)
      requires !broken && !expired
      modifies this`stdout, this`broken, this`expired, this`faults
      ensures expired ==> broken
      ensures r.Ok? ==> Answers(r.value, nextId, download, decode) && old(stdout) == Encoded(r.value) + stdout
      ensures r.Ok? ==> (broken <==> expired) && faults == old(faults) && written == if save then r.value.payload else []
      ensures r.Err? ==> broken
      ensures faults >= old(faults)
      ensures r.Err? && !expired && faults == old(faults) ==> Expect(old(stdout), nextId, download, decode) == Broken(r.error)
    {
      written := [];
      ghost var stream := stdout;
      var failed := Write();
      if failed {
        Kill();
        return Err(Interrupted), written;
      }
      var json := ReadReply(download);
      if json.Err? {
        return Err(json.error), written;
      }
      ghost var after := stdout;
      ShortPayload(stream, json.value, after, nextId, download, decode);
      var payload: Result<seq<Byte>, Failure>;
      payload, written := ReadPayload(decode(json.value).value.binaryLength.n, save);
      if payload.Err? {
        return Err(payload.error), written;
      }
      assert stream == Le32(|json.value|) + json.value + (payload.value + stdout)
                    == Encoded(Frame(json.value, payload.value)) + stdout;
      return Ok(Frame(json.value, payload.value)), written;
    }

    /**
     One request and its reply. An unbroken client has read exactly one whole reply to this request. Unless the
     deadline passed or an I/O error struck meanwhile, it is broken exactly when the coming bytes do not begin with
     such a reply, or its promised result is missing; if either did, it is broken.
     */
    method Call(download: bool, timeout: int, save: bool)
      returns (r: CallResult, written: seq<Byte>)
      requires Valid()
      modifies this
      ensures Valid()
      ensures old(broken) ==> r == Failed(Unavailable) && unchanged(this)
      ensures !old(broken) && timeout <= 0 ==> r == Failed(DeadlinePassed) && unchanged(this)
      ensures !old(broken) && timeout > 0 ==>
                && nextId == old(nextId) + 1 && downloads == old(downloads) + [download]
                && var coming := Expect(old(stdout), nextId, download, decode);
                && (!broken ==> && coming.Whole? && frames == old(frames) + [coming.frame]
                                && old(stdout) == Encoded(coming.frame) + stdout
                                && (if decode(coming.frame.json).value.ok then r.Success? else r == Failed(CommandFailed)))
                && (r.Success? ==> && coming.Whole? && r.bytes == |coming.frame.payload|
                                   && r.digest == digest(coming.frame.payload)
                                   && written == if save then coming.frame.payload else [])
                && (if expired || faults > old(faults) then broken
                    else && (broken <==> coming.Broken? || MissingResult(decode(coming.frame.json).value))
                         && (coming.Broken? ==> r == Failed(coming.why)))
    {
      hide Answers, Expect, Encoded, EncodedAll, InOrder;
      written := [];
      if broken {
        return Failed(Unavailable), written;
      }
      if timeout <= 0 {
        return Failed(DeadlinePassed), written;
      }
      ghost var stream := stdout;
      nextId := nextId + 1;
      downloads := downloads + [download];
      var frame: Result<ReplyFrame, Failure>;
      frame, written := Exchange(download, save);
      if frame.Err? {
        return Failed(frame.error), written;
      }
      ExpectExact(stream, nextId, download, decode, frame.value);
      assert Encoded(frame.value) <= stream;
      InOrderSnoc(frames, frame.value, old(downloads), download, decode, output, stdout);
      frames := frames + [frame.value];
      MaybeExpire();
      var reply := decode(frame.value.json).value;
      if !reply.ok {
        return Failed(CommandFailed), written;
      }
      if !reply.hasResult {
        Kill();
        return Failed(Interrupted), written;
      }
      return Success(|frame.value.payload|, digest(frame.value.payload)), written;
    }
  }

  /** A reply that claims success without a result. */
  predicate MissingResult(r: Reply) {
    r.ok && !r.hasResult
  }

  lemma ShortPayload(stream: seq<Byte>, json: seq<Byte>, after: seq<Byte>, id: int, download: bool, decode: Decoder)
    requires 0 < |json| <= MAX_JSON && stream == Le32(|json|) + json + after
    requires decode(json).Some? && decode(json).value.binaryLength.Int?
    requires 0 <= decode(json).value.binaryLength.n
    requires Fits(decode(json).value, id, download, decode(json).value.binaryLength.n)
    ensures |after| < decode(json).value.binaryLength.n ==> Expect(stream, id, download, decode) == Broken(Exited)
  {
  }

  // ---------------------------------------------------------------- whole conversations

  /** The replies answer requests 1, 2, ... in order. */
  ghost predicate InOrder(frames: seq<ReplyFrame>, downloads: seq<bool>, decode: Decoder) {
    |frames| <= |downloads| && forall i | 0 <= i < |frames| :: Answers(frames[i], i + 1, downloads[i], decode)
  }

  function EncodedAll(frames: seq<ReplyFrame>): seq<Byte> {
    if frames == [] then [] else EncodedAll(frames[..|frames| - 1]) + Encoded(frames[|frames| - 1])
  }

  lemma EncodedSnoc(frames: seq<ReplyFrame>, f: ReplyFrame)
    ensures EncodedAll(frames + [f]) == EncodedAll(frames) + Encoded(f)
  {
  }

  /** One more answer, to the next request, keeps a conversation in step. */
  lemma InOrderSnoc(frames: seq<ReplyFrame>, f: ReplyFrame, downloads: seq<bool>, download: bool, decode: Decoder,
                    output: seq<Byte>, rest: seq<Byte>)
    requires InOrder(frames, downloads, decode) && |downloads| == |frames|
    requires Answers(f, |frames| + 1, download, decode)
    requires output == EncodedAll(frames) + (Encoded(f) + rest)
    ensures InOrder(frames + [f], downloads + [download], decode)
    ensures output == EncodedAll(frames + [f]) + rest
  {
    hide Answers, Encoded, EncodedAll;
    EncodedSnoc(frames, f);
    Associates(EncodedAll(frames), Encoded(f), rest);
  }

  lemma Associates(a: seq<Byte>, b: seq<Byte>, c: seq<Byte>)
    ensures (a + b) + c == a + (b + c)
  {
  }

  lemma SplitsHere(a: seq<Byte>, b: seq<Byte>, c: seq<Byte>)
    requires a + b == a + c
    ensures b == c
  {
    assert b == (a + b)[|a|..] && c == (a + c)[|a|..];
  }

  lemma {:induction false} EncodedConcat(a: seq<ReplyFrame>, b: seq<ReplyFrame>)
    ensures EncodedAll(a + b) == EncodedAll(a) + EncodedAll(b)
  {
    hide Encoded;
    if b == [] {
      assert a + b == a && EncodedAll(b) == [];
      assert EncodedAll(a) + [] == EncodedAll(a);
    } else {
      var front, last := b[..|b| - 1], b[|b| - 1];
      EncodedConcat(a, front);
      assert a + b == (a + front) + [last] && b == front + [last];
      EncodedSnoc(a + front, last);
      EncodedSnoc(front, last);
      Associates(EncodedAll(a), EncodedAll(front), Encoded(last));
    }
  }

  /** At most one frame at the head of a stream answers a given request. */
  lemma AnswerUnique(stream: seq<Byte>, f: ReplyFrame, g: ReplyFrame, id: int, download: bool, decode: Decoder)
    requires Answers(f, id, download, decode) && Answers(g, id, download, decode)
    requires Encoded(f) <= stream && Encoded(g) <= stream
    ensures f == g
  {
    ExpectExact(stream, id, download, decode, f);
    ExpectExact(stream, id, download, decode, g);
  }

  /** As many answers to the same requests, read off the same bytes, are the same answers. */
  lemma {:induction false} SameConversation(frames: seq<ReplyFrame>, rest: seq<Byte>, served: seq<ReplyFrame>, tail: seq<Byte>,
                                            downloads: seq<bool>, decode: Decoder)
    requires InOrder(frames, downloads, decode) && InOrder(served, downloads, decode) && |frames| == |served|
    requires EncodedAll(frames) + rest == EncodedAll(served) + tail
    ensures frames == served && rest == tail
    decreases |frames|
  {
    hide Answers, Encoded;
    if frames == [] {
      assert EncodedAll(frames) + rest == rest && EncodedAll(served) + tail == tail;
    } else {
      var n := |frames| - 1;
      AllButLast(frames, rest, downloads, decode);
      AllButLast(served, tail, downloads, decode);
      assert Answers(frames[n], n + 1, downloads[n], decode) && Answers(served[n], n + 1, downloads[n], decode);
      hide EncodedAll, InOrder;
      SameConversation(frames[..n], Encoded(frames[n]) + rest, served[..n], Encoded(served[n]) + tail, downloads, decode);
      SameHead(frames[n], rest, served[n], tail, n + 1, downloads[n], decode);
      assert frames == frames[..n] + [frames[n]] && served == served[..n] + [served[n]];
    }
  }

  lemma AllButLast(frames: seq<ReplyFrame>, rest: seq<Byte>, downloads: seq<bool>, decode: Decoder)
    requires frames != [] && InOrder(frames, downloads, decode)
    ensures InOrder(frames[..|frames| - 1], downloads, decode)
    ensures EncodedAll(frames) + rest == EncodedAll(frames[..|frames| - 1]) + (Encoded(frames[|frames| - 1]) + rest)
  {
    hide Answers, Encoded;
    Associates(EncodedAll(frames[..|frames| - 1]), Encoded(frames[|frames| - 1]), rest);
  }

  /**
   The client never loses its place: if the worker writes one answer per request in order (and then anything),
   the replies an unbroken client has read are exactly the worker's first ones, and the bytes still to come begin
   with the worker's answer to the next request.
   */
  lemma InStep(frames: seq<ReplyFrame>, rest: seq<Byte>, served: seq<ReplyFrame>, tail: seq<Byte>,
               downloads: seq<bool>, decode: Decoder)
    requires InOrder(frames, downloads, decode) && InOrder(served, downloads, decode) && |frames| <= |served|
    requires EncodedAll(frames) + rest == EncodedAll(served) + tail
    ensures frames == served[..|frames|] && rest == EncodedAll(served[|frames|..]) + tail
  {
    hide Answers, Encoded, EncodedAll;
    var read, later := served[..|frames|], served[|frames|..];
    assert served == read + later;
    EncodedConcat(read, later);
    Associates(EncodedAll(read), EncodedAll(later), tail);
    SameConversation(frames, rest, read, EncodedAll(later) + tail, downloads, decode);
  }

  /** Two readings of one stream that both start with an answer to the same request agree. */
  lemma SameHead(f: ReplyFrame, rest: seq<Byte>, g: ReplyFrame, tail: seq<Byte>, id: int, download: bool, decode: Decoder)
    requires Answers(f, id, download, decode) && Answers(g, id, download, decode)
    requires Encoded(f) + rest == Encoded(g) + tail
    ensures f == g && rest == tail
  {
    AnswerUnique(Encoded(f) + rest, f, g, id, download, decode);
    SplitsHere(Encoded(f), rest, tail);
  }
}
