/**
 Whole frames delimited by markers in a recorded QHY video stream, and the ordered match of their digests
 against the frames an SDK delivered.
 */
module VideoWire {
  import opened Wrappers
  import opened Bytes

  /** A digest of a frame's pixels, compared for equality only. */
  type Digest = string

  const WIDTH: int := 9600
  const HEIGHT: int := 6422
  const EXTRA: int := 34
  const MARK: int := 8

  const SHARED: seq<Byte> := [0xee, 0x11, 0xdd, 0x22, 0xee, 0x11, 0xdd, 0x22]
  const OPENING: seq<Byte> := [0x55, 0x55, 0x44, 0x44, 0xee, 0x11, 0xdd, 0x22]
  const CLOSING: seq<Byte> := [0xee, 0x11, 0xdd, 0x22, 0x55, 0x55, 0x44, 0x44]

  /** The geometry and delimiters of one stream format. */
  datatype Format = Raw8 | Raw16 {
    function Stride(): nat {
      match this case Raw8 => WIDTH case Raw16 => WIDTH * 2
    }

    /** The bytes between a frame's marker and its footer. */
    function Size(): nat {
      match this case Raw8 => (HEIGHT + EXTRA) * WIDTH case Raw16 => (HEIGHT + EXTRA) * (WIDTH * 2)
    }

    function Leading(): nat {
      match this case Raw8 => EXTRA * WIDTH case Raw16 => EXTRA * (WIDTH * 2)
    }

    function Marker(): (m: seq<Byte>)
      ensures |m| == MARK
    {
      match this case Raw8 => SHARED case Raw16 => OPENING
    }

    function Footer(): (m: seq<Byte>)
      ensures |m| == MARK
    {
      match this case Raw8 => SHARED case Raw16 => CLOSING
    }
  }

  // ---------------------------------------------------------------- the marker scan

  predicate OccursAt(wire: seq<Byte>, marker: seq<Byte>, at: int) {
    0 <= at && at + |marker| <= |wire| && wire[at..at + |marker|] == marker
  }

  /** `find`: the first occurrence at or after `from`, or none. */
  function Find(wire: seq<Byte>, marker: seq<Byte>, from: nat): (r: Option<nat>)
    ensures r.None? ==> forall at | from <= at :: !OccursAt(wire, marker, at)
    ensures r.Some? ==> from <= r.value && OccursAt(wire, marker, r.value)
                        && forall at | from <= at < r.value :: !OccursAt(wire, marker, at)
    decreases |wire| - from
  {
    if from + |marker| > |wire| then None
    else if OccursAt(wire, marker, from) then Some(from)
    else if from == |wire| then None
    else Find(wire, marker, from + 1)
  }

  /** The marker positions the scan visits from `from` on: each search resumes eight bytes after the last hit. */
  function Visited(wire: seq<Byte>, marker: seq<Byte>, from: nat): seq<nat>
    requires |marker| == MARK
    decreases |wire| - from
  {
    match Find(wire, marker, from)
    case None => []
    case Some(at) => [at] + Visited(wire, marker, at + MARK)
  }

  /** A whole frame follows the marker at `at`: `Size` bytes, all in the file, then the footer. */
  predicate FrameAt(wire: seq<Byte>, format: Format, at: nat) {
    OccursAt(wire, format.Footer(), at + MARK + format.Size())
  }

  /** Every pair of bytes swapped: the traced wire is big-endian, the SDK's output is not. */
  function Swapped(bytes: seq<Byte>): (s: seq<Byte>)
    requires |bytes| % 2 == 0
    ensures |s| == |bytes|
  {
    seq(|bytes|, i requires 0 <= i < |bytes| => if i % 2 == 0 then bytes[i + 1] else bytes[i - 1])
  }

  /** A frame's pixels in the SDK's order, without the leading rows. */
  function Pixels(wire: seq<Byte>, format: Format, at: nat): (p: seq<Byte>)
    requires FrameAt(wire, format, at)
    ensures |p| == HEIGHT * format.Stride()
  {
    var raw := wire[at + MARK + format.Leading()..at + MARK + format.Size()];
    if format.Raw16? then Swapped(raw) else raw
  }

  /** The digests of the whole frames at the given marker positions, in order. */
  function Digests(wire: seq<Byte>, format: Format, at: seq<nat>, digest: seq<Byte> -> Digest): seq<Digest> {
    if at == [] then []
    else (if FrameAt(wire, format, at[0]) then [digest(Pixels(wire, format, at[0]))] else [])
         + Digests(wire, format, at[1..], digest)
  }

  method ScanFrames(wire: seq<Byte>, format: Format, digest: seq<Byte> -> Digest) returns (hashes: seq<Digest>)
    ensures hashes == Digests(wire, format, Visited(wire, format.Marker(), 0), digest)
  {
    hide Digests, Pixels, FrameAt, OccursAt;
    hashes := [];
    var pos := 0;
    var searching := true;
    ghost var left := Visited(wire, format.Marker(), 0);
    ghost var all := Digests(wire, format, left, digest);
    assert [] + all == all;
    while searching
      invariant left == if searching then Visited(wire, format.Marker(), pos) else []
      invariant all == hashes + Digests(wire, format, left, digest)
      decreases searching, |wire| - pos
    {
      var hit := Find(wire, format.Marker(), pos);
      if hit.None? {
        searching, left := false, [];
      } else {
        DigestsStep(wire, format, left, digest);
        left := left[1..];
        ghost var later := Digests(wire, format, left, digest);
        if FrameAt(wire, format, hit.value) {
          ghost var one := [digest(Pixels(wire, format, hit.value))];
          assert hashes + (one + later) == (hashes + one) + later;
          hashes := hashes + [digest(Pixels(wire, format, hit.value))];
        }
        pos := hit.value + MARK;
      }
    }
    NoDigests(wire, format, digest);
    assert hashes + [] == hashes;
  }

  /** Two occurrences closer than the scan's step. */
  ghost predicate Overlapping(wire: seq<Byte>, marker: seq<Byte>, a: nat, b: nat) {
    OccursAt(wire, marker, a) && OccursAt(wire, marker, b) && a < b < a + MARK
  }

  lemma {:induction false} VisitedSound(wire: seq<Byte>, marker: seq<Byte>, from: nat)
    requires |marker| == MARK
    ensures forall a | a in Visited(wire, marker, from) :: from <= a && OccursAt(wire, marker, a)
    ensures forall a, b | a in Visited(wire, marker, from) && b in Visited(wire, marker, from) && a < b :: a + MARK <= b
    decreases |wire| - from
  {
    match Find(wire, marker, from)
    case None =>
    case Some(at) => VisitedSound(wire, marker, at + MARK);
  }

  lemma {:induction false} VisitedInOrder(wire: seq<Byte>, marker: seq<Byte>, from: nat)
    requires |marker| == MARK
    ensures forall j, k | 0 <= j < k < |Visited(wire, marker, from)| ::
              Visited(wire, marker, from)[j] < Visited(wire, marker, from)[k]
    decreases |wire| - from
  {
    match Find(wire, marker, from)
    case None =>
      assert Visited(wire, marker, from) == [];
    case Some(at) =>
      VisitedInOrder(wire, marker, at + MARK);
      VisitedSound(wire, marker, at + MARK);
      var later := Visited(wire, marker, at + MARK);
      assert Visited(wire, marker, from) == [at] + later;
      FirstInOrder(at, later);
      hide Visited;
  }

  lemma FirstInOrder(at: nat, later: seq<nat>)
    requires forall j, k | 0 <= j < k < |later| :: later[j] < later[k]
    requires forall v | v in later :: at < v
    ensures forall j, k | 0 <= j < k < |[at] + later| :: ([at] + later)[j] < ([at] + later)[k]
  {
    var all := [at] + later;
    forall j, k | 0 <= j < k < |all|
      ensures all[j] < all[k]
    {
      assert all[k] == later[k - 1] && later[k - 1] in later;
      assert j > 0 ==> all[j] == later[j - 1];
    }
  }

  /** Every occurrence is visited, or overlaps a visited one that starts before it. */
  lemma {:induction false} VisitedComplete(wire: seq<Byte>, marker: seq<Byte>, from: nat, at: nat)
    requires |marker| == MARK && OccursAt(wire, marker, at) && from <= at
    ensures at in Visited(wire, marker, from)
            || exists v :: v in Visited(wire, marker, from) && Overlapping(wire, marker, v, at)
    decreases |wire| - from
  {
    var hit := Find(wire, marker, from).value;
    assert hit in Visited(wire, marker, from);
    if at < hit + MARK {
      assert at == hit || Overlapping(wire, marker, hit, at);
    } else {
      VisitedComplete(wire, marker, hit + MARK, at);
      assert forall v :: v in Visited(wire, marker, hit + MARK) ==> v in Visited(wire, marker, from);
    }
  }

  /**
   The eight-byte step misses no marker exactly when no two occurrences in the file overlap; every visited
   position is an occurrence, visited once and in order.
   */
  lemma ScanCompleteIff(wire: seq<Byte>, marker: seq<Byte>)
    requires |marker| == MARK
    ensures (forall at: nat | OccursAt(wire, marker, at) :: at in Visited(wire, marker, 0)) <==>
            !exists a: nat, b: nat :: Overlapping(wire, marker, a, b)
  {
    var visited := Visited(wire, marker, 0);
    VisitedSound(wire, marker, 0);
    if !exists a: nat, b: nat :: Overlapping(wire, marker, a, b) {
      forall at: nat | OccursAt(wire, marker, at)
        ensures at in visited
      {
        VisitedComplete(wire, marker, 0, at);
      }
    }
  }

  lemma OpeningsApart(wire: seq<Byte>, a: nat, b: nat)
    requires OccursAt(wire, OPENING, a) && OccursAt(wire, OPENING, b)
    ensures a < b ==> a + MARK <= b
  {
    forall k | 0 <= k < MARK
      ensures wire[a + k] == OPENING[k] && wire[b + k] == OPENING[k]
    {
      assert wire[a..a + MARK][k] == OPENING[k] && wire[b..b + MARK][k] == OPENING[k];
    }
    assert wire[a + 1] == 0x55 && wire[a + 2] == 0x44 && wire[a + 3] == 0x44 && wire[a + 4] == 0xee;
    assert wire[a + 5] == 0x11 && wire[a + 6] == 0xdd && wire[a + 7] == 0x22;
    assert wire[b + 0] == 0x55 && wire[b + 1] == 0x55;
  }

  /** The 16-bit opening marker cannot overlap itself, so its scan is complete on every file. */
  lemma Raw16ScanComplete(wire: seq<Byte>, at: nat)
    requires OccursAt(wire, Raw16.Marker(), at)
    ensures at in Visited(wire, Raw16.Marker(), 0)
  {
    forall a: nat, b: nat
      ensures !Overlapping(wire, OPENING, a, b)
    {
      if OccursAt(wire, OPENING, a) && OccursAt(wire, OPENING, b) {
        OpeningsApart(wire, a, b);
      }
    }
    ScanCompleteIff(wire, OPENING);
  }

  const THREE_HALVES: seq<Byte> := SHARED + [0xee, 0x11, 0xdd, 0x22]

  /** The shared 8-bit delimiter overlaps itself: in three half-markers in a row the scan misses the second marker. */
  lemma Raw8ScanMisses()
    ensures OccursAt(THREE_HALVES, Raw8.Marker(), 0) && OccursAt(THREE_HALVES, Raw8.Marker(), 4)
    ensures 4 !in Visited(THREE_HALVES, Raw8.Marker(), 0)
  {
  }

  /** How one visited marker adds to the digests. */
  lemma DigestsStep(wire: seq<Byte>, format: Format, at: seq<nat>, digest: seq<Byte> -> Digest)
    requires at != []
    ensures Digests(wire, format, at, digest) ==
            if FrameAt(wire, format, at[0]) then
              [digest(Pixels(wire, format, at[0]))] + Digests(wire, format, at[1..], digest)
            else Digests(wire, format, at[1..], digest)
  {
  }

  /**
   A digest is recorded for a frame exactly when the scan visits its marker and the footer follows `Size` bytes
   later; digests keep the frames' order.
   */
  lemma {:induction false} DigestsExact(wire: seq<Byte>, format: Format, at: seq<nat>, digest: seq<Byte> -> Digest)
    returns (whole: seq<nat>)
    ensures |whole| == |Digests(wire, format, at, digest)|
    ensures forall i | 0 <= i < |whole| :: && FrameAt(wire, format, whole[i]) && whole[i] in at
                                           && Digests(wire, format, at, digest)[i] == digest(Pixels(wire, format, whole[i]))
    ensures forall a | a in at && FrameAt(wire, format, a) :: a in whole
    ensures (forall j, k | 0 <= j < k < |at| :: at[j] < at[k]) ==> forall j, k | 0 <= j < k < |whole| :: whole[j] < whole[k]
  {
    hide FrameAt, Pixels, Digests;
    if at == [] {
      NoDigests(wire, format, digest);
      whole := [];
    } else {
      DigestsStep(wire, format, at, digest);
      var later := DigestsExact(wire, format, at[1..], digest);
      assert at == [at[0]] + at[1..];
      whole := if FrameAt(wire, format, at[0]) then [at[0]] + later else later;
    }
  }

  lemma NoDigests(wire: seq<Byte>, format: Format, digest: seq<Byte> -> Digest)
    ensures Digests(wire, format, [], digest) == []
  {
  }

  // ---------------------------------------------------------------- what is recorded, byte by byte

  /** A whole frame at `at`: its marker, 6456 rows of 9600 pixels, and its footer, in the file's own bytes. */
  ghost predicate WholeAt(wire: seq<Byte>, format: Format, at: nat) {
    match format
    case Raw8 => && OccursAt(wire, [0xee, 0x11, 0xdd, 0x22, 0xee, 0x11, 0xdd, 0x22], at)
                 && OccursAt(wire, [0xee, 0x11, 0xdd, 0x22, 0xee, 0x11, 0xdd, 0x22], at + 8 + 61977600)
    case Raw16 => && OccursAt(wire, [0x55, 0x55, 0x44, 0x44, 0xee, 0x11, 0xdd, 0x22], at)
                  && OccursAt(wire, [0xee, 0x11, 0xdd, 0x22, 0x55, 0x55, 0x44, 0x44], at + 8 + 123955200)
  }

  /** The image of the frame at `at`: its last 6422 rows, and of 16-bit pixels the low byte first. */
  ghost predicate ImageAt(wire: seq<Byte>, format: Format, at: nat, image: seq<Byte>) {
    match format
    case Raw8 => && |image| == 61651200 && at + 8 + 326400 + |image| <= |wire|
                 && forall i | 0 <= i < |image| :: image[i] == wire[at + 8 + 326400 + i]
    case Raw16 => && |image| == 123302400 && at + 8 + 652800 + |image| <= |wire|
                  && forall i | 0 <= i < |image| :: image[i] == wire[at + 8 + 652800 + (if i % 2 == 0 then i + 1 else i - 1)]
  }

  lemma ImageUnique(wire: seq<Byte>, format: Format, at: nat, a: seq<Byte>, b: seq<Byte>)
    requires ImageAt(wire, format, at, a) && ImageAt(wire, format, at, b)
    ensures a == b
  {
  }

  lemma WholeExact(wire: seq<Byte>, format: Format, at: nat)
    ensures WholeAt(wire, format, at) <==> OccursAt(wire, format.Marker(), at) && FrameAt(wire, format, at)
  {
    hide OccursAt;
  }

  /** What is digested of a whole frame is its image. */
  lemma PixelsExact(wire: seq<Byte>, format: Format, at: nat)
    requires FrameAt(wire, format, at)
    ensures ImageAt(wire, format, at, Pixels(wire, format, at))
  {
    if format.Raw8? {
      Pixels8(wire, at);
    } else {
      Pixels16(wire, at);
    }
  }

  lemma Pixels8(wire: seq<Byte>, at: nat)
    requires FrameAt(wire, Raw8, at)
    ensures ImageAt(wire, Raw8, at, Pixels(wire, Raw8, at))
  {
  }

  lemma Pixels16(wire: seq<Byte>, at: nat)
    requires FrameAt(wire, Raw16, at)
    ensures ImageAt(wire, Raw16, at, Pixels(wire, Raw16, at))
  {
    var raw := wire[at + 8 + 652800..at + 8 + 123955200];
    var image := Swapped(raw);
    assert Pixels(wire, Raw16, at) == image;
    hide FrameAt, Pixels;
    SwappedAt(raw);
  }

  lemma SwappedAt(bytes: seq<Byte>)
    requires |bytes| % 2 == 0
    ensures forall i | 0 <= i < |bytes| :: Swapped(bytes)[i] == bytes[if i % 2 == 0 then i + 1 else i - 1]
  {
  }

  /** The digest of the image of the frame at `at`. */
  ghost predicate DigestAt(wire: seq<Byte>, format: Format, digest: seq<Byte> -> Digest, at: nat, hash: Digest) {
    exists image :: ImageAt(wire, format, at, image) && hash == digest(image)
  }

  /**
   `hashes` are the digests of the whole frames at the positions `whole`, in file order; a whole frame is left out
   only if its marker overlaps an earlier one.
   */
  ghost predicate Scanned(wire: seq<Byte>, format: Format, digest: seq<Byte> -> Digest, whole: seq<nat>, hashes: seq<Digest>) {
    && (forall a: nat | a in whole :: WholeAt(wire, format, a))
    && (forall a: nat | WholeAt(wire, format, a) && a !in whole :: exists v: nat :: Overlapping(wire, format.Marker(), v, a))
    && (forall j, k | 0 <= j < k < |whole| :: whole[j] < whole[k])
    && |hashes| == |whole|
    && forall i | 0 <= i < |whole| :: DigestAt(wire, format, digest, whole[i], hashes[i])
  }

  /** `whole` are the positions of all whole frames in the file, in order, and `hashes` their images' digests. */
  ghost predicate Recorded(wire: seq<Byte>, format: Format, digest: seq<Byte> -> Digest, whole: seq<nat>, hashes: seq<Digest>) {
    Scanned(wire, format, digest, whole, hashes) && forall a: nat :: a in whole <==> WholeAt(wire, format, a)
  }

  /** What the scan digests, on every file. */
  lemma FramesScanned(wire: seq<Byte>, format: Format, digest: seq<Byte> -> Digest) returns (whole: seq<nat>)
    ensures Scanned(wire, format, digest, whole, Digests(wire, format, Visited(wire, format.Marker(), 0), digest))
  {
    hide FrameAt, Pixels, Digests, Overlapping, WholeAt, ImageAt;
    var marker := format.Marker();
    var visited := Visited(wire, marker, 0);
    VisitedSound(wire, marker, 0);
    VisitedInOrder(wire, marker, 0);
    whole := DigestsExact(wire, format, visited, digest);
    forall a: nat
      ensures a in whole ==> WholeAt(wire, format, a)
      ensures WholeAt(wire, format, a) && a !in whole ==> exists v: nat :: Overlapping(wire, marker, v, a)
    {
      WholeExact(wire, format, a);
      if WholeAt(wire, format, a) && a !in whole {
        VisitedComplete(wire, marker, 0, a);
      }
    }
    forall i | 0 <= i < |whole|
      ensures DigestAt(wire, format, digest, whole[i], Digests(wire, format, visited, digest)[i])
    {
      PixelsExact(wire, format, whole[i]);
    }
  }

  /**
   In either format, if no two markers of the file overlap, the digests are those of the images of every whole frame
   in it, each once and in file order.
   */
  lemma FramesRecorded(wire: seq<Byte>, format: Format, digest: seq<Byte> -> Digest) returns (whole: seq<nat>)
    requires !exists a: nat, b: nat :: Overlapping(wire, format.Marker(), a, b)
    ensures Recorded(wire, format, digest, whole, Digests(wire, format, Visited(wire, format.Marker(), 0), digest))
  {
    hide Overlapping, WholeAt, DigestAt, Digests;
    whole := FramesScanned(wire, format, digest);
  }

  /** In a 16-bit recording they always are. */
  lemma Raw16FramesRecorded(wire: seq<Byte>, digest: seq<Byte> -> Digest) returns (whole: seq<nat>)
    ensures Recorded(wire, Raw16, digest, whole, Digests(wire, Raw16, Visited(wire, OPENING, 0), digest))
  {
    forall a: nat, b: nat
      ensures !Overlapping(wire, OPENING, a, b)
    {
      if OccursAt(wire, OPENING, a) && OccursAt(wire, OPENING, b) {
        OpeningsApart(wire, a, b);
      }
    }
    whole := FramesRecorded(wire, Raw16, digest);
  }

  // ---------------------------------------------------------------- the ordered match

  /** `list` can be read off `hashes` from left to right, at the positions `at`. */
  ghost predicate Picks(at: seq<nat>, list: seq<Digest>, hashes: seq<Digest>, from: nat) {
    && |at| == |list|
    && (forall i | 0 <= i < |at| :: from <= at[i] < |hashes| && hashes[at[i]] == list[i])
    && forall i, j | 0 <= i < j < |at| :: at[i] < at[j]
  }

  ghost predicate Subsequence(list: seq<Digest>, hashes: seq<Digest>, from: nat) {
    exists at :: Picks(at, list, hashes, from)
  }

  /** `index`: the first position of `digest` at or after `from`. */
  function IndexOf(hashes: seq<Digest>, digest: Digest, from: nat): (r: Option<nat>)
    ensures r.None? ==> forall k | from <= k < |hashes| :: hashes[k] != digest
    ensures r.Some? ==> && from <= r.value < |hashes| && hashes[r.value] == digest
                        && forall k | from <= k < r.value :: hashes[k] != digest
    decreases |hashes| - from
  {
    if from >= |hashes| then None else if hashes[from] == digest then Some(from) else IndexOf(hashes, digest, from + 1)
  }

  /** Taking the first possible position for the head of the list never loses a match of the rest. */
  lemma GreedyStep(list: seq<Digest>, hashes: seq<Digest>, from: nat)
    requires list != []
    ensures Subsequence(list, hashes, from) <==>
            IndexOf(hashes, list[0], from).Some? && Subsequence(list[1..], hashes, IndexOf(hashes, list[0], from).value + 1)
  {
    var first := IndexOf(hashes, list[0], from);
    if Subsequence(list, hashes, from) {
      var at :| Picks(at, list, hashes, from);
      assert from <= at[0] < |hashes| && hashes[at[0]] == list[0];
      assert first.Some? && first.value <= at[0];
      assert Picks(at[1..], list[1..], hashes, first.value + 1);
    }
    if first.Some? && Subsequence(list[1..], hashes, first.value + 1) {
      var at :| Picks(at, list[1..], hashes, first.value + 1);
      assert Picks([first.value] + at, list, hashes, from);
    }
  }

  /** The loop over the SDK's digests succeeds exactly when they are, in order, among the wire's. */
  method MatchInOrder(hashes: seq<Digest>, expected: seq<Digest>) returns (matched: bool)
    ensures matched <==> Subsequence(expected, hashes, 0)
  {
    var cursor := 0;
    assert expected[0..] == expected;
    for i := 0 to |expected|
      invariant Subsequence(expected, hashes, 0) <==> Subsequence(expected[i..], hashes, cursor)
    {
      GreedyStep(expected[i..], hashes, cursor);
      assert expected[i..][1..] == expected[i + 1..];
      var found := IndexOf(hashes, expected[i], cursor);
      if found.None? {
        return false;
      }
      cursor := found.value + 1;
    }
    assert Picks([], expected[|expected|..], hashes, cursor);
    return true;
  }

  // ---------------------------------------------------------------- the whole check

  /** One frame the SDK reported. */
  datatype Row = Row(width: int, height: int, bits: int, digest: Digest)

  datatype Rejection = BadRows | Unmatched | Duplicate

  function DigestsOf(sdk: seq<Row>): (d: seq<Digest>)
    ensures |d| == |sdk| && forall i | 0 <= i < |sdk| :: d[i] == sdk[i].digest
  {
    seq(|sdk|, i requires 0 <= i < |sdk| => sdk[i].digest)
  }

  predicate GoodRows(sdk: seq<Row>) {
    && sdk != [] && sdk[0].bits in {8, 16}
    && forall i | 0 <= i < |sdk| :: sdk[i].width == WIDTH && sdk[i].height == HEIGHT && sdk[i].bits == sdk[0].bits
  }

  predicate Distinct(list: seq<Digest>) {
    forall i, j | 0 <= i < j < |list| :: list[i] != list[j]
  }

  /** The verdict on the SDK's rows, given the whole frames of the wire in the rows' format and their digests. */
  ghost predicate Judged(sdk: seq<Row>, wire: seq<Byte>, digest: seq<Byte> -> Digest, whole: seq<nat>, hashes: seq<Digest>,
                         r: Result<(nat, nat), Rejection>)
    requires sdk != []
  {
    && Scanned(wire, if sdk[0].bits == 8 then Raw8 else Raw16, digest, whole, hashes)
    && r == if !Subsequence(DigestsOf(sdk), hashes, 0) then Err(Unmatched)
            else if !Distinct(DigestsOf(sdk)) then Err(Duplicate)
            else Ok((|sdk|, |hashes|))
  }

  /**
   The recording is accepted exactly when the SDK delivered full frames of one supported depth, no image twice,
   and their digests appear in order among those of the images of the scanned wire frames; the result is the pair
   of counts.
   */
  method Verify(sdk: seq<Row>, wire: seq<Byte>, digest: seq<Byte> -> Digest) returns (r: Result<(nat, nat), Rejection>)
    ensures r == Err(BadRows) <==> !GoodRows(sdk)
    ensures GoodRows(sdk) ==>
              exists whole, hashes :: Judged(sdk, wire, digest, whole, hashes, r)
  {
    if !GoodRows(sdk) {
      return Err(BadRows);
    }
    hide Scanned;
    var format := if sdk[0].bits == 8 then Raw8 else Raw16;
    var hashes := ScanFrames(wire, format, digest);
    ghost var whole := FramesScanned(wire, format, digest);
    var expected := DigestsOf(sdk);
    var matched := MatchInOrder(hashes, expected);
    if !matched {
      r := Err(Unmatched);
    } else if !Distinct(expected) {
      r := Err(Duplicate);
    } else {
      r := Ok((|expected|, |hashes|));
    }
    assert Judged(sdk, wire, digest, whole, hashes, r);
  }
}
