/**
 Small probes at the end of the rotator's range, with the coordinate system rewritten in between and restored
 afterwards.

 The script tracks how far it has moved the device in `delta` and the reading it last accounted for in
 `reference`. Physical displacement is measured from `home`.
 */
module CaaReference {
  import opened Wrappers
  import opened Integers
  import opened Caa

  const MOVE_MS: int := 5000
  const STEP: int := 2 * DEGREE
  const REACH: int := 20010
  const CLOSE: int := 300
  const ROOM: int := 6 * DEGREE

  /** No slip is larger: both the old and the new label are of a position within range. */
  const SLIP: int := 2 * RANGE + 800 * DEGREE

  predicate Permitted(target: int, from: int) {
    0 <= target <= 361 * DEGREE && Abs(target - from) <= REACH
  }

  /**
   One bounded motion. It is refused as too far exactly when the target is out of range or more than 2.001
   degrees away; on success the device is idle.
   */
  method Move(d: Device, target: int, probe: bool) returns (r: Result<Status, Failure>)
    requires d.Valid()
    modifies d`position, d`moving, d`looks, d`motions, d`asks
    ensures d.Valid() && old(d.looks) <= d.looks
    ensures d.asks == old(d.asks) + [Target(target)] || (d.asks == old(d.asks) && r.Err?)
    ensures r.Ok? ==> !d.moving && r.value.reading == d.Reading() && r.value.idle
    ensures r.Ok? && !probe && !old(d.moving) ==> Abs(d.Reading() - old(d.Reading())) <= 22000
    ensures r != Err(OutOfRange) && r != Err(Irreconcilable)
    ensures !old(d.moving) && Permitted(target, old(d.Reading())) ==> r != Err(TooFar)
    ensures !old(d.moving) && !Permitted(target, old(d.Reading())) ==>
              r.Err? && r.error in {TooFar, Io, NotIdle} && !d.moving && d.position == old(d.position)
  {
    var s :- d.Idle();
    var from := s.reading;
    if !Permitted(target, from) {
      return Err(TooFar);
    }
    var ok := d.StartMove(target);
    if !ok {
      ok := d.Stop();
      return Err(Io);
    }
    var elapsed := 0;
    while elapsed < MOVE_MS
      invariant d.Valid() && old(d.looks) <= d.looks && d.asks == old(d.asks) + [Target(target)]
      decreases MOVE_MS - elapsed
    {
      var after := d.ReadStatus();
      if after.None? {
        ok := d.Stop();
        return Err(Io);
      }
      var reading := after.value.reading;
      if (reading - from) * (target - from) < -5000000 {
        ok := d.Stop();
        if !ok {
          ok := d.Stop();
          return Err(Io);
        }
        var stopped := d.Idle();
        if stopped.Err? || !probe {
          ok := d.Stop();
          return Err(if stopped.Err? then stopped.error else Opposite);
        }
        return stopped;
      }
      if Abs(reading - from) > 22000 {
        ok := d.Stop();
        return Err(Jump);
      }
      if after.value.idle {
        return Ok(after.value);
      }
      var wait: int := *;
      elapsed := elapsed + Max(25, wait);
    }
    ok := d.Stop();
    return Err(Deadline);
  }

  /** How far a write moved the label of the device's position. */
  function Slip(w: Write): int {
    w.degrees - (w.position - w.origin)
  }

  /** The relabelling by writes that took effect although their call failed. */
  function Slipped(writes: seq<Write>): int {
    if writes == [] then 0 else
    Slipped(writes[..|writes| - 1]) + var w := writes[|writes| - 1]; if w.known then 0 else Slip(w)
  }

  /** The recorded writes made from below the origin, where the unsigned reading had wrapped. */
  function Wraps(writes: seq<Write>): nat {
    if writes == [] then 0 else
    Wraps(writes[..|writes| - 1]) + var w := writes[|writes| - 1]; if w.known && w.position < w.origin then 1 else 0
  }

  lemma WriteSnoc(writes: seq<Write>, w: Write)
    ensures Slipped(writes + [w]) == Slipped(writes) + if w.known then 0 else Slip(w)
    ensures Wraps(writes + [w]) == Wraps(writes) + if w.known && w.position < w.origin then 1 else 0
  {
    assert (writes + [w])[..|writes|] == writes;
  }

  predicate AllKnown(writes: seq<Write>) {
    forall i | 0 <= i < |writes| :: writes[i].known
  }

  lemma {:induction false} NothingSlipped(writes: seq<Write>)
    requires AllKnown(writes)
    ensures Slipped(writes) == 0
  {
    if writes != [] {
      NothingSlipped(writes[..|writes| - 1]);
    }
  }

  /** The script's books: accumulated motion and the reading it is accounted up to. */
  datatype Books = Books(delta: int, reference: int)

  /**
   The books are the true displacement, plus the relabelling by writes they never learnt of, plus one wrap for
   every recorded write made from below the origin `zero`.
   */
  predicate Accounts(run: seq<Write>, position: int, zero: int, home: int, b: Books) {
    b.delta + position - zero - b.reference == position - home + Slipped(run) + WRAP * Wraps(run)
  }

  const FIRST: int := 359 * DEGREE
  const SECOND: int := 360 * DEGREE

  /**
   The reference writes of the probes, in order: to 359 degrees at home, perhaps to 360, and to zero. Each starts
   from the origin the one before it left, and only the last can have slipped.
   */
  ghost predicate Script(writes: seq<Write>, home: int, origin: int) {
    && |writes| <= 3
    && (forall i | 0 <= i < |writes| - 1 :: writes[i].known)
    && (forall i | 0 <= i < |writes| :: Abs(writes[i].position) <= RANGE)
    && (|writes| > 0 ==> writes[0].position == home && writes[0].origin == origin && writes[0].degrees == FIRST)
    && (|writes| > 1 ==> writes[1].origin == home - FIRST && (writes[1].degrees == 0 || writes[1].degrees == SECOND))
    && (|writes| > 2 ==> writes[1].degrees == SECOND && writes[2].degrees == 0 && writes[2].origin == writes[1].position - SECOND)
  }

  /** The label the next write may give: 359 degrees first, 360 at most once, and zero last. */
  predicate Next(writes: seq<Write>, degrees: int) {
    match |writes|
    case 0 => degrees == FIRST
    case 1 => degrees == SECOND || degrees == 0
    case 2 => degrees == 0 && writes[1].degrees == SECOND
    case _ => false
  }

  /** Between probes, at rest: the script's writes so far, all known, and the books up to date. */
  ghost predicate Ready(run: seq<Write>, position: int, zero: int, home: int, origin: int, b: Books) {
    && b.reference == (position - zero) % WRAP && Accounts(run, position, zero, home, b)
    && AllKnown(run) && Script(run, home, origin)
    && (if run == [] then position == home && zero == origin else zero == run[|run| - 1].position - run[|run| - 1].degrees)
  }

  /** Wherever the probes end: accounted for, and at rest where it happened if a write slipped. */
  ghost predicate Ended(run: seq<Write>, position: int, zero: int, moving: bool, home: int, origin: int, b: Books) {
    && Accounts(run, position, zero, home, b) && Script(run, home, origin)
    && (!AllKnown(run) ==> !moving && position == run[|run| - 1].position && position - zero == run[|run| - 1].degrees)
  }

  lemma ReadyEnded(run: seq<Write>, position: int, zero: int, moving: bool, home: int, origin: int, b: Books)
    requires Ready(run, position, zero, home, origin, b)
    ensures Ended(run, position, zero, moving, home, origin, b) && b.reference == (position - zero) % WRAP
  {
  }

  lemma ScriptSnoc(writes: seq<Write>, w: Write, home: int, origin: int)
    requires Script(writes, home, origin) && AllKnown(writes) && Next(writes, w.degrees) && Abs(w.position) <= RANGE
    requires if writes == [] then w.position == home && w.origin == origin
             else w.origin == writes[|writes| - 1].position - writes[|writes| - 1].degrees
    ensures Script(writes + [w], home, origin)
  {
  }

  /** A write of the script: recorded, the books stay up to date but for a wrapped label; unrecorded, it slips. */
  lemma Relabelled(run: seq<Write>, w: Write, home: int, origin: int, b: Books)
    requires Ready(run, w.position, w.origin, home, origin, b) && Next(run, w.degrees) && 0 <= w.degrees <= SECOND
    requires Abs(w.position - w.origin) < WRAP / 2 && Abs(w.position) <= RANGE
    ensures w.known ==> Ready(run + [w], w.position, w.position - w.degrees, home, origin, Books(b.delta, w.degrees))
    ensures !w.known ==> Ended(run + [w], w.position, w.position - w.degrees, false, home, origin, b)
  {
    NothingSlipped(run);
    WriteSnoc(run, w);
    ReadingExact(w.position - w.origin);
    ReadingExact(w.degrees);
    ScriptSnoc(run, w, home, origin);
  }

  /** Motion leaves the books accounted for, and its entry brings them up to date. */
  lemma Moved(run: seq<Write>, from: int, to: int, zero: int, moving: bool, home: int, origin: int, b: Books)
    requires Ready(run, from, zero, home, origin, b) && run != []
    ensures Ended(run, to, zero, moving, home, origin, b)
    ensures var reading := (to - zero) % WRAP;
            Ready(run, to, zero, home, origin, Books(b.delta + reading - b.reference, reading))
  {
  }

  /**
   Relabels the present position and records it. When the call fails although the write took effect, the books
   miss the relabelling.
   */
  method Relabel(d: Device, degrees: int, b0: Books, ghost home: int, ghost n: nat, ghost origin: int)
    returns (ok: bool, b: Books)
    requires d.Valid() && !d.moving && n <= |d.writes| && Ready(d.writes[n..], d.position, d.origin, home, origin, b0)
    requires Next(d.writes[n..], degrees) && 0 <= degrees <= SECOND
    modifies d
    ensures d.Valid() && !d.moving && d.position == old(d.position) && old(d.writes) <= d.writes && old(d.looks) <= d.looks
    ensures d.asks == old(d.asks)
    ensures Ended(d.writes[n..], d.position, d.origin, false, home, origin, b)
    ensures ok ==> && Ready(d.writes[n..], d.position, d.origin, home, origin, b) && b.reference == degrees
                   && d.writes == old(d.writes) + [Write(d.position, old(d.origin), degrees, true)]
    ensures !ok ==> b == b0 && (d.writes == old(d.writes) || d.writes == old(d.writes) + [Write(d.position, old(d.origin), degrees, false)])
  {
    hide Ready, Ended, Next;
    ghost var run, was := d.writes[n..], d.origin;
    b := b0;
    ReadyEnded(run, d.position, d.origin, false, home, origin, b);
    var after, landed := d.Reference(degrees);
    ok := after.Ok?;
    if landed {
      ghost var w := Write(d.position, was, degrees, ok);
      assert d.writes[n..] == run + [w];
      Relabelled(run, w, home, origin, b0);
    }
    if ok {
      b := b.(reference := degrees);
      ReadyEnded(d.writes[n..], d.position, d.origin, false, home, origin, b);
    }
  }

  /** A motion and its entry in the books. */
  method MoveRecorded(d: Device, target: int, probe: bool, before: int, b0: Books, ghost home: int, ghost n: nat, ghost origin: int)
    returns (r: Result<Status, Failure>, b: Books)
    requires d.Valid() && !d.moving && n < |d.writes| && Ready(d.writes[n..], d.position, d.origin, home, origin, b0)
    requires before == b0.reference
    modifies d`position, d`moving, d`looks, d`motions, d`asks
    ensures d.Valid() && old(d.looks) <= d.looks && Ended(d.writes[n..], d.position, d.origin, d.moving, home, origin, b)
    ensures r.Ok? ==> !d.moving && Ready(d.writes[n..], d.position, d.origin, home, origin, b)
    ensures d.asks == old(d.asks) + [Target(target)] || (d.asks == old(d.asks) && r.Err?)
  {
    hide Ready, Ended;
    b := b0;
    r := Move(d, target, probe);
    Moved(d.writes[n..], old(d.position), d.position, d.origin, d.moving, home, origin, b0);
    if r.Ok? {
      b := Books(b0.delta + r.value.reading - before, r.value.reading);
      ReadyEnded(d.writes[n..], d.position, d.origin, d.moving, home, origin, b);
    }
  }

  /** What the probes ask for, in order: limits of 360, 360 and 361 degrees, each with a motion to the end of the range. */
  const PROBE_ASKS: seq<Ask> :=
    [Limit(360), Target(3600000), Limit(360), Target(3610000), Limit(361), Target(3610000)]

  /** Then the original limit, and a motion to one degree. */
  function LastAsks(limit: int): seq<Ask> {
    [Limit(limit), Target(10000)]
  }

  /** The commands since `before` are the beginning of the plan. */
  ghost predicate Sent(before: seq<Ask>, after: seq<Ask>, plan: seq<Ask>, done: bool) {
    exists k :: 0 <= k <= |plan| && after == before + plan[..k] && (done ==> k == |plan|)
  }

  ghost predicate ProbeAskedAt(before: seq<Ask>, after: seq<Ask>, limit: int, done: bool, n: nat, k: nat) {
    && n <= 6 && k <= 2 && (k > 0 ==> n in {2, 4, 6}) && (done ==> k == 2)
    && after == before + PROBE_ASKS[..n] + LastAsks(limit)[..k]
  }

  /** The commands of the probes: whole probes in order, the last perhaps cut short, and then perhaps the final ones. */
  ghost predicate ProbeAsked(before: seq<Ask>, after: seq<Ask>, limit: int, done: bool) {
    exists n, k :: ProbeAskedAt(before, after, limit, done, n, k)
  }

  /** The cleanup's commands: the original limit, and then only return motions. */
  ghost predicate CleanupAsked(before: seq<Ask>, after: seq<Ask>, limit: int, done: bool) {
    && before <= after && (done ==> |before| < |after|)
    && (|before| < |after| ==> after[|before|] == Limit(limit))
    && forall i | |before| < i < |after| :: after[i].Target?
  }

  /** All commands of the phase. */
  ghost predicate PhaseAsked(before: seq<Ask>, after: seq<Ask>, limit: int, r: Outcome) {
    exists mid :: ProbeAsked(before, mid, limit, r.Restored? && r.done) && CleanupAsked(mid, after, limit, r.Restored?)
  }

  lemma ProbeSent(before: seq<Ask>, mid: seq<Ask>, after: seq<Ask>, i: nat, limit: int, done: bool)
    requires i < 3 && mid == before + PROBE_ASKS[..2 * i]
    requires Sent(mid, after, [Limit(PROBES[i].0), Target(PROBES[i].1 * DEGREE)], done)
    ensures ProbeAsked(before, after, limit, false) && (done ==> after == before + PROBE_ASKS[..2 * i + 2])
  {
    var plan := [Limit(PROBES[i].0), Target(PROBES[i].1 * DEGREE)];
    var k: nat :| k <= |plan| && after == mid + plan[..k] && (done ==> k == |plan|);
    assert PROBE_ASKS[..2 * i] + plan[..k] == PROBE_ASKS[..2 * i + k];
    assert ProbeAskedAt(before, after, limit, false, 2 * i + k, 0);
  }

  lemma LastSent(before: seq<Ask>, mid: seq<Ask>, after: seq<Ask>, n: nat, limit: int, done: bool)
    requires n in {2, 4, 6} && mid == before + PROBE_ASKS[..n] && Sent(mid, after, LastAsks(limit), done)
    ensures ProbeAsked(before, after, limit, done)
  {
    var k: nat :| k <= 2 && after == mid + LastAsks(limit)[..k] && (done ==> k == 2);
    assert ProbeAskedAt(before, after, limit, done, n, k);
  }

  lemma NothingSent(before: seq<Ask>, limit: int)
    ensures ProbeAsked(before, before, limit, false) && Sent(before, before, LastAsks(limit), false)
  {
    assert ProbeAskedAt(before, before, limit, false, 0, 0);
    assert before == before + LastAsks(limit)[..0];
  }

  /** Two commands, the second only after the first. */
  lemma TwoSent(before: seq<Ask>, mid: seq<Ask>, after: seq<Ask>, first: Ask, second: Ask, done: bool)
    requires mid == before + [first] || (mid == before && after == mid)
    requires after == mid + [second] || (after == mid && !done)
    requires after == mid + [second] ==> mid == before + [first]
    ensures Sent(before, after, [first, second], done)
  {
    var plan := [first, second];
    assert plan[..0] == [] && plan[..1] == [first] && plan[..2] == [first] + [second];
    if after == mid + [second] {
      assert after == before + plan[..2];
    } else if mid == before + [first] {
      assert after == before + plan[..1];
    } else {
      assert after == before + plan[..0];
    }
  }

  const PROBES: seq<(int, int)> := [(360, 360), (360, 361), (361, 361)]

  /** One probe: a limit, a motion to its target, and whether the firmware refused it. */
  method ProbeOnce(d: Device, limit: int, target: int, b0: Books, ghost home: int, ghost n: nat, ghost origin: int)
    returns (ok: bool, refused: bool, b: Books)
    requires d.Valid() && !d.moving && n < |d.writes| && Ready(d.writes[n..], d.position, d.origin, home, origin, b0)
    requires limit == 361 ==> Next(d.writes[n..], SECOND)
    modifies d
    ensures d.Valid() && old(d.writes) <= d.writes && old(d.looks) <= d.looks
    ensures Ended(d.writes[n..], d.position, d.origin, d.moving, home, origin, b)
    ensures ok ==> !d.moving && Ready(d.writes[n..], d.position, d.origin, home, origin, b)
    ensures ok ==> d.writes == old(d.writes)
                               + if limit == 361 then [Write(old(d.position), old(d.origin), SECOND, true)] else []
    ensures Sent(old(d.asks), d.asks, [Limit(limit), Target(target * DEGREE)], ok)
  {
    hide Ready, Ended, Next, Sent;
    TwoSent(d.asks, d.asks, d.asks, Limit(limit), Target(target * DEGREE), false);
    ReadyEnded(d.writes[n..], d.position, d.origin, d.moving, home, origin, b0);
    b, refused := b0, false;
    if limit == 361 {
      ok, b := Relabel(d, SECOND, b, home, n, origin);
      if !ok {
        return;
      }
    }
    var before;
    before, ok := LimitWritten(d, limit);
    ReadyEnded(d.writes[n..], d.position, d.origin, d.moving, home, origin, b);
    ghost var mid := d.asks;
    TwoSent(old(d.asks), mid, mid, Limit(limit), Target(target * DEGREE), false);
    if !ok {
      return;
    }
    var after: Result<Status, Failure>;
    after, b := MoveRecorded(d, target * DEGREE, true, before, b, home, n, origin);
    TwoSent(old(d.asks), mid, d.asks, Limit(limit), Target(target * DEGREE), after.Ok?);
    ok, refused := after.Ok?, after.Ok? && after.value.error != 0;
  }

  /** A limit write and the reading of the idle device. */
  method LimitWritten(d: Device, limit: int) returns (reading: int, ok: bool)
    requires d.Valid() && !d.moving
    modifies d`position, d`moving, d`limit, d`looks, d`asks
    ensures d.Valid() && !d.moving && d.position == old(d.position) && old(d.looks) <= d.looks
    ensures ok ==> reading == d.Reading()
    ensures d.asks == old(d.asks) + [Limit(limit)] || (d.asks == old(d.asks) && !ok)
  {
    var written := d.WriteLimit(limit);
    var idle := d.Idle();
    ok := written.Ok? && idle.Ok?;
    reading := if idle.Ok? then idle.value.reading else 0;
  }

  lemma FirstReady(home: int, origin: int, b: Books)
    requires b == Books(0, home - origin) && 0 <= home - origin <= SECOND
    ensures Ready([], home, origin, home, origin, b) && Next([], FIRST)
  {
    ReadingExact(home - origin);
  }

  /**
   The probes themselves. However they end - done, refused by the firmware, or cut short by any failure - the
   books account for the device's true displacement, except for a slipped reference write.
   */
  method Probe(d: Device, initial: Status, ghost home: int) returns (ok: bool, b: Books)
    requires d.Valid() && !d.moving && d.position == home && initial.reading == d.Distance() <= SECOND
    modifies d
    ensures d.Valid() && old(d.writes) <= d.writes && old(d.looks) <= d.looks
    ensures Ended(d.writes[|old(d.writes)|..], d.position, d.origin, d.moving, home, old(d.origin), b)
    ensures ok ==> AllKnown(d.writes[|old(d.writes)|..]) && |d.writes| >= |old(d.writes)| + 2
    ensures ProbeAsked(old(d.asks), d.asks, initial.limit, ok)
  {
    hide Ready, Ended, AllKnown, Sent, ProbeAsked;
    NothingSent(d.asks, initial.limit);
    ghost var n, origin := |d.writes|, d.origin;
    b := Books(0, initial.reading);
    FirstReady(home, origin, b);
    assert d.writes[n..] == [];
    ok, b := Relabel(d, FIRST, b, home, n, origin);
    if !ok {
      return;
    }
    var i := 0;
    ghost var sent := 0;
    while i < 3
      invariant 0 <= i <= 3 && d.Valid() && !d.moving && old(d.writes) <= d.writes && old(d.looks) <= d.looks
      invariant (if i < 3 then sent == 2 * i else sent in {2, 4, 6}) && d.asks == old(d.asks) + PROBE_ASKS[..sent]
      invariant Ready(d.writes[n..], d.position, d.origin, home, origin, b)
      invariant |d.writes| == n + 1 || (i == 3 && |d.writes| == n + 2 && d.writes[n + 1].degrees == SECOND)
      decreases 3 - i
    {
      var refused;
      ghost var mid := d.asks;
      ok, refused, b := ProbeOnce(d, PROBES[i].0, PROBES[i].1, b, home, n, origin);
      ProbeSent(old(d.asks), mid, d.asks, i, initial.limit, ok);
      if !ok {
        return;
      }
      sent := 2 * i + 2;
      i := if refused then 3 else i + 1;
    }
    ghost var before := d.asks;
    ok, b := Last(d, initial, b, home, n, origin);
    LastSent(old(d.asks), before, d.asks, sent, initial.limit, ok);
  }

  /** Zero the origin, put the limit back, and move one degree away from the end. */
  method Last(d: Device, initial: Status, b0: Books, ghost home: int, ghost n: nat, ghost origin: int)
    returns (ok: bool, b: Books)
    requires d.Valid() && !d.moving && n < |d.writes| && Ready(d.writes[n..], d.position, d.origin, home, origin, b0)
    requires Next(d.writes[n..], 0)
    modifies d
    ensures d.Valid() && old(d.writes) <= d.writes && old(d.looks) <= d.looks
    ensures Ended(d.writes[n..], d.position, d.origin, d.moving, home, origin, b)
    ensures ok ==> AllKnown(d.writes[n..]) && |d.writes| == |old(d.writes)| + 1
    ensures Sent(old(d.asks), d.asks, LastAsks(initial.limit), ok)
  {
    hide Ready, Ended, Next, AllKnown, Sent;
    NothingSent(d.asks, initial.limit);
    b := b0;
    var healthy := d.Idle();
    ReadyEnded(d.writes[n..], d.position, d.origin, d.moving, home, origin, b);
    if healthy.Err? {
      return false, b;
    }
    ok, b := Relabel(d, 0, b, home, n, origin);
    if !ok {
      return;
    }
    var zero;
    zero, ok := LimitWritten(d, initial.limit);
    ReadyEnded(d.writes[n..], d.position, d.origin, d.moving, home, origin, b);
    ghost var mid := d.asks;
    TwoSent(old(d.asks), mid, mid, Limit(initial.limit), Target(DEGREE), false);
    if !ok {
      return;
    }
    var after: Result<Status, Failure>;
    after, b := MoveRecorded(d, DEGREE, false, 0, b, home, n, origin);
    TwoSent(old(d.asks), mid, d.asks, Limit(initial.limit), Target(DEGREE), after.Ok?);
    ok := after.Ok?;
    if ok {
      ReadyKnown(d.writes[n..], d.position, d.origin, home, origin, b);
    }
  }

  lemma ReadyKnown(run: seq<Write>, position: int, zero: int, home: int, origin: int, b: Books)
    requires Ready(run, position, zero, home, origin, b)
    ensures AllKnown(run)
  {
  }

  /**
   The six-degree check, decided by what happened: the device rests at or past its origin, no recorded write was
   made from below it, and displacement and slip add up to at most six degrees.
   */
  predicate Acceptable(writes: seq<Write>, displacement: int, distance: int) {
    Wraps(writes) == 0 && distance >= 0 && Abs(displacement + Slipped(writes)) <= ROOM
  }

  /** Neither a slip nor a displacement is large enough to make up for a wrap. */
  lemma CheckExact(writes: seq<Write>, displacement: int, distance: int, b: Books, delta: int)
    requires Abs(displacement) <= 2 * RANGE && Abs(Slipped(writes)) <= SLIP && Abs(distance) < WRAP / 2
    requires b.delta + distance - b.reference == displacement + Slipped(writes) + WRAP * Wraps(writes)
    requires delta == b.delta + distance % WRAP - b.reference
    ensures Abs(delta) <= ROOM <==> Acceptable(writes, displacement, distance)
    ensures Acceptable(writes, displacement, distance) ==> delta == displacement + Slipped(writes)
  {
    ReadingExact(distance);
    var wraps := Wraps(writes) + if distance < 0 then 1 else 0;
    assert delta == displacement + Slipped(writes) + WRAP * wraps;
  }

  lemma SlipBounded(run: seq<Write>, home: int, origin: int)
    requires Script(run, home, origin) && Abs(home) <= RANGE && Abs(home - origin) <= SECOND
    ensures Abs(Slipped(run)) <= SLIP
  {
    hide Slipped;
    if AllKnown(run) {
      NothingSlipped(run);
    } else {
      var front, w := run[..|run| - 1], run[|run| - 1];
      NothingSlipped(front);
      WriteSnoc(front, w);
      assert run == front + [w];
    }
  }

  /** The books follow the device while it comes to rest. */
  lemma EndedLater(run: seq<Write>, from: int, to: int, zero: int, moving: bool, moving': bool, home: int, origin: int, b: Books)
    requires Ended(run, from, zero, moving, home, origin, b) && (!moving ==> from == to && !moving')
    ensures Ended(run, to, zero, moving', home, origin, b) && Accounts(run, to, zero, home, b) && Script(run, home, origin)
    ensures !AllKnown(run) ==> from == to && run != [] && to == run[|run| - 1].position && to - zero == run[|run| - 1].degrees
  {
  }

  /**
   Stop, look, and reconcile: a device that can be read passes exactly when the check is acceptable, and the
   result is its displacement and what slipped.
   */
  method Reconcile(d: Device, b: Books, ghost home: int, ghost run: seq<Write>, ghost origin: int) returns (r: Result<int, Failure>)
    requires d.Valid() && Ended(run, d.position, d.origin, d.moving, home, origin, b)
    requires Abs(home) <= RANGE && Abs(home - origin) <= SECOND
    modifies d`position, d`moving, d`looks
    ensures d.Valid() && old(d.looks) <= d.looks && Ended(run, d.position, d.origin, d.moving, home, origin, b)
    ensures r.Ok? || r == Err(Irreconcilable) ==> !d.moving && (r.Ok? <==> Acceptable(run, d.position - home, d.Distance()))
    ensures r.Ok? ==> r.value == d.position - home + Slipped(run)
    ensures r.Err? ==> r.error in {Io, NotIdle, Irreconcilable}
    ensures !old(d.moving) ==> d.position == old(d.position) && !d.moving
  {
    hide Ended, Script, Slipped, Wraps, AllKnown, Acceptable;
    var sent := d.Stop();
    if !sent {
      return Err(Io);
    }
    var idle := d.Idle();
    EndedLater(run, old(d.position), d.position, d.origin, old(d.moving), d.moving, home, origin, b);
    if idle.Err? {
      return Err(idle.error);
    }
    var delta := b.delta + idle.value.reading - b.reference;
    SlipBounded(run, home, origin);
    CheckExact(run, d.position - home, d.Distance(), b, delta);
    if Abs(delta) > ROOM {
      return Err(Irreconcilable);
    }
    return Ok(delta);
  }

  /**
   Reconciling and returning. When it succeeds the device rests within 0.03 degrees of where it would be had the
   books been right: within 0.03 degrees of home exactly when nothing slipped, give or take the same tolerance.
   No return step is ever refused as too far, and there are at most four.
   */
  method Restore(d: Device, initial: Status, b: Books, ghost home: int, ghost run: seq<Write>, ghost origin: int)
    returns (r: Result<nat, Failure>)
    requires d.Valid() && Ended(run, d.position, d.origin, d.moving, home, origin, b)
    requires Abs(home) <= RANGE && Abs(home - origin) <= SECOND
    requires ROOM <= initial.reading <= 360 * DEGREE - ROOM
    modifies d
    ensures d.Valid() && old(d.writes) <= d.writes && |d.writes| <= |old(d.writes)| + 1 && old(d.looks) <= d.looks
    ensures r.Ok? ==> && !d.moving && Abs(d.Reading() - initial.reading) <= CLOSE && r.value <= 4
                      && |d.writes| == |old(d.writes)| + 1
    ensures r.Ok? ==> Abs(d.position - home + Slipped(run)) <= CLOSE
    ensures r.Ok? ==> var w := d.writes[|d.writes| - 1]; && Acceptable(run, w.position - home, w.position - w.origin)
                                                         && (!old(d.moving) ==> w.position == old(d.position) && w.origin == old(d.origin))
    ensures r == Err(Irreconcilable) ==> && d.writes == old(d.writes) && d.origin == old(d.origin)
                                         && (!old(d.moving) ==> d.position == old(d.position))
                                         && !Acceptable(run, d.position - home, d.Distance())
    ensures CleanupAsked(old(d.asks), d.asks, initial.limit, r.Ok?)
    ensures r != Err(TooFar)
    ensures 1 <= initial.limit <= 361 ==> r != Err(OutOfRange)
  {
    hide Ended, Slipped, Acceptable;
    var reconciled := Reconcile(d, b, home, run, origin);
    if reconciled.Err? {
      return Err(reconciled.error);
    }
    var delta := reconciled.value;
    RoomOf(run, d.position - home, d.Distance());
    var relabelled, landed := d.Reference(initial.reading + delta);
    if relabelled.Err? {
      return Err(relabelled.error);
    }
    assert d.position - home + Slipped(run) == d.Distance() - initial.reading;
    ghost var zero := d.origin;
    var limited := d.WriteLimit(initial.limit);
    if limited.Err? {
      return Err(limited.error);
    }
    r := Return(d, initial.reading);
    assert d.origin == zero;
  }

  lemma RoomOf(writes: seq<Write>, displacement: int, distance: int)
    ensures Acceptable(writes, displacement, distance) ==> Abs(displacement + Slipped(writes)) <= ROOM
  {
  }

  /** After each return step the distance left is below this. */
  function Left(steps: nat): int {
    if steps == 0 then ROOM + 1 else if steps == 1 then 40301 else if steps == 2 then 20601 else if steps == 3 then 901 else CLOSE
  }

  /** The return: at most four permitted steps to within 0.03 degrees of the goal. */
  method Return(d: Device, goal: int) returns (r: Result<nat, Failure>)
    requires d.Valid() && !d.moving && ROOM <= goal <= 360 * DEGREE - ROOM && Abs(d.Distance() - goal) <= ROOM
    modifies d`position, d`moving, d`looks, d`motions, d`asks
    ensures d.Valid() && old(d.looks) <= d.looks
    ensures old(d.asks) <= d.asks && forall i | |old(d.asks)| <= i < |d.asks| :: d.asks[i].Target?
    ensures r.Ok? ==> !d.moving && Abs(d.Reading() - goal) <= CLOSE && Abs(d.Distance() - goal) <= CLOSE && r.value <= 4
    ensures r.Err? ==> r.error !in {TooFar, OutOfRange, Irreconcilable}
  {
    hide Left;
    var steps := 0;
    LeftFalls(0);
    ReadingExact(d.Distance());
    while true
      invariant d.Valid() && !d.moving && steps <= 4 && old(d.looks) <= d.looks
      invariant old(d.asks) <= d.asks && forall i | |old(d.asks)| <= i < |d.asks| :: d.asks[i].Target?
      invariant 0 <= d.Distance() && Abs(d.Distance() - goal) < Left(steps)
      decreases 4 - steps
    {
      ReadingExact(d.Distance());
      var s := d.Idle();
      if s.Err? {
        return Err(s.error);
      }
      if Abs(s.value.reading - goal) <= CLOSE {
        return Ok(steps);
      }
      var here := d.Idle();
      if here.Err? {
        return Err(here.error);
      }
      var current := here.value.reading;
      LeftFalls(steps);
      TargetPermitted(current, goal);
      var target := current + Max(-STEP, Min(STEP, goal - current));
      var done := ReturnStep(d, target);
      if done.Err? {
        return Err(done.error);
      }
      StepCloser(steps, current, goal, d.Distance());
      steps := steps + 1;
    }
  }

  lemma LeftFalls(steps: nat)
    ensures Left(0) == ROOM + 1 && Left(steps) <= ROOM + 1
  {
  }

  /** A return step's target is close enough, in range, and not beyond the goal. */
  lemma TargetPermitted(current: int, goal: int)
    requires ROOM <= goal <= 360 * DEGREE - ROOM && 0 <= current && CLOSE < Abs(current - goal) <= ROOM
    ensures var target := current + Max(-STEP, Min(STEP, goal - current));
            Abs(target - current) <= STEP && CLOSE <= target <= 360 * DEGREE
  {
  }

  /** One permitted return motion, checked to end within 0.03 degrees of its target. */
  method ReturnStep(d: Device, target: int) returns (r: Result<(), Failure>)
    requires d.Valid() && !d.moving && 0 <= d.Distance() && Abs(target - d.Distance()) <= STEP
    requires CLOSE <= target <= 360 * DEGREE
    modifies d`position, d`moving, d`looks, d`motions, d`asks
    ensures d.Valid() && old(d.looks) <= d.looks
    ensures d.asks == old(d.asks) || d.asks == old(d.asks) + [Target(target)]
    ensures r.Ok? ==> !d.moving && 0 <= d.Distance() && Abs(d.Distance() - target) < CLOSE
    ensures r.Err? ==> r.error !in {TooFar, OutOfRange, Irreconcilable}
  {
    ReadingExact(d.Distance());
    var after := Move(d, target, false);
    if after.Err? {
      return Err(after.error);
    }
    if Abs(after.value.reading - target) >= CLOSE {
      return Err(Refused);
    }
    ReadingExact(d.Distance());
    return Ok(());
  }

  /** A step towards the goal, from more than 0.03 degrees away, brings the device below the next bound. */
  lemma StepCloser(steps: nat, from: int, goal: int, to: int)
    requires steps <= 4 && CLOSE < Abs(from - goal) < Left(steps)
    requires Abs(to - (from + Max(-STEP, Min(STEP, goal - from)))) < CLOSE
    ensures steps < 4 && Abs(to - goal) < Left(steps + 1)
  {
  }

  /** The end of the probes: nothing slipped, or the last write did and the device rests where it happened. */
  lemma EndedRun(run: seq<Write>, position: int, zero: int, moving: bool, home: int, origin: int, b: Books)
    requires Ended(run, position, zero, moving, home, origin, b)
    ensures Script(run, home, origin)
    ensures AllKnown(run) ==> Slipped(run) == 0
    ensures !AllKnown(run) ==>
              run != [] && !moving && position == run[|run| - 1].position && position - zero == run[|run| - 1].degrees
  {
    if AllKnown(run) {
      NothingSlipped(run);
    }
  }

  /** How the phase ended: not begun, cleaned up in so many return steps, or with a failed cleanup. */
  datatype Outcome = Untouched | Restored(done: bool, steps: nat) | Stranded(error: Failure)

  /** What the outcome says of the device, given the phase's writes before the cleanup's own. */
  ghost predicate Concluded(d: Device, before: seq<Write>, home: int, origin: int, run: seq<Write>, r: Outcome)
    reads d
  {
    && Script(run, home, origin) && before + run <= d.writes
    && (r.Restored? ==>
          && !d.moving && r.steps <= 4 && |d.writes| == |before| + |run| + 1
          && Abs(d.position - home + Slipped(run)) <= CLOSE && Abs(d.Reading() - (home - origin)) <= CLOSE
          && (r.done ==> AllKnown(run) && |run| >= 2 && Abs(d.position - home) <= CLOSE))
    && (r == Stranded(Irreconcilable) ==> d.writes == before + run)
  }

  /** The cleanup is reached only through an acceptable check, and refused by the check only when it is not. */
  ghost predicate Decided(d: Device, home: int, run: seq<Write>, r: Outcome)
    reads d
  {
    && (r.Restored? ==> d.writes != [] && var w := d.writes[|d.writes| - 1]; Acceptable(run, w.position - home, w.position - w.origin))
    && (r == Stranded(Irreconcilable) ==> !Acceptable(run, d.position - home, d.Distance()))
    && (!AllKnown(run) ==>
          var slip := run[|run| - 1];
          && (r.Restored? ==> Acceptable(run, slip.position - home, slip.degrees))
          && (r == Stranded(Irreconcilable) ==> !Acceptable(run, slip.position - home, slip.degrees)))
  }

  /** The probes, and the reference writes they made. */
  method ProbeRun(d: Device, initial: Status) returns (ok: bool, b: Books, ghost run: seq<Write>)
    requires d.Valid() && !d.moving && initial.reading == d.Reading() && initial.reading <= SECOND
    modifies d
    ensures d.Valid() && old(d.looks) <= d.looks && old(d.writes) + run == d.writes
    ensures Ended(run, d.position, d.origin, d.moving, old(d.position), old(d.origin), b)
    ensures Script(run, old(d.position), old(d.origin))
    ensures if AllKnown(run) then Slipped(run) == 0
            else !ok && run != [] && !d.moving && d.position == run[|run| - 1].position && d.Distance() == run[|run| - 1].degrees
    ensures ok ==> |run| >= 2
    ensures ProbeAsked(old(d.asks), d.asks, initial.limit, ok)
  {
    hide Ended, Script, Slipped, AllKnown;
    ReadingExact(d.Distance());
    ok, b := Probe(d, initial, d.position);
    run := d.writes[|old(d.writes)|..];
    EndedRun(run, d.position, d.origin, d.moving, old(d.position), old(d.origin), b);
  }

  /** The probes and, however they end, the cleanup. */
  method ProbeAndRestore(d: Device, initial: Status) returns (r: Outcome, ghost run: seq<Write>)
    requires d.Valid() && !d.moving && initial.reading == d.Reading() && ROOM <= initial.reading <= 354 * DEGREE
    modifies d
    ensures d.Valid() && old(d.looks) <= d.looks && !r.Untouched?
    ensures Concluded(d, old(d.writes), old(d.position), old(d.origin), run, r)
    ensures Decided(d, old(d.position), run, r)
    ensures PhaseAsked(old(d.asks), d.asks, initial.limit, r)
  {
    hide Ended, Script, Slipped, Wraps, Acceptable, AllKnown, ProbeAsked, CleanupAsked;
    ghost var home, origin := d.position, d.origin;
    ReadingExact(d.Distance());
    var ok, books;
    ok, books, run := ProbeRun(d, initial);
    ghost var mid := d.asks;
    var back := Restore(d, initial, books, home, run, origin);
    r := if back.Ok? then Restored(ok, back.value) else Stranded(back.error);
    Phased(old(d.asks), mid, d.asks, initial.limit, ok, r);
  }

  lemma Phased(before: seq<Ask>, mid: seq<Ask>, after: seq<Ask>, limit: int, ok: bool, r: Outcome)
    requires ProbeAsked(before, mid, limit, ok) && CleanupAsked(mid, after, limit, r.Restored?) && (r.Restored? ==> r.done == ok)
    ensures PhaseAsked(before, after, limit, r)
  {
    if !(r.Restored? && r.done) {
      var n, k :| ProbeAskedAt(before, mid, limit, ok, n, k);
      assert ProbeAskedAt(before, mid, limit, false, n, k);
    }
  }

  /**
   The boundary phase. `home` is where its first look found the device, `run` its reference writes before the
   cleanup's own. After a cleanup the device is within 0.03 degrees of home but for what slipped.
   */
  method Boundary(d: Device) returns (r: Outcome, ghost home: int, ghost run: seq<Write>)
    requires d.Valid()
    modifies d
    ensures d.Valid() && old(d.looks) < d.looks && home == d.looks[|old(d.looks)|].position
    ensures !old(d.moving) ==> home == old(d.position)
    ensures r.Untouched? ==> run == [] && d.writes == old(d.writes) && d.motions == old(d.motions)
    ensures !r.Untouched? ==> ROOM <= home - old(d.origin) <= 354 * DEGREE
    ensures Concluded(d, old(d.writes), home, old(d.origin), run, r) && Decided(d, home, run, r)
    ensures if r.Untouched? then d.asks == old(d.asks)
            else && Accepted(d.looks[|old(d.looks)|])
                 && PhaseAsked(old(d.asks), d.asks, d.looks[|old(d.looks)|].status.value.limit, r)
  {
    var initial := d.Idle();
    home, run := d.position, [];
    if initial.Err? || !(ROOM <= initial.value.reading <= Min(354 * DEGREE, initial.value.limit * DEGREE - ROOM)) {
      return Untouched, home, run;
    }
    ReadingExact(d.Distance());
    hide Concluded, Decided, PhaseAsked;
    r, run := ProbeAndRestore(d, initial.value);
  }

  /**
   When the six-degree check accepts books that missed a write. Slipped at 359 degrees: exactly when the original
   reading is at least 353. Slipped at 360 degrees: always. Slipped at zero: exactly when the write to 360 was made
   within six degrees of a whole turn from home, which is more than the two probes before it ask for.
   */
  lemma SlipAccepted(run: seq<Write>, home: int, origin: int)
    requires Script(run, home, origin) && !AllKnown(run) && ROOM <= home - origin <= 354 * DEGREE
    ensures var w := run[|run| - 1];
            Acceptable(run, w.position - home, w.degrees) <==>
              match |run|
              case 1 => home - origin >= 353 * DEGREE
              case 2 => w.degrees == SECOND
              case _ => Abs(run[1].position - home - SECOND) <= ROOM
  {
    var front, w := run[..|run| - 1], run[|run| - 1];
    assert run == front + [w];
    NothingSlipped(front);
    WriteSnoc(front, w);
    if |run| > 1 {
      assert front == run[..|run| - 2] + [run[|run| - 2]];
      WriteSnoc(run[..|run| - 2], run[|run| - 2]);
    }
  }

  /**
   The run that shows it: two probes reach 360 and 361 degrees, and the write to 360 takes effect though its call
   fails. Whatever the original reading, the books are accepted, and the device is left a degree from home.
   */
  lemma SecondWriteSlips(home: int, origin: int, rest: int)
    requires ROOM <= home - origin <= 354 * DEGREE && Abs(home) < RANGE - 2 * DEGREE
    ensures var run := [Write(home, origin, FIRST, true), Write(home + 2 * DEGREE, home - FIRST, SECOND, false)];
            var b := Books(2 * DEGREE, 361 * DEGREE);
            && Script(run, home, origin) && Acceptable(run, 2 * DEGREE, SECOND)
            && b.delta + SECOND - b.reference == 2 * DEGREE + Slipped(run) + WRAP * Wraps(run)
            && (Abs(rest - home + Slipped(run)) <= CLOSE ==> Abs(rest - home - DEGREE) <= CLOSE)
  {
    var first, second := Write(home, origin, FIRST, true), Write(home + 2 * DEGREE, home - FIRST, SECOND, false);
    WriteSnoc([], first);
    WriteSnoc([first], second);
    assert [first] + [second] == [first, second];
    assert [] + [first] == [first];
  }
}
