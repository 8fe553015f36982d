/**
 More than one revolution in quarter turns, unwound again, with mechanical zero rewritten before every leg.

 Physical displacement is measured from `home`, where the device stood when the run began.
 */
module CaaMultiturn {
  import opened Wrappers
  import opened Integers
  import opened Caa

  const SLACK: int := 500
  const CLOSE: int := 300
  const QUARTER: int := 90 * DEGREE
  const LEG_MS: int := 30000
  /** The farthest from home any accepted report shows, on the forward legs and on the whole run. */
  const MOST_FORWARD: int := 4 * (QUARTER + CLOSE) + QUARTER + SLACK
  const MOST: int := 5 * (QUARTER + CLOSE) + SLACK

  function Low(a: int, b: int): int {
    Min(a, b) - SLACK
  }

  function High(a: int, b: int): int {
    Max(a, b) + SLACK
  }

  predicate Between(x: int, a: int, b: int) {
    Low(a, b) <= x <= High(a, b)
  }

  /** At most 0.05 degrees against the direction of motion. */
  predicate Onward(from: int, to: int, sign: int) {
    (to - from) * sign >= -SLACK
  }

  lemma OnwardShifted(from: int, to: int, sign: int, shift: int)
    ensures Onward(shift + from, shift + to, sign) <==> Onward(from, to, sign)
  {
    assert shift + to - (shift + from) == to - from;
  }

  function Sign(start: int, target: int): int {
    if target > start then 1 else -1
  }

  /** Every look of the stretch that got a report found the device in the range. */
  ghost predicate Inside(looks: seq<Look>, from: nat, to: int, low: int, high: int) {
    forall i | from <= i < to && i < |looks| && looks[i].status.Some? :: low <= looks[i].position <= high
  }

  /** No two successive reports of the stretch show more than 0.05 degrees against the direction of motion. */
  ghost predicate Steady(looks: seq<Look>, from: nat, to: int, sign: int) {
    forall i | from <= i && i + 1 < to && i + 1 < |looks| && looks[i].status.Some? && looks[i + 1].status.Some? ::
      Onward(looks[i].position, looks[i + 1].position, sign)
  }

  /** The looks so far but the one a leg was refused on. */
  function Upto(looks: seq<Look>, refused: bool): int {
    |looks| - if refused then 1 else 0
  }

  /** The last look got a report, and found the device at `position` in the course of motion `motion`. */
  ghost predicate SeenAt(looks: seq<Look>, position: int, motion: nat) {
    looks != [] && var l := looks[|looks| - 1]; l.status.Some? && l.position == position && l.motion == motion
  }

  /** The leg's looks: before its motion was asked for the device had not moved; later ones belong to that motion. */
  ghost predicate OneMotion(looks: seq<Look>, from: nat, position: int, motion: nat) {
    forall i | from <= i < |looks| ::
      looks[i].motion == motion + 1 || (looks[i].motion == motion && looks[i].position == position)
  }

  /** A leg's looks: in the range, steady, and of its one motion. */
  ghost predicate LegLooks(looks: seq<Look>, from: nat, to: int, low: int, high: int, sign: int, position: int, motion: nat) {
    Inside(looks, from, to, low, high) && Steady(looks, from, to, sign) && OneMotion(looks, from, position, motion)
  }

  /** One more look, within the range and not too far back, or else left out. */
  lemma LegSnoc(looks: seq<Look>, from: nat, low: int, high: int, sign: int, position: int, motion: nat, l: Look)
    requires from < |looks| && LegLooks(looks, from, |looks|, low, high, sign, position, motion) && l.motion == motion + 1
    ensures LegLooks(looks + [l], from, |looks|, low, high, sign, position, motion)
    ensures (l.status.Some? ==> low <= l.position <= high && Onward(looks[|looks| - 1].position, l.position, sign)) ==>
              LegLooks(looks + [l], from, |looks| + 1, low, high, sign, position, motion)
  {
    var more := looks + [l];
    assert forall i | from <= i < |looks| :: more[i] == looks[i];
  }

  /** The look a leg begins with. */
  lemma LegFirst(looks: seq<Look>, low: int, high: int, sign: int, position: int, motion: nat, l: Look)
    requires l.position == position && l.motion == motion && low <= position <= high
    ensures LegLooks(looks + [l], |looks|, |looks| + 1, low, high, sign, position, motion)
  {
  }

  /**
   One leg to `target`. On success the reported displacement is the physical one, and the device rests within
   0.03 degrees of the target. However it ends, all its looks but the one it was refused on found the device
   between the start and the target, give or take 0.05 degrees, and never moving back by more.
   */
  method MoveLeg(d: Device, target: int) returns (r: Result<int, Failure>)
    requires d.Valid() && !d.moving
    modifies d`position, d`moving, d`looks, d`motions, d`asks
    ensures d.Valid() && old(d.looks) <= d.looks
    ensures r.Ok? ==> && !d.moving && 0 <= d.Distance() && Abs(d.Distance() - target) <= CLOSE
                      && r.value == d.position - old(d.position) && d.motions == old(d.motions) + 1
                      && |old(d.looks)| < |d.looks| && SeenAt(d.looks, d.position, d.motions)
    ensures r.Ok? ==> 0 <= old(d.Distance()) && 0 < Abs(target - old(d.Distance())) <= QUARTER + CLOSE
    ensures r.Err? && r.error == Refused ==> |old(d.looks)| < |d.looks|
    ensures 0 <= old(d.Distance()) ==>
              LegLooks(d.looks, |old(d.looks)|, Upto(d.looks, r == Err(Refused)),
                       d.origin + Max(0, Low(old(d.Distance()), target)), d.origin + High(old(d.Distance()), target),
                       Sign(old(d.Distance()), target), old(d.position), old(d.motions))
  {
    hide LegLooks, Onward, Sign;
    ghost var looks, position, motion := d.looks, d.position, d.motions;
    ghost var low, high := d.origin + Max(0, Low(d.Distance(), target)), d.origin + High(d.Distance(), target);
    ghost var way := Sign(d.Distance(), target);
    ReadingExact(d.Distance());
    var before := d.Idle();
    if 0 <= d.Distance() {
      LegFirst(looks, low, high, way, position, motion, d.looks[|d.looks| - 1]);
    }
    if before.Err? {
      return Err(before.error);
    }
    var start := before.value.reading;
    if !(0 <= target <= before.value.limit * DEGREE <= 360 * DEGREE) {
      return Err(OutOfRange);
    }
    if !(0 < Abs(target - start) <= QUARTER + CLOSE) {
      return Err(TooFar);
    }
    var ok := d.StartMove(target);
    if !ok {
      ok := d.Stop();
      return Err(Io);
    }
    r := Watch(d, start, target, looks, position, motion);
  }

  /** The leg under way: polled until it rests or is refused. */
  method Watch(d: Device, start: nat, target: int, ghost looks: seq<Look>, ghost position: int, ghost motion: nat)
    returns (r: Result<int, Failure>)
    requires d.Valid() && looks < d.looks && d.motions == motion + 1 && 0 <= target <= 360 * DEGREE && start <= 451 * DEGREE
    requires d.looks[|d.looks| - 1].position == d.origin + start
    requires LegLooks(d.looks, |looks|, |d.looks|, d.origin + Max(0, Low(start, target)), d.origin + High(start, target),
                      Sign(start, target), position, motion)
    modifies d`position, d`moving, d`looks
    ensures d.Valid() && looks < d.looks && (r == Err(Refused) ==> |looks| + 1 < |d.looks|)
    ensures r.Ok? ==> !d.moving && 0 <= d.Distance() && Abs(d.Distance() - target) <= CLOSE && r.value == d.Distance() - start
    ensures r.Ok? ==> SeenAt(d.looks, d.position, d.motions)
    ensures LegLooks(d.looks, |looks|, Upto(d.looks, r == Err(Refused)), d.origin + Max(0, Low(start, target)),
                     d.origin + High(start, target), Sign(start, target), position, motion)
  {
    hide LegLooks, Onward, Sign;
    ghost var low, high := d.origin + Max(0, Low(start, target)), d.origin + High(start, target);
    var sign := Sign(start, target);
    var elapsed, previous := 0, start;
    var ok: bool;
    while elapsed < LEG_MS
      invariant d.Valid() && looks < d.looks
      invariant d.looks[|d.looks| - 1].position == d.origin + previous
      invariant LegLooks(d.looks, |looks|, |d.looks|, low, high, sign, position, motion)
      decreases LEG_MS - elapsed
    {
      ghost var seen := d.looks;
      var current := d.ReadStatus();
      LegSnoc(seen, |looks|, low, high, sign, position, motion, d.looks[|d.looks| - 1]);
      if current.None? {
        ok := d.Stop();
        return Err(Io);
      }
      ReadingExact(d.Distance());
      var reading := current.value.reading;
      OnwardShifted(previous, reading, sign, d.origin);
      if current.value.error != 0 || !Between(reading, start, target) || !Onward(previous, reading, sign) {
        ok := d.Stop();
        return Err(Refused);
      }
      if current.value.idle {
        if Abs(reading - target) > CLOSE {
          ok := d.Stop();
          return Err(TooFar);
        }
        return Ok(reading - start);
      }
      previous := reading;
      var wait: int := *;
      elapsed := elapsed + Max(100, wait);
    }
    ok := d.Stop();
    return Err(Deadline);
  }

  /** The state of the run between and during legs: the travel totalled so far, and the open leg's starting reading. */
  datatype Travel = Travel(total: int, legStart: Option<nat>)

  /**
   Exact accounting: the physical displacement from `home` is the total plus what the open leg has added, however
   often the origin was rewritten.
   */
  ghost predicate Accounts(d: Device, home: int, t: Travel)
    reads d
  {
    d.position - home == t.total + if t.legStart.Some? then d.Distance() - t.legStart.value else 0
  }

  /** A completed forward leg travelled a quarter turn, give or take 0.03 degrees. */
  predicate QuarterTurn(delta: int) {
    Abs(delta - QUARTER) <= CLOSE
  }

  function Sum(list: seq<int>): int {
    if list == [] then 0 else Sum(list[..|list| - 1]) + list[|list| - 1]
  }

  /** The looks of the stretch belong to motions `low` to `high`, counted from when the device was assembled. */
  ghost predicate Motions(looks: seq<Look>, from: nat, low: nat, high: nat) {
    forall i | from <= i < |looks| :: low <= looks[i].motion <= high
  }

  /** A quarter turn forward from a zeroed origin. */
  method ForwardLeg(d: Device, index: nat, ghost home: int, t0: Travel) returns (r: Result<int, Failure>, t: Travel)
    requires d.Valid() && !d.moving && t0.legStart.None? && Accounts(d, home, t0)
    requires index < 5 && 0 <= t0.total <= index * (QUARTER + CLOSE)
    modifies d
    ensures d.Valid() && Accounts(d, home, t) && (t.legStart.None? ==> !d.moving)
    ensures old(d.looks) <= d.looks && (r == Err(Refused) ==> |old(d.looks)| < |d.looks|)
    ensures Inside(d.looks, |old(d.looks)|, Upto(d.looks, r == Err(Refused)), home, home + MOST_FORWARD)
    ensures Motions(d.looks, |old(d.looks)|, old(d.motions), old(d.motions) + 1)
    ensures r.Ok? ==> && !d.moving && t == Travel(t0.total + r.value, None) && QuarterTurn(r.value)
                      && d.motions == old(d.motions) + 1
                      && |old(d.looks)| < |d.looks| && SeenAt(d.looks, d.position, d.motions)
  {
    t := t0;
    var zero, landed := d.Reference(0);
    if zero.Err? {
      return Err(zero.error), t;
    }
    t := t.(legStart := Some(0));
    ghost var looks := d.looks;
    r := MoveLeg(d, QUARTER);
    InsideJoined(looks, d.looks, |old(d.looks)|, Upto(d.looks, r == Err(Refused)), home, home + MOST_FORWARD);
    MotionsJoined(looks, d.looks, |old(d.looks)|, old(d.motions), old(d.motions) + 1);
    if r.Ok? {
      t := Travel(t.total + r.value, None);
    }
  }

  /** Five quarter turns forward, zeroing the origin before each. */
  method Forward(d: Device, ghost home: int) returns (r: Result<seq<int>, Failure>, t: Travel)
    requires d.Valid() && !d.moving && d.position == home
    modifies d
    ensures d.Valid() && Accounts(d, home, t) && (t.legStart.None? ==> !d.moving)
    ensures old(d.looks) <= d.looks && (r == Err(Refused) ==> |old(d.looks)| < |d.looks|)
    ensures Inside(d.looks, |old(d.looks)|, Upto(d.looks, r == Err(Refused)), home, home + MOST_FORWARD)
    ensures Motions(d.looks, |old(d.looks)|, old(d.motions), old(d.motions) + 5)
    ensures r.Ok? ==> && !d.moving && t.legStart.None? && |r.value| == 5 && t.total == Sum(r.value) >= 5 * (QUARTER - CLOSE)
                      && d.motions == old(d.motions) + 5 && forall i | 0 <= i < 5 :: QuarterTurn(r.value[i])
    ensures r.Ok? ==> |old(d.looks)| < |d.looks| && SeenAt(d.looks, d.position, d.motions)
  {
    hide Inside, Motions, Accounts, SeenAt;
    ghost var n, motion := |d.looks|, d.motions;
    var displacements: seq<int> := [];
    t := Travel(0, None);
    NowAccounted(d, home);
    NoLooksYet(d.looks, home, d.position, motion);
    for index := 0 to 5
      invariant d.Valid() && !d.moving && t.legStart.None? && Accounts(d, home, t)
      invariant |displacements| == index && t.total == Sum(displacements)
      invariant forall i | 0 <= i < index :: QuarterTurn(displacements[i])
      invariant old(d.looks) <= d.looks && d.motions == motion + index
      invariant index > 0 ==> n < |d.looks| && SeenAt(d.looks, d.position, d.motions)
      invariant Inside(d.looks, n, |d.looks|, home, home + MOST_FORWARD)
      invariant Motions(d.looks, n, motion, motion + 5)
    {
      SumOfQuarters(displacements);
      ghost var looks := d.looks;
      var delta;
      delta, t := ForwardLeg(d, index, home, t);
      InsideJoined(looks, d.looks, n, Upto(d.looks, delta == Err(Refused)), home, home + MOST_FORWARD);
      MotionsWithin(d.looks, |looks|, motion + index, motion + index + 1, motion, motion + 5);
      MotionsJoined(looks, d.looks, n, motion, motion + 5);
      if delta.Err? {
        return Err(delta.error), t;
      }
      assert (displacements + [delta.value])[..index] == displacements;
      displacements := displacements + [delta.value];
    }
    SumOfQuarters(displacements);
    return Ok(displacements), t;
  }

  lemma MotionsJoined(before: seq<Look>, looks: seq<Look>, from: nat, low: nat, high: nat)
    requires from <= |before| && before <= looks && Motions(before, from, low, high) && Motions(looks, |before|, low, high)
    ensures Motions(looks, from, low, high)
  {
    assert forall i | from <= i < |before| :: looks[i] == before[i];
  }

  lemma MotionsWithin(looks: seq<Look>, from: nat, low: nat, high: nat, low0: nat, high0: nat)
    requires Motions(looks, from, low, high) && low0 <= low && high <= high0
    ensures Motions(looks, from, low0, high0)
  {
  }

  /** Looks before and looks since, in the same range. */
  lemma InsideJoined(before: seq<Look>, looks: seq<Look>, from: nat, to: int, low: int, high: int)
    requires from <= |before| && before <= looks
    requires Inside(before, from, |before|, low, high) && Inside(looks, |before|, to, low, high)
    ensures Inside(looks, from, to, low, high)
  {
    assert forall i | from <= i < |before| :: looks[i] == before[i];
  }

  /** All looks since the `from`-th come from later motions, or found the device at `position`. */
  ghost predicate Later(looks: seq<Look>, from: nat, position: int, motion: nat) {
    forall i | from <= i < |looks| :: looks[i].motion > motion || (looks[i].motion == motion && looks[i].position == position)
  }

  lemma LaterJoined(before: seq<Look>, looks: seq<Look>, from: nat, position: int, motion: nat)
    requires from <= |before| && before <= looks
    requires Later(before, from, position, motion) && Later(looks, |before|, position, motion)
    ensures Later(looks, from, position, motion)
  {
    assert forall i | from <= i < |before| :: looks[i] == before[i];
  }

  /** A measured leg undone, from its own label down to zero. */
  method UnwindLeg(d: Device, delta: int, ghost home: int, t0: Travel) returns (r: Result<(), Failure>, t: Travel)
    requires d.Valid() && !d.moving && t0.legStart.None? && Accounts(d, home, t0)
    requires QuarterTurn(delta) && delta <= t0.total <= 5 * (QUARTER + CLOSE)
    modifies d
    ensures d.Valid() && Accounts(d, home, t) && (t.legStart.None? ==> !d.moving)
    ensures old(d.looks) <= d.looks && (r == Err(Refused) ==> |old(d.looks)| < |d.looks|)
    ensures Inside(d.looks, |old(d.looks)|, Upto(d.looks, r == Err(Refused)), home, home + MOST)
    ensures Later(d.looks, |old(d.looks)|, old(d.position), old(d.motions))
    ensures r.Ok? ==> && !d.moving && t.legStart.None? && t0.total - delta <= t.total <= t0.total - delta + CLOSE
                      && d.motions == old(d.motions) + 1
  {
    t := t0;
    var reference, landed := d.Reference(delta);
    if reference.Err? {
      return Err(reference.error), t;
    }
    t := t.(legStart := Some(reference.value.reading));
    ghost var looks := d.looks;
    var actual := MoveLeg(d, 0);
    InsideJoined(looks, d.looks, |old(d.looks)|, Upto(d.looks, actual == Err(Refused)), home, home + MOST);
    LaterJoined(looks, d.looks, |old(d.looks)|, old(d.position), old(d.motions));
    if actual.Err? {
      return Err(actual.error), t;
    }
    return Ok(()), Travel(t.total + actual.value, None);
  }

  /** The measured legs undone, last first. */
  method Unwind(d: Device, ghost home: int, displacements: seq<int>, t0: Travel) returns (r: Result<(), Failure>, t: Travel)
    requires d.Valid() && !d.moving && t0.legStart.None? && Accounts(d, home, t0)
    requires |displacements| == 5 && t0.total == Sum(displacements) && forall i | 0 <= i < 5 :: QuarterTurn(displacements[i])
    modifies d
    ensures d.Valid() && Accounts(d, home, t) && (t.legStart.None? ==> !d.moving)
    ensures old(d.looks) <= d.looks && (r == Err(Refused) ==> |old(d.looks)| < |d.looks|)
    ensures Inside(d.looks, |old(d.looks)|, Upto(d.looks, r == Err(Refused)), home, home + MOST)
    ensures Later(d.looks, |old(d.looks)|, old(d.position), old(d.motions))
    ensures r.Ok? ==> !d.moving && t.legStart.None? && 0 <= t.total <= 5 * CLOSE
  {
    hide Inside, Later, Accounts;
    ghost var n := |d.looks|;
    t := t0;
    NoLooksYet(d.looks, home, d.position, d.motions);
    assert displacements[..5] == displacements;
    for index := 0 to 5
      invariant d.Valid() && !d.moving && t.legStart.None? && Accounts(d, home, t)
      invariant 0 <= t.total - Sum(displacements[..5 - index]) <= index * CLOSE
      invariant old(d.looks) <= d.looks && d.motions == old(d.motions) + index
      invariant index == 0 ==> d.position == old(d.position)
      invariant Inside(d.looks, n, |d.looks|, home, home + MOST)
      invariant Later(d.looks, n, old(d.position), old(d.motions))
    {
      var delta := displacements[4 - index];
      assert displacements[..5 - index][..4 - index] == displacements[..4 - index];
      SumOfQuarters(displacements[..4 - index]);
      SumOfQuarters(displacements[..5 - index]);
      ghost var looks, position, motion := d.looks, d.position, d.motions;
      r, t := UnwindLeg(d, delta, home, t);
      InsideJoined(looks, d.looks, n, Upto(d.looks, r == Err(Refused)), home, home + MOST);
      LaterSince(d.looks, |looks|, position, motion, old(d.position), old(d.motions));
      LaterJoined(looks, d.looks, n, old(d.position), old(d.motions));
      if r.Err? {
        return;
      }
    }
    return Ok(()), t;
  }

  lemma NoLooksYet(looks: seq<Look>, home: int, position: int, motion: nat)
    ensures Inside(looks, |looks|, |looks|, home, home + MOST) && Later(looks, |looks|, position, motion)
    ensures Inside(looks, |looks|, |looks|, home, home + MOST_FORWARD) && Motions(looks, |looks|, motion, motion + 5)
  {
  }

  lemma LaterSince(looks: seq<Look>, from: nat, position: int, motion: nat, position0: int, motion0: nat)
    requires Later(looks, from, position, motion) && motion0 <= motion && (motion0 == motion ==> position == position0)
    ensures Later(looks, from, position0, motion0)
  {
  }

  lemma {:induction false} SumOfQuarters(list: seq<int>)
    requires forall i | 0 <= i < |list| :: QuarterTurn(list[i])
    ensures |list| * (QUARTER - CLOSE) <= Sum(list) <= |list| * (QUARTER + CLOSE)
  {
    if list != [] {
      SumOfQuarters(list[..|list| - 1]);
    }
  }

  /** What the run reports: completion, or an abort with the net travel, or with the finished legs' when unreadable. */
  datatype Report =
    | Complete(forward: int, residual: int, final: Status)
    | Aborted(error: Failure, net: int)
    | Unread(error: Failure, legs: int)
    | Unrecorded(error: Failure)

  /** How many of a run's last looks are past the point where it was given up. */
  function After(r: Report): nat {
    match r
    case Complete(_, _, _) => 0
    case Unrecorded(e) => if e == Refused then 1 else 0
    case _ => if r.error == Refused then 2 else 1
  }

  /** The bound on a run's reports: 450.17 degrees during the five forward motions, 450.2 after them. */
  ghost predicate Bounded(looks: seq<Look>, from: nat, to: int, home: int, motion: nat) {
    forall i | from <= i < to && i < |looks| && looks[i].status.Some? ::
      0 <= looks[i].position - home <= (if looks[i].motion <= motion + 5 then 4501700 else 4502000)
  }

  lemma ForwardBounded(first: seq<Look>, looks: seq<Look>, from: nat, to: int, home: int, motion: nat)
    requires |first| == from + 1 && first <= looks && first[from].position == home
    requires Inside(looks, from + 1, to, home, home + MOST_FORWARD)
    ensures Bounded(looks, from, to, home, motion)
  {
    assert looks[from] == first[from];
  }

  lemma BoundedSame(before: seq<Look>, looks: seq<Look>, from: nat, to: int, home: int, motion: nat)
    requires before <= looks && to <= |before| && Bounded(before, from, to, home, motion)
    ensures Bounded(looks, from, to, home, motion)
  {
    assert forall i | 0 <= i < |before| :: looks[i] == before[i];
  }

  lemma RestBounded(before: seq<Look>, looks: seq<Look>, from: nat, home: int, position: int, motion: nat, now: nat)
    requires from <= |before| && Bounded(before, from, |before|, home, motion)
    requires Still(before, looks, position, now) && home <= position <= home + 1000
    ensures Bounded(looks, from, |looks|, home, motion)
  {
    assert forall i | 0 <= i < |before| :: looks[i] == before[i];
  }

  lemma BackBounded(before: seq<Look>, looks: seq<Look>, from: nat, to: int, home: int, position: int, motion: nat)
    requires from <= |before| && before <= looks && Bounded(before, from, |before|, home, motion)
    requires Later(looks, |before|, position, motion + 5) && home <= position <= home + MOST_FORWARD
    requires Inside(looks, |before|, to, home, home + MOST)
    ensures Bounded(looks, from, to, home, motion)
  {
    assert forall i | from <= i < |before| :: looks[i] == before[i];
  }

  /** Some report of the stretch, of motion `motion`, shows the device exactly `forward` past home. */
  ghost predicate Reached(looks: seq<Look>, from: nat, home: int, motion: nat, forward: int) {
    exists i :: from <= i < |looks| && ShowsAt(looks[i], home + forward, motion)
  }

  predicate ShowsAt(l: Look, position: int, motion: nat) {
    l.status.Some? && l.position == position && l.motion == motion
  }

  lemma ReachedLater(first: seq<Look>, looks: seq<Look>, from: nat, home: int, position: int, motion: nat)
    requires from < |first| && first <= looks && SeenAt(first, position, motion)
    ensures Reached(looks, from, home, motion, position - home)
  {
    assert looks[|first| - 1] == first[|first| - 1];
    assert ShowsAt(looks[|first| - 1], home + (position - home), motion);
  }

  lemma ReachedStays(first: seq<Look>, looks: seq<Look>, from: nat, home: int, motion: nat, forward: int)
    requires first <= looks && Reached(first, from, home, motion, forward)
    ensures Reached(looks, from, home, motion, forward)
  {
    var i :| from <= i < |first| && ShowsAt(first[i], home + forward, motion);
    assert looks[i] == first[i];
  }

  lemma FirstBounded(first: seq<Look>, n: nat, home: int, motion: nat)
    requires |first| == n + 1 && first[n].position == home
    ensures Bounded(first, n, n + 1, home, motion)
  {
  }

  lemma NowAccounted(d: Device, home: int)
    requires d.position == home
    ensures Accounts(d, home, Travel(0, None))
  {
  }

  /** Between legs the displacement is the total. */
  lemma Home(d: Device, home: int, t: Travel)
    requires t.legStart.None?
    ensures Accounts(d, home, t) <==> d.position - home == t.total
  {
  }

  lemma FarBounded(d: Device, home: int, t: Travel, displacements: seq<int>)
    requires t.legStart.None? && Accounts(d, home, t) && |displacements| == 5 && t.total == Sum(displacements)
    requires forall i | 0 <= i < 5 :: QuarterTurn(displacements[i])
    ensures home <= d.position <= home + MOST_FORWARD
  {
    SumOfQuarters(displacements);
  }

  /**
   The travel there and back, up to the first failure. `home` is where the first look found the device. Until a
   leg is refused every report shows the device at or past home, by at most 450.17 degrees during the forward legs
   and 450.2 degrees on the way back.
   */
  method Travelled(d: Device) returns (r: Result<(Status, int), Failure>, ghost home: int, t: Travel)
    requires d.Valid()
    modifies d
    ensures d.Valid() && old(d.looks) < d.looks && (r == Err(Refused) ==> |old(d.looks)| + 1 < |d.looks|)
    ensures home == d.looks[|old(d.looks)|].position
    ensures !old(d.moving) ==> home == old(d.position)
    ensures Bounded(d.looks, |old(d.looks)|, Upto(d.looks, r == Err(Refused)), home, old(d.motions))
    ensures r.Ok? ==> && !d.moving && t.legStart.None? && 0 <= t.total <= 1000 && r.value.1 >= 4498500
                      && Reached(d.looks, |old(d.looks)|, home, old(d.motions) + 5, r.value.1)
                      && d.looks[|old(d.looks)|].status == Some(r.value.0)
    ensures if Accepted(d.looks[|old(d.looks)|]) then Accounts(d, home, t) && (t.legStart.None? ==> !d.moving)
            else r.Err? && t == Travel(0, None)
  {
    hide Bounded, Inside, Motions, Later, Accounts, Sum, SeenAt, Reached;
    ghost var n, motion := |d.looks|, d.motions;
    var initial := d.Idle();
    ghost var first := d.looks;
    home, t := d.position, Travel(0, None);
    NowAccounted(d, home);
    FirstBounded(first, n, home, motion);
    if initial.Err? {
      return Err(initial.error), home, t;
    }
    if initial.value.limit < 90 {
      return Err(OutOfRange), home, t;
    }
    var forward: Result<seq<int>, Failure>;
    forward, t := Forward(d, home);
    ghost var there, far := d.looks, d.position;
    ForwardBounded(first, there, n, Upto(there, forward == Err(Refused)), home, motion);
    if forward.Err? {
      return Err(forward.error), home, t;
    }
    // the script's own check that the device went past 449.8 degrees cannot fail here
    assert t.total > 4498000;
    FarBounded(d, home, t, forward.value);
    Home(d, home, t);
    var back;
    back, t := Unwind(d, home, forward.value, t);
    BackBounded(there, d.looks, n, Upto(d.looks, back == Err(Refused)), home, far, motion);
    if back.Err? {
      return Err(back.error), home, t;
    }
    if Abs(t.total) > 1000 {
      return Err(Irreconcilable), home, t;
    }
    ReachedLater(there, d.looks, n, home, far, motion + 5);
    r := Ok((initial.value, Sum(forward.value)));
  }

  /**
   The whole experiment. It completes only after a report of its fifth motion that shows the device as far from home
   as it reports, at least 449.85 degrees, and only with the device back within 0.1 degrees of home, on the positive
   side, and its reading and limit as they were.

   An abort reports the physical displacement exactly when the device is not below the origin of an open leg;
   below it the unsigned reading has wrapped, and the report is too high by one wrap. When the first look itself
   is not accepted, zero is reported.
   */
  method MultiTurn(d: Device) returns (r: Report, ghost home: int, t: Travel)
    requires d.Valid()
    modifies d
    ensures d.Valid() && old(d.looks) < d.looks && |old(d.looks)| + After(r) < |d.looks|
    ensures home == d.looks[|old(d.looks)|].position
    ensures !old(d.moving) ==> home == old(d.position)
    ensures Bounded(d.looks, |old(d.looks)|, |d.looks| - After(r), home, old(d.motions))
    ensures r.Complete? ==> && !d.moving && 0 <= d.position - home <= 1000 && r.residual == d.position - home
                            && r.final.reading == d.Reading()
    ensures r.Complete? ==> r.forward >= 4498500 && Reached(d.looks, |old(d.looks)|, home, old(d.motions) + 5, r.forward)
    ensures r.Complete? ==> Accepted(d.looks[|old(d.looks)|]) && d.Reading() == d.looks[|old(d.looks)|].status.value.reading
                            && r.final.limit == d.looks[|old(d.looks)|].status.value.limit
    ensures if Accepted(d.looks[|old(d.looks)|]) then Accounts(d, home, t) && (r.Aborted? ==> r.net == Net(d, home, t))
            else t == Travel(0, None) && !r.Complete? && (r.Aborted? ==> r.net == 0)
    ensures r.Unread? ==> r.legs == t.total
    ensures !r.Complete? && !r.Unrecorded? ==> (r.Aborted? <==> d.looks[|d.looks| - 1].status.Some?)
  {
    hide Bounded, Accounts, Reached;
    ghost var n, motion := |d.looks|, d.motions;
    var done;
    done, home, t := Travelled(d);
    ghost var before := d.looks;
    if done.Err? {
      r := Abort(d, done.error, home, t);
      BoundedSame(before, d.looks, n, Upto(before, done == Err(Refused)), home, motion);
      return;
    }
    Home(d, home, t);
    var initial, forward := done.value.0, done.value.1;
    var restored, landed := d.Reference(initial.reading);
    ghost var last := d.looks;
    RestBounded(before, last, n, home, d.position, motion, d.motions);
    Home(d, home, t);
    if restored.Err? || restored.value.limit != initial.limit {
      r := Abort(d, if restored.Err? then restored.error else Irreconcilable, home, t);
      BoundedSame(last, d.looks, n, |last|, home, motion);
      return;
    }
    ReachedStays(before, last, n, home, motion + 5, forward);
    r := Complete(forward, t.total, restored.value);
  }

  /** The travel as an unsigned reading shows it: one wrap too high below the origin of an open leg. */
  ghost function Net(d: Device, home: int, t: Travel): int
    reads d
  {
    d.position - home + if t.legStart.Some? && d.Distance() < 0 then WRAP else 0
  }

  /** Stop, read once more, and report the travel including the open leg. Unless the stop fails. */
  method Abort(d: Device, error: Failure, ghost home: int, t: Travel) returns (r: Report)
    requires d.Valid()
    modifies d`position, d`moving, d`looks
    ensures d.Valid() && (r.Aborted? || r.Unread? || r.Unrecorded?) && r.error == error
    ensures old(d.looks) <= d.looks && |d.looks| == |old(d.looks)| + (if r.Unrecorded? then 0 else 1)
    ensures t.legStart.None? && r.Aborted? ==> r.net == t.total
    ensures old(Accounts(d, home, t)) && (t.legStart.None? ==> !old(d.moving)) ==>
              Accounts(d, home, t) && (r.Aborted? ==> r.net == Net(d, home, t))
    ensures r.Unread? ==> r.legs == t.total
    ensures !r.Unrecorded? ==> (r.Aborted? <==> d.looks[|d.looks| - 1].status.Some?)
  {
    var sent := d.Stop();
    if !sent {
      return Unrecorded(error);
    }
    var status := d.ReadStatus();
    ReadingExact(d.Distance());
    if status.None? {
      return Unread(error, t.total);
    }
    match t.legStart
    case None => return Aborted(error, t.total);
    case Some(start) => return Aborted(error, t.total + status.value.reading - start);
  }
}
