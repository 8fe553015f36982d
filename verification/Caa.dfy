/**
 The rotator behind its HID reports, with an ideal encoder.

 Positions are integers in ten-thousandths of a degree, the unit of the reports. `position` is where the device
 physically is, `origin` the physical position that currently reads zero. A report carries the reading in 32
 unsigned bits. Writing a reference moves the origin, never the device. Reports may fail, and a failed write may
 have taken effect. The device's history - every look at it, every write that took effect, every limit and motion
 asked for - is ghost state that only the members of `Device` extend.
 */
module Caa {
  import opened Wrappers
  import opened Integers

  const DEGREE: int := 10000
  const WRAP: int := 0x1_0000_0000
  /** No position is farther than this from where the device was assembled. */
  const RANGE: int := 1000000000

  datatype Status = Status(idle: bool, reading: nat, limit: nat, error: nat)

  datatype Failure = Io | NotIdle | OutOfRange | TooFar | Opposite | Jump | Deadline | Refused | Irreconcilable

  /** One request for a report: where the device was, what it showed, and how many motions had been asked for. */
  datatype Look = Look(position: int, status: Option<Status>, motion: nat)

  predicate Accepted(l: Look) {
    l.status.Some? && l.status.value.idle && l.status.value.error == 0
  }

  /** One reference write that took effect, at `position` with the origin before it; `known` when its call succeeded. */
  datatype Write = Write(position: int, origin: int, degrees: int, known: bool)

  /** A command to the device: a travel limit in degrees, or a motion to a reading. */
  datatype Ask = Limit(degrees: int) | Target(reading: int)

  /** The looks since `before` all found the device at `position`. */
  ghost predicate Still(before: seq<Look>, after: seq<Look>, position: int, motion: nat) {
    before <= after && forall i | |before| <= i < |after| :: after[i].position == position && after[i].motion == motion
  }

  /** An unsigned reading below half its range shows the signed distance from the origin. */
  lemma ReadingExact(distance: int)
    requires Abs(distance) < WRAP / 2
    ensures distance % WRAP == distance <==> distance >= 0
    ensures distance < 0 ==> distance % WRAP == distance + WRAP
    ensures distance % WRAP < WRAP / 2 ==> distance % WRAP == distance
  {
  }

  class Device {
    var position: int
    var origin: int
    var moving: bool
    var limit: nat
    ghost var looks: seq<Look>
    ghost var writes: seq<Write>
    ghost var motions: nat
    ghost var asks: seq<Ask>

    /** The origin is where the last write put it. */
    ghost predicate Valid()
      reads this
    {
      && Abs(position) <= RANGE && Abs(origin) <= RANGE + 400 * DEGREE
      && (writes != [] ==> origin == writes[|writes| - 1].position - writes[|writes| - 1].degrees)
    }

    /** How far the device is from the position that reads zero. */
    function Distance(): int
      reads this
    {
      position - origin
    }

    function Reading(): nat
      reads this
    {
      Distance() % WRAP
    }

    constructor (position: int, origin: int, limit: nat)
      requires Abs(position) <= RANGE && Abs(origin) <= RANGE + 400 * DEGREE
      ensures Valid() && !moving && this.position == position && this.origin == origin && this.limit == limit
      ensures looks == [] && writes == [] && motions == 0 && asks == []
    {
      this.position, this.origin, this.limit, moving := position, origin, limit, false;
      looks, writes, motions, asks := [], [], 0, [];
    }

    /** A moving device may be anywhere by the next report, and may have stopped; an idle one stays where it is. */
    method ReadStatus() returns (s: Option<Status>)
      requires Valid()
      modifies this`position, this`moving, this`looks
      ensures Valid() && looks == old(looks) + [Look(position, s, motions)]
      ensures s.Some? ==> s.value.reading == Reading() && s.value.idle == !moving && s.value.limit == limit
      ensures !old(moving) ==> position == old(position) && !moving
    {
      if moving {
        var p: int, still: bool := *, *;
        if -RANGE <= p <= RANGE {
          position := p;
        }
        moving := still;
      }
      s := None;
      if * {
        var error: nat := *;
        s := Some(Status(!moving, Distance() % WRAP, limit, error));
      }
      looks := looks + [Look(position, s, motions)];
    }

    method Idle() returns (r: Result<Status, Failure>)
      requires Valid()
      modifies this`position, this`moving, this`looks
      ensures Valid()
      ensures exists l :: looks == old(looks) + [l] && l.position == position && l.motion == motions
                          && (r.Ok? <==> Accepted(l)) && (r.Ok? ==> l.status == Some(r.value))
      ensures r.Ok? ==> !moving && r.value.reading == Reading() && r.value.idle && r.value.error == 0 && r.value.limit == limit
      ensures r.Err? ==> r.error == Io || r.error == NotIdle
      ensures !old(moving) ==> position == old(position) && !moving
    {
      var s := ReadStatus();
      if s.None? {
        return Err(Io);
      }
      if !s.value.idle || s.value.error != 0 {
        return Err(NotIdle);
      }
      return Ok(s.value);
    }

    /** Relabels the present position as `degrees`; `landed` says whether the write took effect. */
    method Reference(degrees: int) returns (r: Result<Status, Failure>, ghost landed: bool)
      requires Valid()
      modifies this`position, this`moving, this`origin, this`looks, this`writes
      ensures Valid() && old(looks) <= looks
      ensures landed ==> 0 <= degrees <= 360 * DEGREE && Distance() == degrees && !moving
      ensures landed ==> writes == old(writes) + [Write(position, old(origin), degrees, r.Ok?)]
      ensures !landed ==> origin == old(origin) && writes == old(writes)
      ensures r.Ok? ==> landed && r.value.reading == degrees && r.value.idle && r.value.error == 0 && r.value.limit == limit
      ensures r == Err(OutOfRange) <==> !(0 <= degrees <= 360 * DEGREE)
      ensures r.Err? ==> r.error in {Io, NotIdle, OutOfRange}
      ensures !old(moving) ==> position == old(position) && !moving && Still(old(looks), looks, position, motions)
    {
      landed := false;
      if !(0 <= degrees <= 360 * DEGREE) {
        return Err(OutOfRange), landed;
      }
      var s := Idle();
      if s.Err? {
        return Err(s.error), landed;
      }
      if * {
        if * {
          writes := writes + [Write(position, origin, degrees, false)];
          origin := position - degrees;
          landed := true;
        }
        return Err(Io), landed;
      }
      ghost var write := Write(position, origin, degrees, true);
      origin := position - degrees;
      landed := true;
      writes := writes + [write];
      r := Idle();
      writes := old(writes) + [write.(known := r.Ok?)];
    }

    /** Writes the travel limit; the device's origin and position stay. */
    method WriteLimit(degrees: int) returns (r: Result<Status, Failure>)
      requires Valid()
      modifies this`position, this`moving, this`limit, this`looks, this`asks
      ensures asks == old(asks) + [Limit(degrees)] || (asks == old(asks) && r.Err?)
      ensures Valid() && old(looks) <= looks
      ensures r.Err? ==> r.error in {Io, NotIdle, OutOfRange}
      ensures r == Err(OutOfRange) <==> !(1 <= degrees <= 361)
      ensures !old(moving) ==> position == old(position) && !moving && Still(old(looks), looks, position, motions)
    {
      if !(1 <= degrees <= 361) {
        return Err(OutOfRange);
      }
      var s := Idle();
      if s.Err? {
        return Err(s.error);
      }
      asks := asks + [Limit(degrees)];
      if * {
        limit := degrees;
      }
      if * {
        return Err(Io);
      }
      var t := ReadStatus();
      return if t.Some? then Ok(t.value) else Err(Io);
    }

    /** Asks for motion; even a failed report may set the device moving. */
    method StartMove(target: int) returns (ok: bool)
      modifies this`moving, this`motions, this`asks
      ensures motions == old(motions) + 1 && asks == old(asks) + [Target(target)]
      ensures ok ==> moving
    {
      motions, asks := motions + 1, asks + [Target(target)];
      ok := true;
      moving := true;
      if * {
        ok := false;
        if * {
          moving := false;
        }
      }
    }

    /** Asks for a stop; the device comes to rest in its own time. */
    method Stop() returns (ok: bool) {
      var sent: bool := *;
      return sent;
    }
  }
}
