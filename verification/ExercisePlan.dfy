/**
 The camera exercise plan: bounded cases that each change one variable of a common baseline, derived from the
 capabilities the SDK reports. Names are structured values; their text is not modelled.
 */
module ExercisePlan {
  import opened Wrappers
  import opened Integers
  import opened SortedSets

  const MAX_FRAME: int := 134217728
  const IMAGING: seq<int> := [0, 1, 5, 6, 9, 13, 14, 18, 20]
  /** Baseline values preferred where the range allows them. */
  const PREFERRED: map<int, int> := map[6 := 40, 9 := 0, 13 := 0, 14 := 0, 18 := 0, 20 := 0]
  const SWEPT: seq<int> := [0, 5, 6]
  const SWITCHES: seq<int> := [9, 13, 14, 18, 20]
  const QUICK_TIMES: seq<int> := [1000, 990000, 1010000, 2000000]
  const EXTENDED_TIMES: seq<int> := [32, 100, 10000, 490000, 500000, 510000, 999000, 1000000, 1001000,
                                     10000000, 30000000, 60000000]
  const GAIN_BOUNDARIES: seq<int> := [99, 100, 101, 179, 180, 181, 249, 250, 251, 349, 350, 351]

  datatype Control = Control(kind: int, min: int, max: int, value: int, writable: bool)

  datatype Camera = Camera(width: int, height: int, bins: seq<int>, formats: seq<int>)

  datatype Exposure = Exposure(width: int, height: int, bin: int, x: int, y: int, microseconds: int)

  datatype Name =
    | BaselineRepeat | FullFrame | Roi64 | RoiMoved | RoiFarEdge | BaselineAfter
    | Binned(bin: int) | Exposed(microseconds: int) | Swept(control: int, value: int) | SwitchedOn(control: int)
    | Sweep(control: int)

  datatype Case = Case(name: Name, exposure: Exposure, controls: map<int, int>, frames: nat, samples: bool)

  datatype Reason = OutsideExposure | TooLarge | OutsideSensor | OutsideControls | NotWritable

  datatype Skip = Skip(name: Name, reason: Reason)

  datatype Refusal = UnsupportedCamera | NoExposureControl

  /** What a plan is drawn from. */
  datatype Setup = Setup(width: int, height: int, bins: seq<int>, caps: map<int, Control>, exposure: Control,
                         baseline: map<int, int>, default: Exposure)

  function CapsOf(controls: seq<Control>): map<int, Control> {
    if controls == [] then map[] else
    CapsOf(controls[..|controls| - 1])[controls[|controls| - 1].kind := controls[|controls| - 1]]
  }

  predicate InRange(caps: map<int, Control>, c: int, v: int) {
    c in caps && caps[c].writable && caps[c].min <= v <= caps[c].max
  }

  /** Every writable imaging control but the exposure, at its preferred value where allowed, else as it is. */
  function Baseline(caps: map<int, Control>): map<int, int> {
    map c | c in IMAGING && c != 1 && c in caps && caps[c].writable ::
      if c in PREFERRED && caps[c].min <= PREFERRED[c] <= caps[c].max then PREFERRED[c] else caps[c].value
  }

  function SetupOf(camera: Camera, controls: seq<Control>): Result<Setup, Refusal> {
    var caps := CapsOf(controls);
    if 2 !in camera.formats || camera.width < 64 || camera.height < 64 || 1 !in camera.bins then Err(UnsupportedCamera)
    else if 1 !in caps then Err(NoExposureControl)
    else
      var e := caps[1];
      Ok(Setup(camera.width, camera.height, camera.bins, caps, e, Baseline(caps),
               Exposure(Min(camera.width, 512) / 8 * 8, Min(camera.height, 256) / 2 * 2, 1, 0, 0,
                        Max(e.min, Min(100000, e.max)))))
  }

  // ---------------------------------------------------------------- one proposal

  predicate InSensor(s: Setup, e: Exposure) {
    && e.width >= 8 && e.height >= 2
    && (e.x + e.width) * e.bin <= s.width && (e.y + e.height) * e.bin <= s.height
  }

  /** Why a proposed case is not run; the first reason found. */
  function Judge(s: Setup, c: Case): Option<Reason> {
    if !(s.exposure.min <= c.exposure.microseconds <= s.exposure.max) then Some(OutsideExposure)
    else if c.exposure.width * c.exposure.height * 2 > MAX_FRAME then Some(TooLarge)
    else if !InSensor(s, c.exposure) then Some(OutsideSensor)
    else if exists k | k in c.controls :: !InRange(s.caps, k, c.controls[k]) then Some(OutsideControls)
    else None
  }

  datatype Plan = Plan(cases: seq<Case>, skipped: seq<Skip>) {
    function Then(next: Plan): Plan {
      Plan(cases + next.cases, skipped + next.skipped)
    }
  }

  /** One entry of the plan in the order it is drawn up: a case to judge, or a sweep that cannot be made. */
  datatype Item = Try(proposal: Case) | Unwritable(control: int) {
    function Name(): Name {
      match this case Try(c) => c.name case Unwritable(c) => Sweep(c)
    }
  }

  function Filed(s: Setup, item: Item): Plan {
    match item
    case Unwritable(c) => Plan([], [Skip(Sweep(c), NotWritable)])
    case Try(c) =>
      match Judge(s, c)
      case None => Plan([c], [])
      case Some(reason) => Plan([], [Skip(c.name, reason)])
  }

  function FiledAll(s: Setup, items: seq<Item>): Plan {
    if items == [] then Plan([], []) else
    FiledAll(s, items[..|items| - 1]).Then(Filed(s, items[|items| - 1]))
  }

  // ---------------------------------------------------------------- the proposals

  function Proposal(s: Setup, name: Name, exposure: Exposure, values: map<int, int>): Item {
    Try(Case(name, exposure, s.baseline + values, if name == BaselineRepeat then 2 else 1, name != FullFrame))
  }

  function RoiItems(s: Setup): seq<Item> {
    var d := s.default;
    [Proposal(s, BaselineRepeat, d, map[]),
     Proposal(s, FullFrame, d.(width := s.width / 8 * 8, height := s.height / 2 * 2), map[]),
     Proposal(s, Roi64, d.(width := 64, height := 64), map[])]
    + (if s.width >= d.width + 16 && s.height >= d.height + 2 then
         [Proposal(s, RoiMoved, d.(x := 16, y := 2), map[]),
          Proposal(s, RoiFarEdge, d.(x := (s.width - d.width) / 16 * 16, y := (s.height - d.height) / 2 * 2), map[])]
       else [])
  }

  function BinItem(s: Setup, b: int): seq<Item> {
    if 1 < b <= 16 then
      [Proposal(s, Binned(b), s.default.(bin := b, width := Min(s.default.width, s.width / b) / 8 * 8,
                                         height := Min(s.default.height, s.height / b) / 2 * 2), map[])]
    else []
  }

  function BinItems(s: Setup, bins: seq<int>): seq<Item> {
    if bins == [] then [] else BinItems(s, bins[..|bins| - 1]) + BinItem(s, bins[|bins| - 1])
  }

  function TimeItem(s: Setup, us: int): Item {
    Proposal(s, Exposed(us), s.default.(microseconds := us), map[])
  }

  function TimeItems(s: Setup, times: seq<int>): seq<Item> {
    if times == [] then [] else TimeItems(s, times[..|times| - 1]) + [TimeItem(s, times[|times| - 1])]
  }

  function Times(extended: bool): seq<int> {
    if extended then QUICK_TIMES + EXTENDED_TIMES else QUICK_TIMES
  }

  /** The values a sweep of control `c` visits, in order: all but the baseline's own. */
  function SweepValues(s: Setup, c: int, extended: bool): (values: seq<int>)
    requires c in s.caps && c in s.baseline
    ensures Increasing(values) && s.baseline[c] !in values
  {
    var low, high := s.caps[c].min, s.caps[c].max;
    var boundaries := if extended && c == 0 then Filter(GAIN_BOUNDARIES, v => low <= v <= high) else [];
    SortedSet(Filter([low, (low + high) / 2, high] + boundaries, v => v != s.baseline[c]))
  }

  function SweepItem(s: Setup, c: int, v: int): Item {
    Proposal(s, Swept(c, v), s.default, map[c := v])
  }

  function ValueItems(s: Setup, c: int, values: seq<int>): seq<Item> {
    if values == [] then [] else ValueItems(s, c, values[..|values| - 1]) + [SweepItem(s, c, values[|values| - 1])]
  }

  /** The sweep of one control, or a note that it is not writable. */
  function OneSweep(s: Setup, c: int, extended: bool): seq<Item>
    requires s.baseline.Keys <= s.caps.Keys
  {
    if c !in s.baseline then [Unwritable(c)] else ValueItems(s, c, SweepValues(s, c, extended))
  }

  function SweepItems(s: Setup, controls: seq<int>, extended: bool): seq<Item>
    requires s.baseline.Keys <= s.caps.Keys
  {
    if controls == [] then [] else
    SweepItems(s, controls[..|controls| - 1], extended) + OneSweep(s, controls[|controls| - 1], extended)
  }

  function SwitchItem(s: Setup, c: int): seq<Item>
    requires s.baseline.Keys <= s.caps.Keys
  {
    if c in s.baseline && s.caps[c].min <= 1 <= s.caps[c].max then [Proposal(s, SwitchedOn(c), s.default, map[c := 1])]
    else []
  }

  function SwitchItems(s: Setup, controls: seq<int>): seq<Item>
    requires s.baseline.Keys <= s.caps.Keys
  {
    if controls == [] then [] else
    SwitchItems(s, controls[..|controls| - 1]) + SwitchItem(s, controls[|controls| - 1])
  }

  function Items(s: Setup, extended: bool): seq<Item>
    requires s.baseline.Keys <= s.caps.Keys
  {
    RoiItems(s) + BinItems(s, SortedSet(s.bins)) + TimeItems(s, SortedSet(Times(extended)))
    + SweepItems(s, SWEPT, extended) + (if extended then SwitchItems(s, SWITCHES) else [])
    + [Proposal(s, BaselineAfter, s.default, map[])]
  }

  // ---------------------------------------------------------------- drawing up the plan

  class Planner {
    const setup: Setup
    var cases: seq<Case>
    var skipped: seq<Skip>

    ghost function View(): Plan
      reads this
    {
      Plan(cases, skipped)
    }

    constructor (setup: Setup)
      ensures this.setup == setup && View() == Plan([], [])
    {
      this.setup := setup;
      cases, skipped := [], [];
    }

    /** Judges one item after those already `done`. */
    method Add(item: Item, ghost done: seq<Item>)
      requires View() == FiledAll(setup, done)
      modifies this
      ensures View() == FiledAll(setup, done + [item])
    {
      assert cases + [] == cases && skipped + [] == skipped;
      assert (done + [item])[..|done|] == done;
      match item
      case Unwritable(c) =>
        skipped := skipped + [Skip(Sweep(c), NotWritable)];
      case Try(c) =>
        var reason := Judge(setup, c);
        if reason.Some? {
          skipped := skipped + [Skip(c.name, reason.value)];
        } else {
          cases := cases + [c];
        }
    }

    method AddRois(ghost done: seq<Item>)
      requires View() == FiledAll(setup, done)
      modifies this
      ensures View() == FiledAll(setup, done + RoiItems(setup))
    {
      hide Judge, Filed, FiledAll, Proposal, SortedSet, SweepValues;
      var d := setup.default;
      ghost var items := RoiItems(setup);
      Add(Proposal(setup, BaselineRepeat, d, map[]), done);
      Add(Proposal(setup, FullFrame, d.(width := setup.width / 8 * 8, height := setup.height / 2 * 2), map[]), done + [items[0]]);
      Add(Proposal(setup, Roi64, d.(width := 64, height := 64), map[]), done + [items[0]] + [items[1]]);
      ghost var three := done + [items[0]] + [items[1]] + [items[2]];
      if setup.width >= d.width + 16 && setup.height >= d.height + 2 {
        Add(Proposal(setup, RoiMoved, d.(x := 16, y := 2), map[]), three);
        Add(Proposal(setup, RoiFarEdge, d.(x := (setup.width - d.width) / 16 * 16, y := (setup.height - d.height) / 2 * 2),
                     map[]), three + [items[3]]);
        assert three + [items[3]] + [items[4]] == done + items;
      } else {
        assert three == done + items;
      }
    }

    method AddBins(ghost done: seq<Item>)
      requires View() == FiledAll(setup, done)
      modifies this
      ensures View() == FiledAll(setup, done + BinItems(setup, SortedSet(setup.bins)))
    {
      hide Judge, Filed, FiledAll, Proposal, SortedSet, SweepValues;
      var bins := SortedSet(setup.bins);
      assert done + [] == done;
      for i := 0 to |bins|
        invariant View() == FiledAll(setup, done + BinItems(setup, bins[..i]))
      {
        var b := bins[i];
        ghost var before := BinItems(setup, bins[..i]);
        assert bins[..i + 1][..i] == bins[..i];
        if 1 < b <= 16 {
          Add(BinItem(setup, b)[0], done + before);
          assert (done + before) + [BinItem(setup, b)[0]] == done + (before + BinItem(setup, b));
        } else {
          assert before + [] == before;
        }
      }
      assert bins[..|bins|] == bins;
    }

    method AddTimes(extended: bool, ghost done: seq<Item>)
      requires View() == FiledAll(setup, done)
      modifies this
      ensures View() == FiledAll(setup, done + TimeItems(setup, SortedSet(Times(extended))))
    {
      hide Judge, Filed, FiledAll, Proposal, SortedSet, SweepValues;
      var times := SortedSet(Times(extended));
      assert done + [] == done;
      for i := 0 to |times|
        invariant View() == FiledAll(setup, done + TimeItems(setup, times[..i]))
      {
        ghost var before := TimeItems(setup, times[..i]);
        assert times[..i + 1][..i] == times[..i];
        Add(TimeItem(setup, times[i]), done + before);
        assert (done + before) + [TimeItem(setup, times[i])] == done + (before + [TimeItem(setup, times[i])]);
      }
      assert times[..|times|] == times;
    }

    method AddValues(c: int, values: seq<int>, ghost done: seq<Item>)
      requires View() == FiledAll(setup, done)
      modifies this
      ensures View() == FiledAll(setup, done + ValueItems(setup, c, values))
    {
      hide Judge, Filed, FiledAll, Proposal, SortedSet, SweepValues;
      assert done + [] == done;
      for i := 0 to |values|
        invariant View() == FiledAll(setup, done + ValueItems(setup, c, values[..i]))
      {
        ghost var before := ValueItems(setup, c, values[..i]);
        assert values[..i + 1][..i] == values[..i];
        Add(SweepItem(setup, c, values[i]), done + before);
        assert (done + before) + [SweepItem(setup, c, values[i])] == done + (before + [SweepItem(setup, c, values[i])]);
      }
      assert values[..|values|] == values;
    }

    method AddSweeps(extended: bool, ghost done: seq<Item>)
      requires View() == FiledAll(setup, done) && setup.baseline.Keys <= setup.caps.Keys
      modifies this
      ensures View() == FiledAll(setup, done + SweepItems(setup, SWEPT, extended))
    {
      hide Judge, Filed, FiledAll, Proposal, SortedSet, SweepValues;
      assert done + [] == done;
      for i := 0 to |SWEPT|
        invariant View() == FiledAll(setup, done + SweepItems(setup, SWEPT[..i], extended))
      {
        var c := SWEPT[i];
        ghost var before := SweepItems(setup, SWEPT[..i], extended);
        assert SWEPT[..i + 1][..i] == SWEPT[..i];
        if c !in setup.baseline {
          Add(Unwritable(c), done + before);
          assert (done + before) + [Unwritable(c)] == done + (before + [Unwritable(c)]);
        } else {
          var values := SweepValues(setup, c, extended);
          AddValues(c, values, done + before);
          assert (done + before) + ValueItems(setup, c, values) == done + (before + ValueItems(setup, c, values));
        }
      }
      assert SWEPT[..|SWEPT|] == SWEPT;
    }

    method AddSwitches(ghost done: seq<Item>)
      requires View() == FiledAll(setup, done) && setup.baseline.Keys <= setup.caps.Keys
      modifies this
      ensures View() == FiledAll(setup, done + SwitchItems(setup, SWITCHES))
    {
      hide Judge, Filed, FiledAll, Proposal, SortedSet, SweepValues;
      assert done + [] == done;
      for i := 0 to |SWITCHES|
        invariant View() == FiledAll(setup, done + SwitchItems(setup, SWITCHES[..i]))
      {
        var c := SWITCHES[i];
        ghost var before := SwitchItems(setup, SWITCHES[..i]);
        assert SWITCHES[..i + 1][..i] == SWITCHES[..i];
        if c in setup.baseline && setup.caps[c].min <= 1 <= setup.caps[c].max {
          Add(SwitchItem(setup, c)[0], done + before);
          assert (done + before) + [SwitchItem(setup, c)[0]] == done + (before + SwitchItem(setup, c));
        } else {
          assert before + [] == before;
        }
      }
      assert SWITCHES[..|SWITCHES|] == SWITCHES;
    }
  }

  /** The plan, or why the camera cannot be exercised. */
  function PlanOf(camera: Camera, controls: seq<Control>, extended: bool): Result<Plan, Refusal> {
    var s :- SetupOf(camera, controls);
    Ok(FiledAll(s, Items(s, extended)))
  }

  lemma NothingFiled(s: Setup)
    ensures FiledAll(s, []) == Plan([], [])
  {
  }

  method Draw(s: Setup, extended: bool) returns (plan: Plan)
    requires s.baseline.Keys <= s.caps.Keys
    ensures plan == FiledAll(s, Items(s, extended))
  {
    NothingFiled(s);
    hide Judge, Filed, FiledAll, Proposal, SortedSet, SweepValues, RoiItems, BinItems, TimeItems, SweepItems, SwitchItems, Times;
    var p := new Planner(s);
    p.AddRois([]);
    assert [] + RoiItems(s) == RoiItems(s);
    ghost var done := RoiItems(s);
    p.AddBins(done);
    done := done + BinItems(s, SortedSet(s.bins));
    p.AddTimes(extended, done);
    done := done + TimeItems(s, SortedSet(Times(extended)));
    p.AddSweeps(extended, done);
    done := done + SweepItems(s, SWEPT, extended);
    if extended {
      p.AddSwitches(done);
      done := done + SwitchItems(s, SWITCHES);
    } else {
      assert done + [] == done;
    }
    p.Add(Proposal(s, BaselineAfter, s.default, map[]), done);
    return Plan(p.cases, p.skipped);
  }

  method MakePlan(camera: Camera, controls: seq<Control>, extended: bool) returns (r: Result<Plan, Refusal>)
    ensures r == PlanOf(camera, controls, extended)
  {
    var s :- SetupOf(camera, controls);
    var plan := Draw(s, extended);
    return Ok(plan);
  }
}
