/** What every exercise plan guarantees, for all cameras, control lists and profiles. */
module PlanProperties {
  import opened Wrappers
  import opened Integers
  import opened SortedSets
  import opened ExercisePlan

  /** `s` was set up from some accepted camera. */
  ghost predicate Derived(s: Setup) {
    && s.width >= 64 && s.height >= 64
    && 1 in s.caps && s.exposure == s.caps[1]
    && s.baseline == Baseline(s.caps)
    && s.default == Exposure(Min(s.width, 512) / 8 * 8, Min(s.height, 256) / 2 * 2, 1, 0, 0,
                             Max(s.exposure.min, Min(100000, s.exposure.max)))
  }

  lemma SetupDerived(camera: Camera, controls: seq<Control>)
    ensures SetupOf(camera, controls).Ok? ==> Derived(SetupOf(camera, controls).value)
  {
  }

  // ---------------------------------------------------------------- the shape of the proposals

  ghost predicate RoiForm(s: Setup, name: Name, e: Exposure) {
    var d := s.default;
    match name
    case BaselineRepeat => e == d
    case BaselineAfter => e == d
    case FullFrame => e == d.(width := s.width / 8 * 8, height := s.height / 2 * 2)
    case Roi64 => e == d.(width := 64, height := 64)
    case RoiMoved => s.width >= d.width + 16 && s.height >= d.height + 2 && e == d.(x := 16, y := 2)
    case RoiFarEdge => && s.width >= d.width + 16 && s.height >= d.height + 2
                       && e == d.(x := (s.width - d.width) / 16 * 16, y := (s.height - d.height) / 2 * 2)
    case _ => false
  }

  ghost predicate BinForm(s: Setup, name: Name, e: Exposure) {
    && name.Binned? && 1 < name.bin <= 16 && name.bin in s.bins
    && e == s.default.(bin := name.bin, width := Min(s.default.width, s.width / name.bin) / 8 * 8,
                       height := Min(s.default.height, s.height / name.bin) / 2 * 2)
  }

  /** The case changes only the exposure geometry or time, and keeps every baseline control. */
  ghost predicate ExposureForm(s: Setup, c: Case) {
    && c.controls == s.baseline
    && (RoiForm(s, c.name, c.exposure) || BinForm(s, c.name, c.exposure)
        || (c.name.Exposed? && c.exposure == s.default.(microseconds := c.name.microseconds)))
  }

  /** The case changes only one baseline control. */
  ghost predicate ControlForm(s: Setup, c: Case) {
    && c.exposure == s.default
    && match c.name
       case Swept(k, v) => k in s.baseline && v != s.baseline[k] && c.controls == s.baseline[k := v]
       case SwitchedOn(k) => k in s.baseline && c.controls == s.baseline[k := 1]
       case _ => false
  }

  ghost predicate Formed(s: Setup, item: Item) {
    match item
    case Unwritable(c) => c in SWEPT && c !in s.baseline
    case Try(c) => (ExposureForm(s, c) || ControlForm(s, c)) && Framed(c)
  }

  /** Two frames of the repeated baseline and one of any other case; only the full frame is never kept as a sample. */
  predicate Framed(c: Case) {
    c.frames == (if c.name.BaselineRepeat? then 2 else 1) && c.samples == !c.name.FullFrame?
  }

  ghost predicate AllFormed(s: Setup, items: seq<Item>) {
    forall i | 0 <= i < |items| :: Formed(s, items[i])
  }

  lemma NoValues(s: Setup)
    ensures s.baseline + map[] == s.baseline
  {
  }

  lemma RoisFormed(s: Setup)
    ensures AllFormed(s, RoiItems(s))
  {
  }

  lemma {:induction false} BinsFormed(s: Setup, bins: seq<int>)
    requires forall b | b in bins :: b in s.bins
    ensures AllFormed(s, BinItems(s, bins))
  {
    if bins != [] {
      BinsFormed(s, bins[..|bins| - 1]);
      NoValues(s);
      assert bins[|bins| - 1] in bins;
      assert AllFormed(s, BinItem(s, bins[|bins| - 1]));
    }
  }

  lemma {:induction false} TimesFormed(s: Setup, times: seq<int>)
    ensures AllFormed(s, TimeItems(s, times))
  {
    if times != [] {
      TimesFormed(s, times[..|times| - 1]);
      NoValues(s);
    }
  }

  lemma {:induction false} ValuesFormed(s: Setup, c: int, values: seq<int>)
    requires c in s.baseline && s.baseline[c] !in values
    ensures AllFormed(s, ValueItems(s, c, values))
  {
    if values != [] {
      var v := values[|values| - 1];
      ValuesFormed(s, c, values[..|values| - 1]);
      assert v in values;
      assert s.baseline + map[c := v] == s.baseline[c := v];
    }
  }

  lemma {:induction false} SweepsFormed(s: Setup, controls: seq<int>, extended: bool)
    requires s.baseline.Keys <= s.caps.Keys && forall c | c in controls :: c in SWEPT
    ensures AllFormed(s, SweepItems(s, controls, extended))
  {
    if controls != [] {
      var c := controls[|controls| - 1];
      SweepsFormed(s, controls[..|controls| - 1], extended);
      assert c in controls;
      if c in s.baseline {
        ValuesFormed(s, c, SweepValues(s, c, extended));
      }
      assert AllFormed(s, OneSweep(s, c, extended));
    }
  }

  lemma {:induction false} SwitchesFormed(s: Setup, controls: seq<int>)
    requires s.baseline.Keys <= s.caps.Keys
    ensures AllFormed(s, SwitchItems(s, controls))
  {
    if controls != [] {
      var c := controls[|controls| - 1];
      SwitchesFormed(s, controls[..|controls| - 1]);
      if c in s.baseline {
        assert s.baseline + map[c := 1] == s.baseline[c := 1];
      }
      assert AllFormed(s, SwitchItem(s, c));
    }
  }

  lemma FormedConcat(s: Setup, a: seq<Item>, b: seq<Item>)
    requires AllFormed(s, a) && AllFormed(s, b)
    ensures AllFormed(s, a + b)
  {
  }

  lemma LastFormed(s: Setup)
    ensures AllFormed(s, [Proposal(s, BaselineAfter, s.default, map[])])
  {
  }

  lemma ItemsFormed(s: Setup, extended: bool)
    requires s.baseline.Keys <= s.caps.Keys
    ensures AllFormed(s, Items(s, extended))
  {
    hide AllFormed, RoiItems, BinItems, TimeItems, SweepItems, SwitchItems, SortedSet, Times, Proposal;
    RoisFormed(s);
    var items := RoiItems(s);
    BinsFormed(s, SortedSet(s.bins));
    FormedConcat(s, items, BinItems(s, SortedSet(s.bins)));
    items := items + BinItems(s, SortedSet(s.bins));
    TimesFormed(s, SortedSet(Times(extended)));
    FormedConcat(s, items, TimeItems(s, SortedSet(Times(extended))));
    items := items + TimeItems(s, SortedSet(Times(extended)));
    SweepsFormed(s, SWEPT, extended);
    FormedConcat(s, items, SweepItems(s, SWEPT, extended));
    items := items + SweepItems(s, SWEPT, extended);
    if extended {
      SwitchesFormed(s, SWITCHES);
      FormedConcat(s, items, SwitchItems(s, SWITCHES));
      items := items + SwitchItems(s, SWITCHES);
    } else {
      assert items + [] == items;
    }
    LastFormed(s);
    FormedConcat(s, items, [Proposal(s, BaselineAfter, s.default, map[])]);
  }

  // ---------------------------------------------------------------- filing

  /** A case is planned exactly when it was proposed and nothing speaks against it; else it is skipped with the reason. */
  lemma {:induction false} FiledExactly(s: Setup, items: seq<Item>)
    ensures forall c :: c in FiledAll(s, items).cases <==> Try(c) in items && Judge(s, c).None?
    ensures forall k :: k in FiledAll(s, items).skipped <==>
                        exists item :: item in items && Filed(s, item).skipped == [k]
  {
    if items != [] {
      var front, last := items[..|items| - 1], items[|items| - 1];
      assert items == front + [last];
      FiledExactly(s, front);
      forall k
        ensures k in FiledAll(s, items).skipped <==> exists item :: item in items && Filed(s, item).skipped == [k]
      {
        if k in Filed(s, last).skipped {
          assert last in items && Filed(s, last).skipped == [k];
        }
        if k in FiledAll(s, front).skipped {
          var item :| item in front && Filed(s, item).skipped == [k];
          assert item in items;
        }
      }
    }
  }

  /** The camera is accepted and `c` is one of the cases to run. */
  ghost predicate Planned(camera: Camera, controls: seq<Control>, extended: bool, c: Case) {
    PlanOf(camera, controls, extended).Ok? && c in PlanOf(camera, controls, extended).value.cases
  }

  /** Every planned case is one of the proposals, in one of their forms, and was not refused. */
  lemma PlannedCase(camera: Camera, controls: seq<Control>, extended: bool, c: Case)
    ensures Planned(camera, controls, extended, c) ==>
              var s := SetupOf(camera, controls).value;
              Derived(s) && (ExposureForm(s, c) || ControlForm(s, c)) && Judge(s, c).None?
  {
    if Planned(camera, controls, extended, c) {
      var s := SetupOf(camera, controls).value;
      SetupDerived(camera, controls);
      ItemsFormed(s, extended);
      FiledExactly(s, Items(s, extended));
      assert Formed(s, Try(c));
    }
  }

  // ---------------------------------------------------------------- safety

  /** Inside the sensor and every advertised range, aligned, and at most 128 MiB. */
  ghost predicate Safe(s: Setup, c: Case)
    requires 1 in s.caps
  {
    var e := c.exposure;
    && Aligned(e) && e.width >= 8 && e.height >= 2 && e.bin >= 1 && (e.bin == 1 || e.bin in s.bins)
    && (e.x + e.width) * e.bin <= s.width && (e.y + e.height) * e.bin <= s.height
    && e.width * e.height * 2 <= MAX_FRAME
    && s.caps[1].min <= e.microseconds <= s.caps[1].max
    && forall k | k in c.controls :: k in IMAGING && k != 1 && InRange(s.caps, k, c.controls[k])
  }

  /** A geometry that is aligned and lies at nonnegative coordinates. */
  ghost predicate Aligned(e: Exposure) {
    e.x >= 0 && e.y >= 0 && e.width % 8 == 0 && e.height % 2 == 0
  }

  lemma DefaultAligned(s: Setup)
    requires Derived(s)
    ensures Aligned(s.default) && s.default.bin == 1
  {
  }

  lemma RoiAligned(s: Setup, name: Name, e: Exposure)
    requires Derived(s) && RoiForm(s, name, e)
    ensures Aligned(e) && e.bin == 1
  {
  }

  lemma BinAligned(s: Setup, name: Name, e: Exposure)
    requires Derived(s) && BinForm(s, name, e)
    ensures Aligned(e) && 1 < e.bin && e.bin in s.bins
  {
  }

  lemma FormAligned(s: Setup, c: Case)
    requires Derived(s) && (ExposureForm(s, c) || ControlForm(s, c))
    ensures Aligned(c.exposure) && (c.exposure.bin == 1 || (1 < c.exposure.bin && c.exposure.bin in s.bins))
  {
    hide RoiForm, BinForm, Derived;
    DefaultAligned(s);
    if RoiForm(s, c.name, c.exposure) {
      RoiAligned(s, c.name, c.exposure);
    } else if BinForm(s, c.name, c.exposure) {
      BinAligned(s, c.name, c.exposure);
    }
  }

  lemma FormControls(s: Setup, c: Case)
    requires ExposureForm(s, c) || ControlForm(s, c)
    ensures c.controls.Keys == s.baseline.Keys
    ensures forall j, k | j in s.baseline && k in s.baseline
                          && c.controls[j] != s.baseline[j] && c.controls[k] != s.baseline[k] :: j == k
    ensures c.controls != s.baseline ==> c.exposure == s.default
  {
  }

  lemma FormSafe(s: Setup, c: Case)
    requires Derived(s) && (ExposureForm(s, c) || ControlForm(s, c)) && Judge(s, c).None?
    ensures Safe(s, c)
  {
    FormAligned(s, c);
    FormControls(s, c);
    hide ExposureForm, ControlForm, Aligned;
    forall k | k in c.controls
      ensures k in IMAGING && k != 1
    {
      assert k in s.baseline;
    }
  }

  /** Every planned case is safe for the camera and the capabilities the plan was drawn from. */
  lemma CaseSafe(camera: Camera, controls: seq<Control>, extended: bool, c: Case)
    ensures Planned(camera, controls, extended, c) ==>
              var s := SetupOf(camera, controls).value;
              && s.width == camera.width && s.height == camera.height && s.bins == camera.bins && s.caps == CapsOf(controls)
              && 1 in s.caps && Safe(s, c)
  {
    if Planned(camera, controls, extended, c) {
      PlannedCase(camera, controls, extended, c);
      FormSafe(SetupOf(camera, controls).value, c);
    }
  }

  /**
   Every case carries the same control keys and differs from the baseline in at most one control, and then
   keeps the default exposure; a case with another exposure keeps every baseline control.
   */
  lemma OneVariableAtATime(camera: Camera, controls: seq<Control>, extended: bool, c: Case)
    ensures Planned(camera, controls, extended, c) ==>
              var s := SetupOf(camera, controls).value;
              && c.controls.Keys == s.baseline.Keys
              && (forall j, k | j in s.baseline && k in s.baseline
                                && c.controls[j] != s.baseline[j] && c.controls[k] != s.baseline[k] :: j == k)
              && (c.controls != s.baseline ==> c.exposure == s.default)
  {
    if Planned(camera, controls, extended, c) {
      PlannedCase(camera, controls, extended, c);
      hide Derived, ExposureForm, ControlForm;
      FormControls(SetupOf(camera, controls).value, c);
    }
  }

  // ---------------------------------------------------------------- why cases are skipped

  /** With no admissible exposure time nothing is planned. */
  lemma EmptyExposureRange(camera: Camera, controls: seq<Control>, extended: bool)
    ensures var plan := PlanOf(camera, controls, extended);
            plan.Ok? && CapsOf(controls)[1].min > CapsOf(controls)[1].max ==> plan.value.cases == []
  {
    var plan := PlanOf(camera, controls, extended);
    if plan.Ok? && plan.value.cases != [] {
      PlannedCase(camera, controls, extended, plan.value.cases[0]);
    }
  }

  lemma DefaultFits(s: Setup)
    requires Derived(s) && s.exposure.min <= s.exposure.max
    ensures s.exposure.min <= s.default.microseconds <= s.exposure.max
    ensures s.default.width >= 64 && s.default.height >= 64 && s.default.width <= 512 && s.default.height <= 256
    ensures s.default.width * s.default.height * 2 <= MAX_FRAME
    ensures InSensor(s, s.default)
  {
    SizeOfDefault(s);
    Product(s.default.width, s.default.height, 512, 256);
  }

  lemma Product(a: int, b: int, c: int, d: int)
    requires 0 <= a <= c && 0 <= b <= d
    ensures a * b <= c * d
  {
  }

  /** Region cases never leave the sensor: only the full frame can be too large, and exactly when its bytes are. */
  lemma RoiVerdict(s: Setup, c: Case)
    requires Derived(s) && s.exposure.min <= s.exposure.max && RoiForm(s, c.name, c.exposure)
    ensures Judge(s, c) != Some(OutsideSensor) && Judge(s, c) != Some(OutsideExposure)
    ensures Judge(s, c) == Some(TooLarge) <==> c.name.FullFrame? && (s.width / 8 * 8) * (s.height / 2 * 2) * 2 > MAX_FRAME
  {
    DefaultFits(s);
  }

  lemma Binning(size: int, full: int, b: int, step: int)
    requires 0 <= size && 0 < b && (step == 2 || step == 8) && 0 <= full
    ensures Min(size, full / b) / step * step * b <= full
  {
  }

  /** A binned case leaves the sensor exactly when the binned width is below eight pixels. */
  lemma BinVerdict(s: Setup, c: Case)
    requires Derived(s) && s.exposure.min <= s.exposure.max && BinForm(s, c.name, c.exposure)
    ensures Judge(s, c) == Some(OutsideSensor) <==> s.width / c.name.bin < 8
    ensures Judge(s, c) != Some(TooLarge) && Judge(s, c) != Some(OutsideExposure)
  {
    DefaultFits(s);
    var b, e := c.name.bin, c.exposure;
    Binning(s.default.width, s.width, b, 8);
    Binning(s.default.height, s.height, b, 2);
    BinnedSize(s, b, e);
    Product(e.width, e.height, 512, 256);
  }

  lemma RoundedDown(n: int, step: int)
    requires 0 <= n && (step == 2 || step == 8)
    ensures n - step < n / step * step <= n
    ensures n < step <==> n / step * step == 0
  {
  }

  lemma Quotient(n: int, b: int)
    requires 64 <= n && 1 < b <= 16
    ensures n / b >= 4
  {
  }

  lemma SizeOfDefault(s: Setup)
    requires Derived(s)
    ensures 64 <= s.default.width <= 512 && 64 <= s.default.height <= 256
  {
    RoundedDown(Min(s.width, 512), 8);
    RoundedDown(Min(s.height, 256), 2);
  }

  lemma BinnedSize(s: Setup, b: int, e: Exposure)
    requires Derived(s) && 1 < b <= 16
    requires e.width == Min(s.default.width, s.width / b) / 8 * 8 && e.height == Min(s.default.height, s.height / b) / 2 * 2
    ensures 0 <= e.width <= 512 && 2 <= e.height <= 256
    ensures e.width < 8 <==> s.width / b < 8
  {
    Quotient(s.width, b);
    Quotient(s.height, b);
    SizeOfDefault(s);
    hide Derived;
    RoundedDown(Min(s.default.width, s.width / b), 8);
    RoundedDown(Min(s.default.height, s.height / b), 2);
  }

  lemma {:induction false} BinProposed(s: Setup, bins: seq<int>, b: int)
    requires b in bins && 1 < b <= 16
    ensures BinItem(s, b)[0] in BinItems(s, bins)
  {
    var last := bins[|bins| - 1];
    if last != b {
      BinProposed(s, bins[..|bins| - 1], b);
    }
  }

  lemma BinInItems(s: Setup, extended: bool, b: int)
    requires s.baseline.Keys <= s.caps.Keys && b in s.bins && 1 < b <= 16
    ensures BinItem(s, b)[0] in Items(s, extended)
  {
    BinProposed(s, SortedSet(s.bins), b);
    hide RoiItems, BinItems, BinItem, TimeItems, SweepItems, SwitchItems;
  }

  lemma {:induction false} TimeProposed(s: Setup, times: seq<int>, us: int)
    requires us in times
    ensures TimeItem(s, us) in TimeItems(s, times)
  {
    if times[|times| - 1] != us {
      TimeProposed(s, times[..|times| - 1], us);
    }
  }

  lemma {:induction false} ValueProposed(s: Setup, c: int, values: seq<int>, v: int)
    requires v in values
    ensures SweepItem(s, c, v) in ValueItems(s, c, values)
  {
    if values[|values| - 1] != v {
      ValueProposed(s, c, values[..|values| - 1], v);
    }
  }

  lemma {:induction false} SweepProposed(s: Setup, controls: seq<int>, extended: bool, c: int, item: Item)
    requires s.baseline.Keys <= s.caps.Keys && c in controls && item in OneSweep(s, c, extended)
    ensures item in SweepItems(s, controls, extended)
  {
    hide OneSweep;
    if controls[|controls| - 1] != c {
      SweepProposed(s, controls[..|controls| - 1], extended, c, item);
    }
  }

  /** Every listed exposure time is proposed. */
  lemma TimesCovered(s: Setup, extended: bool, us: int)
    requires s.baseline.Keys <= s.caps.Keys && us in Times(extended)
    ensures TimeItem(s, us) in Items(s, extended)
  {
    TimeProposed(s, SortedSet(Times(extended)), us);
    hide RoiItems, BinItems, TimeItem, TimeItems, SweepItems, SwitchItems, Times, SortedSet;
  }

  /** A control is swept over the ends and the middle of its range and, extended, gain's boundaries: all but the baseline. */
  lemma SweepValuesExact(s: Setup, c: int, extended: bool, v: int)
    requires c in s.caps && c in s.baseline
    ensures var low, high := s.caps[c].min, s.caps[c].max;
            v in SweepValues(s, c, extended) <==>
              v != s.baseline[c] && (v == low || v == (low + high) / 2 || v == high
                                     || (extended && c == 0 && v in GAIN_BOUNDARIES && low <= v <= high))
  {
    hide Filter, SortedSet, Increasing;
    var low, high := s.caps[c].min, s.caps[c].max;
    var boundaries := if extended && c == 0 then Filter(GAIN_BOUNDARIES, v => low <= v <= high) else [];
    var proposed := [low, (low + high) / 2, high] + boundaries;
    assert SweepValues(s, c, extended) == SortedSet(Filter(proposed, v => v != s.baseline[c]));
    hide SweepValues;
    assert v in proposed <==> v == low || v == (low + high) / 2 || v == high || v in boundaries;
  }

  /** Each of gain, offset and bandwidth is proposed at every value of its sweep, or noted as not writable. */
  lemma SweepsCovered(s: Setup, extended: bool, c: int, v: int)
    requires s.baseline.Keys <= s.caps.Keys && c in SWEPT
    ensures c !in s.baseline ==> Unwritable(c) in Items(s, extended)
    ensures c in s.baseline && v in SweepValues(s, c, extended) ==> SweepItem(s, c, v) in Items(s, extended)
  {
    hide RoiItems, BinItems, TimeItems, SweepItem, SweepItems, SwitchItems, SweepValues, ValueItems, SortedSet;
    var item := if c in s.baseline then SweepItem(s, c, v) else Unwritable(c);
    if c !in s.baseline || v in SweepValues(s, c, extended) {
      if c in s.baseline {
        ValueProposed(s, c, SweepValues(s, c, extended), v);
      }
      SweepProposed(s, SWEPT, extended, c, item);
    }
  }

  /** The name of a binned case whose width would fall below eight pixels. */
  predicate TooNarrow(s: Setup, name: Name) {
    name.Binned? && 1 < name.bin <= 16 && name.bin in s.bins && s.width / name.bin < 8
  }

  /** No case but a binned one can leave the sensor. */
  lemma OutsideMeansNarrow(s: Setup, item: Item)
    requires Derived(s) && s.exposure.min <= s.exposure.max && Formed(s, item)
    ensures Filed(s, item).skipped == [Skip(item.Name(), OutsideSensor)] ==> TooNarrow(s, item.Name())
  {
    DefaultFits(s);
    hide Derived, RoiForm, BinForm;
    if item.Try? && ExposureForm(s, item.proposal) {
      var c := item.proposal;
      if RoiForm(s, c.name, c.exposure) {
        RoiVerdict(s, c);
      } else if BinForm(s, c.name, c.exposure) {
        BinVerdict(s, c);
        BinFormBin(s, c);
      }
    }
  }

  lemma BinFormBin(s: Setup, c: Case)
    requires BinForm(s, c.name, c.exposure)
    ensures c.name.Binned? && 1 < c.name.bin <= 16 && c.name.bin in s.bins
  {
  }

  lemma NarrowSkipped(s: Setup, b: int)
    requires Derived(s) && s.exposure.min <= s.exposure.max && TooNarrow(s, Binned(b))
    ensures Filed(s, BinItem(s, b)[0]).skipped == [Skip(Binned(b), OutsideSensor)]
  {
    BinVerdict(s, BinItem(s, b)[0].proposal);
  }

  lemma FormedMember(s: Setup, items: seq<Item>, item: Item)
    requires AllFormed(s, items) && item in items
    ensures Formed(s, item)
  {
    hide Formed;
  }

  lemma SkipName(s: Setup, item: Item, k: Skip)
    requires Filed(s, item).skipped == [k]
    ensures k.name == item.Name()
  {
  }

  lemma OnlyNarrowSkipped(s: Setup, items: seq<Item>, name: Name)
    requires Derived(s) && s.exposure.min <= s.exposure.max && AllFormed(s, items)
    ensures Skip(name, OutsideSensor) in FiledAll(s, items).skipped ==> TooNarrow(s, name)
  {
    hide FiledAll, Filed, AllFormed, Formed, Derived, TooNarrow, Judge;
    FiledExactly(s, items);
    var k := Skip(name, OutsideSensor);
    if k in FiledAll(s, items).skipped {
      var item :| item in items && Filed(s, item).skipped == [k];
      FormedMember(s, items, item);
      SkipName(s, item, k);
      OutsideMeansNarrow(s, item);
    }
  }

  /**
   Given any admissible exposure time, exactly the bins from 2 to 16 whose binned width is below eight pixels are
   skipped for leaving the sensor, and nothing else is.
   */
  lemma BoundsSkips(s: Setup, extended: bool, name: Name)
    requires Derived(s) && s.exposure.min <= s.exposure.max
    ensures Skip(name, OutsideSensor) in FiledAll(s, Items(s, extended)).skipped <==> TooNarrow(s, name)
  {
    hide Items, FiledAll, Filed, AllFormed, Formed, Judge, BinItem;
    ItemsFormed(s, extended);
    OnlyNarrowSkipped(s, Items(s, extended), name);
    if TooNarrow(s, name) {
      BinInItems(s, extended, name.bin);
      NarrowSkipped(s, name.bin);
      hide Derived, TooNarrow;
      FiledExactly(s, Items(s, extended));
    }
  }

  lemma BaselineProposed(s: Setup, extended: bool)
    requires s.baseline.Keys <= s.caps.Keys
    ensures Try(Case(BaselineRepeat, s.default, s.baseline, 2, true)) in Items(s, extended)
  {
    NoValues(s);
    assert RoiItems(s)[0] == Try(Case(BaselineRepeat, s.default, s.baseline, 2, true));
    hide BinItems, TimeItems, SweepItems, SwitchItems;
    assert Items(s, extended)[0] == RoiItems(s)[0];
  }

  lemma BaselineForm(s: Setup, c: Case)
    requires Formed(s, Try(c)) && c.name.BaselineRepeat?
    ensures c.exposure == s.default && c.controls == s.baseline
  {
  }

  /** The baseline case is planned exactly when an exposure time and every baseline control are admissible. */
  lemma BaselinePlanned(s: Setup, extended: bool)
    requires Derived(s)
    ensures (exists c :: c in FiledAll(s, Items(s, extended)).cases && c.name.BaselineRepeat?) <==>
            s.exposure.min <= s.exposure.max && forall k | k in s.baseline :: InRange(s.caps, k, s.baseline[k])
  {
    var items, first := Items(s, extended), Case(BaselineRepeat, s.default, s.baseline, 2, true);
    BaselineProposed(s, extended);
    ItemsFormed(s, extended);
    FiledExactly(s, items);
    JudgeBaseline(s, first);
    hide Items, Judge, FiledAll, InRange, Derived, AllFormed, Formed;
    if c :| c in FiledAll(s, items).cases && c.name.BaselineRepeat? {
      FormedMember(s, items, Try(c));
      BaselineForm(s, c);
      JudgeBaseline(s, c);
    }
    assert Judge(s, first).None? ==> first in FiledAll(s, items).cases && first.name.BaselineRepeat?;
  }

  lemma JudgeBaseline(s: Setup, c: Case)
    requires Derived(s) && c.exposure == s.default && c.controls == s.baseline
    ensures Judge(s, c).None? <==>
            s.exposure.min <= s.exposure.max && forall k | k in s.baseline :: InRange(s.caps, k, s.baseline[k])
  {
    if s.exposure.min <= s.exposure.max {
      DefaultFits(s);
    }
    hide Derived, InSensor, InRange;
  }

  // ---------------------------------------------------------------- names

  /** The part of the plan a name belongs to. */
  function Group(name: Name): nat {
    match name
    case Binned(_) => 1
    case Exposed(_) => 2
    case Swept(_, _) => 3
    case Sweep(_) => 3
    case SwitchedOn(_) => 4
    case BaselineAfter => 5
    case _ => 0
  }

  ghost predicate Distinct(items: seq<Item>) {
    forall i, j | 0 <= i < j < |items| :: items[i].Name() != items[j].Name()
  }

  ghost predicate UpTo(items: seq<Item>, g: nat) {
    forall i | 0 <= i < |items| :: Group(items[i].Name()) <= g
  }

  ghost predicate Only(items: seq<Item>, g: nat) {
    forall i | 0 <= i < |items| :: Group(items[i].Name()) == g
  }

  lemma GroupConcat(a: seq<Item>, b: seq<Item>, g: nat)
    requires Distinct(a) && Distinct(b) && UpTo(a, g) && Only(b, g + 1)
    ensures Distinct(a + b) && UpTo(a + b, g + 1)
  {
  }

  lemma RoisDistinct(s: Setup)
    ensures Distinct(RoiItems(s)) && UpTo(RoiItems(s), 0)
  {
  }

  lemma {:induction false} BinsDistinct(s: Setup, bins: seq<int>)
    requires Increasing(bins)
    ensures Distinct(BinItems(s, bins)) && Only(BinItems(s, bins), 1)
    ensures forall i | 0 <= i < |BinItems(s, bins)| :: BinItems(s, bins)[i].Name().Binned? && BinItems(s, bins)[i].Name().bin in bins
  {
    if bins != [] {
      var front := bins[..|bins| - 1];
      BinsDistinct(s, front);
      assert forall b | b in front :: b < bins[|bins| - 1];
    }
  }

  lemma {:induction false} TimesDistinct(s: Setup, times: seq<int>)
    requires Increasing(times)
    ensures |TimeItems(s, times)| == |times|
    ensures forall i | 0 <= i < |times| :: TimeItems(s, times)[i].Name() == Exposed(times[i])
    ensures Distinct(TimeItems(s, times)) && Only(TimeItems(s, times), 2)
  {
    if times != [] {
      TimesDistinct(s, times[..|times| - 1]);
    }
  }

  lemma {:induction false} ValuesDistinct(s: Setup, c: int, values: seq<int>)
    requires Increasing(values)
    ensures |ValueItems(s, c, values)| == |values|
    ensures forall i | 0 <= i < |values| :: ValueItems(s, c, values)[i].Name() == Swept(c, values[i])
    ensures Distinct(ValueItems(s, c, values))
  {
    if values != [] {
      ValuesDistinct(s, c, values[..|values| - 1]);
    }
  }

  /** All names belong to the sweep of one of the controls. */
  ghost predicate SweepsOf(items: seq<Item>, controls: seq<int>) {
    forall i | 0 <= i < |items| ::
      (items[i].Name().Swept? || items[i].Name().Sweep?) && items[i].Name().control in controls
  }

  lemma OneSweepDistinct(s: Setup, c: int, extended: bool)
    requires s.baseline.Keys <= s.caps.Keys
    ensures Distinct(OneSweep(s, c, extended)) && SweepsOf(OneSweep(s, c, extended), [c])
  {
    if c in s.baseline {
      hide SweepValues;
      ValuesDistinct(s, c, SweepValues(s, c, extended));
    }
  }

  lemma {:induction false} SweepsDistinct(s: Setup, controls: seq<int>, extended: bool)
    requires s.baseline.Keys <= s.caps.Keys && Increasing(controls)
    ensures Distinct(SweepItems(s, controls, extended)) && Only(SweepItems(s, controls, extended), 3)
    ensures SweepsOf(SweepItems(s, controls, extended), controls)
  {
    hide OneSweep;
    if controls != [] {
      var front, c := controls[..|controls| - 1], controls[|controls| - 1];
      SweepsDistinct(s, front, extended);
      assert forall k | k in front :: k < c;
      OneSweepDistinct(s, c, extended);
    }
  }

  lemma {:induction false} SwitchesDistinct(s: Setup, controls: seq<int>)
    requires s.baseline.Keys <= s.caps.Keys && Increasing(controls)
    ensures Distinct(SwitchItems(s, controls)) && Only(SwitchItems(s, controls), 4)
    ensures forall i | 0 <= i < |SwitchItems(s, controls)| ::
              SwitchItems(s, controls)[i].Name().SwitchedOn? && SwitchItems(s, controls)[i].Name().control in controls
  {
    if controls != [] {
      var front := controls[..|controls| - 1];
      SwitchesDistinct(s, front);
      assert forall k | k in front :: k < controls[|controls| - 1];
    }
  }

  /** No two entries of a plan, run or skipped, share a name. */
  lemma NamesDistinct(s: Setup, extended: bool)
    requires s.baseline.Keys <= s.caps.Keys
    ensures Distinct(Items(s, extended))
  {
    hide Distinct, UpTo, Only, RoiItems, BinItems, TimeItems, SweepItems, SwitchItems, SortedSet, Times, Proposal;
    RoisDistinct(s);
    var items := RoiItems(s);
    BinsDistinct(s, SortedSet(s.bins));
    GroupConcat(items, BinItems(s, SortedSet(s.bins)), 0);
    items := items + BinItems(s, SortedSet(s.bins));
    TimesDistinct(s, SortedSet(Times(extended)));
    GroupConcat(items, TimeItems(s, SortedSet(Times(extended))), 1);
    items := items + TimeItems(s, SortedSet(Times(extended)));
    SweepsDistinct(s, SWEPT, extended);
    GroupConcat(items, SweepItems(s, SWEPT, extended), 2);
    items := items + SweepItems(s, SWEPT, extended);
    var switches := if extended then SwitchItems(s, SWITCHES) else [];
    SwitchesDistinct(s, SWITCHES);
    NothingDistinct();
    GroupConcat(items, switches, 3);
    LastDistinct(s);
    GroupConcat(items + switches, [Proposal(s, BaselineAfter, s.default, map[])], 4);
  }

  lemma NothingDistinct()
    ensures Distinct([]) && Only([], 4)
  {
  }

  lemma LastDistinct(s: Setup)
    ensures Distinct([Proposal(s, BaselineAfter, s.default, map[])]) && Only([Proposal(s, BaselineAfter, s.default, map[])], 5)
  {
  }
}
