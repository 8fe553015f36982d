/**
 The whole plan by name: which names are proposed, which of them are run, and why each of the others is skipped, in
 terms of the camera and the reported controls.
 */
module PlanReasons {
  import opened Wrappers
  import opened Integers
  import opened SortedSets
  import opened ExercisePlan
  import opened PlanProperties

  // ---------------------------------------------------------------- the setup

  /** The last control reported of kind `k`. */
  ghost predicate LastOfKind(controls: seq<Control>, k: int, control: Control) {
    exists i :: && 0 <= i < |controls| && controls[i] == control && control.kind == k
                && forall j | i < j < |controls| :: controls[j].kind != k
  }

  ghost predicate KindReported(controls: seq<Control>, k: int) {
    exists i :: 0 <= i < |controls| && controls[i].kind == k
  }

  lemma {:induction false} CapsExact(controls: seq<Control>, k: int)
    ensures k in CapsOf(controls) <==> KindReported(controls, k)
    ensures k in CapsOf(controls) ==> LastOfKind(controls, k, CapsOf(controls)[k])
  {
    if controls != [] {
      var front, last := controls[..|controls| - 1], controls[|controls| - 1];
      CapsExact(front, k);
      if k in CapsOf(front) && last.kind != k {
        var i :| && 0 <= i < |front| && front[i] == CapsOf(front)[k] && front[i].kind == k
                 && forall j | i < j < |front| :: front[j].kind != k;
        assert controls[i] == front[i];
        assert forall j | i < j < |front| :: controls[j] == front[j];
      }
      if KindReported(controls, k) && last.kind != k {
        var i :| 0 <= i < |controls| && controls[i].kind == k;
        assert front[i] == controls[i];
      }
    }
  }

  /** The value a baseline gives control `c`: preferred where the range allows it, else what it was. */
  function BaselineValue(caps: map<int, Control>, c: int): int
    requires c in caps
  {
    if c == 6 && caps[c].min <= 40 <= caps[c].max then 40
    else if c in {9, 13, 14, 18, 20} && caps[c].min <= 0 <= caps[c].max then 0
    else caps[c].value
  }

  /** The baseline holds exactly the writable imaging controls but the exposure. */
  lemma BaselineExact(caps: map<int, Control>, c: int)
    ensures c in Baseline(caps) <==> c in {0, 5, 6, 9, 13, 14, 18, 20} && c in caps && caps[c].writable
    ensures c in Baseline(caps) ==> Baseline(caps)[c] == BaselineValue(caps, c)
  {
  }

  /** A camera is accepted exactly with 16-bit output, bin 1, 64 by 64 pixels and an exposure control. */
  lemma SetupExact(camera: Camera, controls: seq<Control>, c: int)
    ensures SetupOf(camera, controls).Ok? <==>
            2 in camera.formats && camera.width >= 64 && camera.height >= 64 && 1 in camera.bins && KindReported(controls, 1)
    ensures SetupOf(camera, controls).Ok? ==>
              var s := SetupOf(camera, controls).value;
              && s.width == camera.width && s.height == camera.height && s.bins == camera.bins && s.caps == CapsOf(controls)
              && (c in s.baseline <==> c in {0, 5, 6, 9, 13, 14, 18, 20} && c in s.caps && s.caps[c].writable)
              && (c in s.baseline ==> s.baseline[c] == BaselineValue(s.caps, c))
  {
    CapsExact(controls, 1);
    BaselineExact(CapsOf(controls), c);
    hide CapsOf, Baseline, BaselineValue;
  }

  // ---------------------------------------------------------------- the names

  /** The exposure is to be taken at this time, in microseconds. */
  predicate ListedTime(us: int, extended: bool) {
    || us in {1000, 990000, 1010000, 2000000}
    || (extended && us in {32, 100, 10000, 490000, 500000, 510000, 999000, 1000000, 1001000, 10000000, 30000000, 60000000})
  }

  predicate SweptValue(s: Setup, c: int, v: int, extended: bool)
    requires c in s.caps && c in s.baseline
  {
    var low, high := s.caps[c].min, s.caps[c].max;
    && v != s.baseline[c]
    && (v == low || v == (low + high) / 2 || v == high
        || (extended && c == 0 && v in {99, 100, 101, 179, 180, 181, 249, 250, 251, 349, 350, 351} && low <= v <= high))
  }

  /** The names of the plan's proposals. */
  predicate Listed(s: Setup, extended: bool, name: Name)
    requires s.baseline.Keys <= s.caps.Keys
  {
    match name
    case BaselineRepeat => true
    case FullFrame => true
    case Roi64 => true
    case BaselineAfter => true
    case RoiMoved => s.width >= s.default.width + 16 && s.height >= s.default.height + 2
    case RoiFarEdge => s.width >= s.default.width + 16 && s.height >= s.default.height + 2
    case Binned(b) => 1 < b <= 16 && b in s.bins
    case Exposed(us) => ListedTime(us, extended)
    case Swept(c, v) => c in {0, 5, 6} && c in s.baseline && SweptValue(s, c, v, extended)
    case Sweep(c) => c in {0, 5, 6} && c !in s.baseline
    case SwitchedOn(c) => extended && c in {9, 13, 14, 18, 20} && c in s.baseline && s.caps[c].min <= 1 <= s.caps[c].max
  }

  /** Some item bears the name. */
  ghost predicate Has(items: seq<Item>, name: Name) {
    exists i :: 0 <= i < |items| && items[i].Name() == name
  }

  lemma HasConcat(a: seq<Item>, b: seq<Item>, name: Name)
    ensures Has(a + b, name) <==> Has(a, name) || Has(b, name)
  {
    if i :| 0 <= i < |a| && a[i].Name() == name {
      assert (a + b)[i] == a[i];
    }
    if i :| 0 <= i < |b| && b[i].Name() == name {
      assert (a + b)[|a| + i] == b[i];
    }
    if i :| 0 <= i < |a + b| && (a + b)[i].Name() == name {
      assert if i < |a| then a[i].Name() == name else b[i - |a|].Name() == name;
    }
  }

  lemma HasOne(item: Item, name: Name)
    ensures Has([item], name) <==> item.Name() == name
    ensures !Has([], name)
  {
    assert [item][0] == item;
  }

  lemma RoisNamed(s: Setup, name: Name)
    ensures Has(RoiItems(s), name) <==>
            || name.BaselineRepeat? || name.FullFrame? || name.Roi64?
            || ((name.RoiMoved? || name.RoiFarEdge?) && s.width >= s.default.width + 16 && s.height >= s.default.height + 2)
  {
    var items := RoiItems(s);
    assert items[0].Name() == BaselineRepeat && items[1].Name() == FullFrame && items[2].Name() == Roi64;
    assert |items| > 3 ==> items[3].Name() == RoiMoved && items[4].Name() == RoiFarEdge;
    hide RoiItems;
  }

  lemma {:induction false} BinsNamed(s: Setup, bins: seq<int>, name: Name)
    ensures Has(BinItems(s, bins), name) <==> name.Binned? && 1 < name.bin <= 16 && name.bin in bins
  {
    hide Has;
    if bins == [] {
      HasOne(Unwritable(0), name);
    } else {
      var front, b := bins[..|bins| - 1], bins[|bins| - 1];
      BinsNamed(s, front, name);
      HasConcat(BinItems(s, front), BinItem(s, b), name);
      assert bins == front + [b];
      if 1 < b <= 16 {
        HasOne(BinItem(s, b)[0], name);
        assert BinItem(s, b) == [BinItem(s, b)[0]];
      } else {
        HasOne(Unwritable(0), name);
      }
    }
  }

  lemma {:induction false} TimesNamed(s: Setup, times: seq<int>, name: Name)
    ensures Has(TimeItems(s, times), name) <==> name.Exposed? && name.microseconds in times
  {
    hide Has;
    if times == [] {
      HasOne(Unwritable(0), name);
    } else {
      var front, us := times[..|times| - 1], times[|times| - 1];
      TimesNamed(s, front, name);
      HasConcat(TimeItems(s, front), [TimeItem(s, us)], name);
      HasOne(TimeItem(s, us), name);
      assert times == front + [us];
    }
  }

  lemma {:induction false} ValuesNamed(s: Setup, c: int, values: seq<int>, name: Name)
    ensures Has(ValueItems(s, c, values), name) <==> name.Swept? && name.control == c && name.value in values
  {
    hide Has;
    if values == [] {
      HasOne(Unwritable(0), name);
    } else {
      var front, v := values[..|values| - 1], values[|values| - 1];
      ValuesNamed(s, c, front, name);
      HasConcat(ValueItems(s, c, front), [SweepItem(s, c, v)], name);
      HasOne(SweepItem(s, c, v), name);
      assert values == front + [v];
    }
  }

  /** The name belongs to the sweep of control `c`. */
  predicate SweepNamed(s: Setup, extended: bool, c: int, name: Name)
    requires s.baseline.Keys <= s.caps.Keys
  {
    if c in s.baseline then name.Swept? && name.control == c && SweptValue(s, c, name.value, extended) else name == Sweep(c)
  }

  lemma OneSweepNamed(s: Setup, c: int, extended: bool, name: Name)
    requires s.baseline.Keys <= s.caps.Keys
    ensures Has(OneSweep(s, c, extended), name) <==> SweepNamed(s, extended, c, name)
  {
    hide Has, SweepValues, ValueItems;
    if c in s.baseline {
      ValuesNamed(s, c, SweepValues(s, c, extended), name);
      if name.Swept? {
        SweepValuesExact(s, c, extended, name.value);
      }
    } else {
      HasOne(Unwritable(c), name);
    }
  }

  lemma {:induction false} SweepsNamed(s: Setup, controls: seq<int>, extended: bool, name: Name)
    requires s.baseline.Keys <= s.caps.Keys
    ensures Has(SweepItems(s, controls, extended), name) <==> exists c :: c in controls && SweepNamed(s, extended, c, name)
  {
    hide Has, OneSweep, SweepNamed;
    if controls == [] {
      HasOne(Unwritable(0), name);
    } else {
      var front, c := controls[..|controls| - 1], controls[|controls| - 1];
      SweepsNamed(s, front, extended, name);
      HasConcat(SweepItems(s, front, extended), OneSweep(s, c, extended), name);
      OneSweepNamed(s, c, extended, name);
      assert controls == front + [c];
      assert c in controls && forall k | k in front :: k in controls;
    }
  }

  lemma {:induction false} SwitchesNamed(s: Setup, controls: seq<int>, name: Name)
    requires s.baseline.Keys <= s.caps.Keys
    ensures Has(SwitchItems(s, controls), name) <==>
            && name.SwitchedOn? && name.control in controls && name.control in s.baseline
            && s.caps[name.control].min <= 1 <= s.caps[name.control].max
  {
    hide Has;
    if controls == [] {
      HasOne(Unwritable(0), name);
    } else {
      var front, c := controls[..|controls| - 1], controls[|controls| - 1];
      SwitchesNamed(s, front, name);
      HasConcat(SwitchItems(s, front), SwitchItem(s, c), name);
      assert controls == front + [c];
      if c in s.baseline && s.caps[c].min <= 1 <= s.caps[c].max {
        HasOne(SwitchItem(s, c)[0], name);
        assert SwitchItem(s, c) == [SwitchItem(s, c)[0]];
      } else {
        HasOne(Unwritable(0), name);
      }
    }
  }

  lemma TimesListed(us: int, extended: bool)
    ensures us in Times(extended) <==> ListedTime(us, extended)
  {
  }

  lemma SweepsListed(s: Setup, extended: bool, name: Name)
    requires s.baseline.Keys <= s.caps.Keys && (name.Swept? || name.Sweep?)
    ensures (exists c :: c in SWEPT && SweepNamed(s, extended, c, name)) <==> Listed(s, extended, name)
  {
    assert Listed(s, extended, name) ==> name.control in SWEPT && SweepNamed(s, extended, name.control, name);
    hide SweptValue;
  }

  /** Exactly the listed names are proposed. */
  lemma ItemsNamed(s: Setup, extended: bool, name: Name)
    requires s.baseline.Keys <= s.caps.Keys
    ensures Has(Items(s, extended), name) <==> Listed(s, extended, name)
  {
    hide Has, RoiItems, BinItems, TimeItems, SweepItems, SwitchItems, SortedSet, Times, ListedTime, SweptValue, SweepNamed;
    var rois, bins, times := RoiItems(s), BinItems(s, SortedSet(s.bins)), TimeItems(s, SortedSet(Times(extended)));
    var sweeps, switches := SweepItems(s, SWEPT, extended), if extended then SwitchItems(s, SWITCHES) else [];
    var last := Proposal(s, BaselineAfter, s.default, map[]);
    HasConcat(rois, bins, name);
    HasConcat(rois + bins, times, name);
    HasConcat(rois + bins + times, sweeps, name);
    HasConcat(rois + bins + times + sweeps, switches, name);
    HasConcat(rois + bins + times + sweeps + switches, [last], name);
    RoisNamed(s, name);
    BinsNamed(s, SortedSet(s.bins), name);
    TimesNamed(s, SortedSet(Times(extended)), name);
    SweepsNamed(s, SWEPT, extended, name);
    SwitchesNamed(s, SWITCHES, name);
    HasOne(last, name);
    if name.Exposed? {
      TimesListed(name.microseconds, extended);
    }
    if name.Swept? || name.Sweep? {
      SweepsListed(s, extended, name);
    } else {
      NoSweep(s, extended, name);
    }
  }

  lemma NoSweep(s: Setup, extended: bool, name: Name)
    requires s.baseline.Keys <= s.caps.Keys && !name.Swept? && !name.Sweep?
    ensures !exists c :: c in SWEPT && SweepNamed(s, extended, c, name)
  {
    hide SweptValue;
  }

  // ---------------------------------------------------------------- the reasons

  /** The value the named case gives baseline control `k`. */
  function ValueIn(s: Setup, name: Name, k: int): int
    requires k in s.baseline
  {
    if name.Swept? && name.control == k then name.value
    else if name.SwitchedOn? && name.control == k then 1
    else s.baseline[k]
  }

  /** Why a listed name is skipped, if it is. */
  ghost function ReasonFor(s: Setup, name: Name): Option<Reason>
    requires s.baseline.Keys <= s.caps.Keys
  {
    if name.Sweep? then Some(NotWritable)
    else if s.exposure.min > s.exposure.max
            || (name.Exposed? && !(s.exposure.min <= name.microseconds <= s.exposure.max)) then Some(OutsideExposure)
    else if name.FullFrame? && (s.width / 8 * 8) * (s.height / 2 * 2) * 2 > 134217728 then Some(TooLarge)
    else if name.Binned? && name.bin > 0 && s.width / name.bin < 8 then Some(OutsideSensor)
    else if exists k :: k in s.baseline && !(s.caps[k].min <= ValueIn(s, name, k) <= s.caps[k].max) then Some(OutsideControls)
    else None
  }

  lemma ControlByName(s: Setup, c: Case, k: int)
    requires ExposureForm(s, c) || ControlForm(s, c)
    ensures k in c.controls <==> k in s.baseline
    ensures k in s.baseline ==> c.controls[k] == ValueIn(s, c.name, k)
  {
  }

  lemma BaselineWritable(s: Setup, k: int)
    requires Derived(s) && k in s.baseline
    ensures k in s.caps && s.caps[k].writable
  {
  }

  lemma ControlsByName(s: Setup, c: Case)
    requires Derived(s) && (ExposureForm(s, c) || ControlForm(s, c))
    ensures (exists k | k in c.controls :: !InRange(s.caps, k, c.controls[k])) <==>
            exists k :: k in s.baseline && !(s.caps[k].min <= ValueIn(s, c.name, k) <= s.caps[k].max)
  {
    hide Derived, ExposureForm, ControlForm, ValueIn;
    forall k | k in s.baseline || k in c.controls
      ensures k in s.baseline && k in c.controls && k in s.caps
      ensures InRange(s.caps, k, c.controls[k]) <==> s.caps[k].min <= ValueIn(s, c.name, k) <= s.caps[k].max
    {
      ControlByName(s, c, k);
      BaselineWritable(s, k);
    }
  }

  /** The geometry part of the verdict. */
  lemma GeometryByName(s: Setup, c: Case)
    requires Derived(s) && s.exposure.min <= s.exposure.max && (ExposureForm(s, c) || ControlForm(s, c))
    ensures Judge(s, c) == Some(OutsideExposure) <==>
            c.name.Exposed? && !(s.exposure.min <= c.name.microseconds <= s.exposure.max)
    ensures Judge(s, c) == Some(TooLarge) <==> c.name.FullFrame? && (s.width / 8 * 8) * (s.height / 2 * 2) * 2 > 134217728
    ensures Judge(s, c) == Some(OutsideSensor) <==> c.name.Binned? && s.width / c.name.bin < 8
  {
    DefaultFits(s);
    hide Derived, InRange, InSensor;
    if RoiForm(s, c.name, c.exposure) {
      RoiVerdict(s, c);
    } else if BinForm(s, c.name, c.exposure) {
      BinVerdict(s, c);
    } else {
      SameGeometry(s, c.exposure);
    }
  }

  lemma SameGeometry(s: Setup, e: Exposure)
    requires InSensor(s, s.default) && e == s.default.(microseconds := e.microseconds)
    ensures InSensor(s, e)
  {
  }

  lemma NoExposure(s: Setup, c: Case)
    requires s.exposure.min > s.exposure.max
    ensures Judge(s, c) == Some(OutsideExposure)
  {
  }

  /** A proposal is judged by its name. */
  lemma JudgeByName(s: Setup, c: Case)
    requires Derived(s) && (ExposureForm(s, c) || ControlForm(s, c))
    ensures Judge(s, c) == ReasonFor(s, c.name)
  {
    ControlsByName(s, c);
    NotSwept(s, c);
    if s.exposure.min > s.exposure.max {
      NoExposure(s, c);
    } else {
      GeometryByName(s, c);
      hide ExposureForm, ControlForm, InSensor, Derived, InRange;
    }
  }

  lemma NotSwept(s: Setup, c: Case)
    requires ExposureForm(s, c) || ControlForm(s, c)
    ensures !c.name.Sweep? && (c.name.Binned? ==> c.name.bin > 0)
  {
  }

  lemma FiledByName(s: Setup, item: Item)
    requires Derived(s) && Formed(s, item)
    ensures Filed(s, item).skipped == (match ReasonFor(s, item.Name()) case None => [] case Some(reason) => [Skip(item.Name(), reason)])
    ensures Filed(s, item).cases == (if ReasonFor(s, item.Name()).None? then [item.proposal] else [])
    ensures ReasonFor(s, item.Name()).None? ==> item.Try?
  {
    if item.Try? {
      JudgeByName(s, item.proposal);
      hide ExposureForm, ControlForm, ReasonFor, Derived, Judge;
    }
  }

  /**
   The plan, name by name: a listed name is run exactly when no reason speaks against it, and is otherwise skipped for
   exactly that reason; no other name appears.
   */
  lemma PlanByName(s: Setup, extended: bool, name: Name, reason: Reason)
    requires Derived(s)
    ensures var plan := FiledAll(s, Items(s, extended));
            && ((exists c :: c in plan.cases && c.name == name) <==> Listed(s, extended, name) && ReasonFor(s, name) == None)
            && (Skip(name, reason) in plan.skipped <==> Listed(s, extended, name) && ReasonFor(s, name) == Some(reason))
  {
    hide Items, FiledAll, Filed, Formed, Judge, Listed, ReasonFor, AllFormed;
    BaselineInCaps(s);
    var items := Items(s, extended);
    ItemsNamed(s, extended, name);
    ItemsFormed(s, extended);
    FiledExactly(s, items);
    FiledNamed(s, items, name, reason);
  }

  lemma BaselineInCaps(s: Setup)
    requires Derived(s)
    ensures s.baseline.Keys <= s.caps.Keys
  {
  }

  lemma FiledNamed(s: Setup, items: seq<Item>, name: Name, reason: Reason)
    requires Derived(s) && AllFormed(s, items)
    ensures var plan := FiledAll(s, items);
            && ((exists c :: c in plan.cases && c.name == name) <==> Has(items, name) && ReasonFor(s, name) == None)
            && (Skip(name, reason) in plan.skipped <==> Has(items, name) && ReasonFor(s, name) == Some(reason))
  {
    hide FiledAll, Filed, Formed, Judge, ReasonFor, Derived;
    FiledExactly(s, items);
    if Has(items, name) {
      var i :| 0 <= i < |items| && items[i].Name() == name;
      FiledByName(s, items[i]);
      FiledCase(s, items[i]);
      assert items[i] in items;
    }
    if c :| c in FiledAll(s, items).cases && c.name == name {
      var i :| 0 <= i < |items| && items[i] == Try(c);
      FiledByName(s, items[i]);
      FiledCase(s, items[i]);
    }
    if Skip(name, reason) in FiledAll(s, items).skipped {
      var item :| item in items && Filed(s, item).skipped == [Skip(name, reason)];
      var i :| 0 <= i < |items| && items[i] == item;
      FiledByName(s, item);
    }
  }

  lemma FiledCase(s: Setup, item: Item)
    ensures item.Try? ==> (Filed(s, item).cases == [item.proposal] <==> Judge(s, item.proposal).None?)
    ensures item.Try? ==> (Filed(s, item).cases == [] <==> Judge(s, item.proposal).Some?)
  {
  }

  /** The plan begins and ends with the baseline. */
  lemma BaselineFirstAndLast(s: Setup, extended: bool)
    requires s.baseline.Keys <= s.caps.Keys
    ensures var items := Items(s, extended);
            && items[0] == Try(Case(BaselineRepeat, s.default, s.baseline, 2, true))
            && items[|items| - 1] == Try(Case(BaselineAfter, s.default, s.baseline, 1, true))
  {
    NoValues(s);
    assert RoiItems(s)[0] == Try(Case(BaselineRepeat, s.default, s.baseline, 2, true));
    hide RoiItems, BinItems, TimeItems, SweepItems, SwitchItems;
  }
}
