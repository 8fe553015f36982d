/**
 Running an exercise plan on a camera and putting its controls back.

 `Camera` stands for the opened camera behind its worker process. Any command may fail, with or without having
 taken effect, and a failing command may take the worker down. What a value becomes when it is set is the SDK's
 business, but depends on the control and value alone; a command writes only the control it names.
 */
module CameraKit {
  import opened Wrappers
  import opened Integers
  import opened ExercisePlan
  import PlanProperties

  datatype ControlState = ControlState(value: int, auto: bool)

  const COOLING: seq<int> := [16, 17, 21]
  const MEASURED: seq<int> := [8, 15, 16, 17, 21]
  /** Every control the kit may save, in the order it restores them: ascending, the cooler switch (17) last. */
  const RESTORE_ORDER: seq<int> := [0, 1, 5, 6, 9, 13, 14, 16, 18, 20, 21, 17]

  /** A started exposure: which case asked for it, and every control's state at that moment. */
  datatype Started = Started(index: nat, controls: map<int, ControlState>)

  /** One command to set a control: to a value, and perhaps its automatic flag. */
  datatype Asked = Asked(control: int, value: int, auto: Option<bool>)

  class Camera {
    const settles: (int, int) -> ControlState
    var controls: map<int, ControlState>
    var alive: bool
    /** Controls any command has written, the commands that set them in order, and the exposures started. */
    ghost var written: set<int>
    ghost var asked: seq<Asked>
    ghost var starts: seq<Started>

    constructor (settles: (int, int) -> ControlState, controls: map<int, ControlState>)
      ensures this.settles == settles && this.controls == controls && alive && written == {} && starts == [] && asked == []
    {
      this.settles, this.controls, alive := settles, controls, true;
      written, starts, asked := {}, [], [];
    }

    /** A command that reads or acts without writing controls. */
    method Command() returns (ok: bool)
      modifies this`alive
      ensures ok ==> old(alive)
    {
      ok := alive;
      if * {
        ok := false;
      }
      if !ok {
        if * {
          alive := false;
        }
      }
    }

    method Get(c: int) returns (state: Option<ControlState>)
      modifies this`alive
      ensures state.Some? ==> c in controls && state.value == controls[c]
    {
      var ok := Command();
      return if ok && c in controls then Some(controls[c]) else None;
    }

    /** `set`: a value, leaving the automatic flag to the SDK. */
    method Set(c: int, value: int) returns (ok: bool)
      modifies this`alive, this`controls, this`written, this`asked
      ensures written == old(written) + {c} && asked == old(asked) + [Asked(c, value, None)]
      ensures controls == old(controls)[c := settles(c, value)] || (!ok && controls == old(controls))
    {
      ok := Command();
      written, asked := written + {c}, asked + [Asked(c, value, None)];
      if ok {
        controls := controls[c := settles(c, value)];
      } else {
        if * {
          controls := controls[c := settles(c, value)];
        }
      }
    }

    /** `set-control-state`: reports the state the control is left in, which need not be the one asked for. */
    method SetState(c: int, state: ControlState) returns (actual: Option<ControlState>)
      modifies this`alive, this`controls, this`written, this`asked
      ensures written == old(written) + {c} && asked == old(asked) + [Asked(c, state.value, Some(state.auto))]
      ensures forall k | k != c :: (k in controls <==> k in old(controls)) && (k in controls ==> controls[k] == old(controls)[k])
      ensures actual.Some? ==> c in controls && controls[c] == actual.value
    {
      var ok := Command();
      written, asked := written + {c}, asked + [Asked(c, state.value, Some(state.auto))];
      var left := state;
      if * {
        var value: int, auto: bool := *, *;
        left := ControlState(value, auto);
      }
      if ok {
        controls := controls[c := left];
        return Some(left);
      }
      if * {
        controls := controls[c := left];
      }
      return None;
    }

    /** `start`: also writes the exposure control. */
    method Start(microseconds: int, ghost index: nat) returns (ok: bool)
      modifies this`alive, this`controls, this`starts
      ensures starts == old(starts) + [Started(index, old(controls))]
      ensures forall k | k != 1 :: (k in controls <==> k in old(controls)) && (k in controls ==> controls[k] == old(controls)[k])
    {
      starts := starts + [Started(index, controls)];
      ok := Command();
      if * {
        controls := controls[1 := ControlState(microseconds, false)];
      }
    }

    /** A new worker opens the camera again; opening may itself change controls. */
    method Reopen(controls0: map<int, ControlState>) returns (ok: bool)
      modifies this`alive, this`controls
      ensures controls == old(controls) || controls == controls0
    {
      alive := true;
      if * {
        controls := controls0;
      }
      ok := Command();
    }
  }

  /** The cases of one plan: all on the same imaging controls, none of them the exposure. */
  ghost predicate SameKeys(cases: seq<Case>, keys: set<int>) {
    1 !in keys && (forall k | k in keys :: k in IMAGING) && forall i | 0 <= i < |cases| :: cases[i].controls.Keys == keys
  }

  /** At this start the case's own settings were in force. */
  ghost predicate OwnSettings(cam: Camera, cases: seq<Case>, s: Started)
    reads cam
  {
    s.index < |cases| && forall k | k in cases[s.index].controls ::
                           k in s.controls && s.controls[k] == cam.settles(k, cases[s.index].controls[k])
  }

  /** The kit's own plan can be run this way: its cases share their controls, and all of those get saved. */
  lemma PlanRunnable(camera: ExercisePlan.Camera, controls: seq<Control>, extended: bool, cooling: bool)
    ensures PlanOf(camera, controls, extended).Ok? ==>
              var keys := SetupOf(camera, controls).value.baseline.Keys;
              && SameKeys(PlanOf(camera, controls, extended).value.cases, keys)
              && forall k | k in keys :: Saveable(CapsOf(controls), k, cooling)
  {
    if PlanOf(camera, controls, extended).Ok? {
      BaselineSaveable(camera, controls, cooling);
      hide PlanOf, SetupOf, CapsOf;
      var cases, keys := PlanOf(camera, controls, extended).value.cases, SetupOf(camera, controls).value.baseline.Keys;
      forall i | 0 <= i < |cases|
        ensures cases[i].controls.Keys == keys
      {
        PlanProperties.OneVariableAtATime(camera, controls, extended, cases[i]);
      }
    }
  }

  lemma BaselineSaveable(camera: ExercisePlan.Camera, controls: seq<Control>, cooling: bool)
    requires SetupOf(camera, controls).Ok?
    ensures forall k | k in SetupOf(camera, controls).value.baseline :: k in IMAGING && k != 1 && Saveable(CapsOf(controls), k, cooling)
  {
    hide CapsOf;
  }

  /** The commands that set these values, in the order of the list. */
  function Settings(values: map<int, int>, list: seq<int>): seq<Asked> {
    if list == [] then [] else
    var c := list[|list| - 1];
    Settings(values, list[..|list| - 1]) + if c in values then [Asked(c, values[c], None)] else []
  }

  lemma SettingsSnoc(values: map<int, int>, list: seq<int>, i: nat)
    requires i < |list|
    ensures Settings(values, list[..i + 1]) ==
            Settings(values, list[..i]) + if list[i] in values then [Asked(list[i], values[list[i]], None)] else []
  {
    assert list[..i + 1][..i] == list[..i];
  }

  lemma NothingSet(values: map<int, int>, asked: seq<Asked>)
    ensures asked + Settings(values, IMAGING[..0]) == asked
  {
  }

  /** Sets every control of the case, in the imaging controls' order; stops at the first failure. */
  method ApplyControls(cam: Camera, values: map<int, int>) returns (ok: bool)
    requires forall k | k in values :: k in IMAGING
    modifies cam`alive, cam`controls, cam`written, cam`asked
    ensures cam.written <= old(cam.written) + values.Keys
    ensures ok ==> forall k | k in values :: k in cam.controls && cam.controls[k] == cam.settles(k, values[k])
    ensures ok ==> cam.asked == old(cam.asked) + Settings(values, IMAGING)
  {
    hide Settings;
    NothingSet(values, cam.asked);
    for i := 0 to |IMAGING|
      invariant cam.asked == old(cam.asked) + Settings(values, IMAGING[..i])
      invariant cam.written <= old(cam.written) + values.Keys
      invariant forall k | k in values && k in IMAGING[..i] :: k in cam.controls && cam.controls[k] == cam.settles(k, values[k])
    {
      var c := IMAGING[i];
      SettingsSnoc(values, IMAGING, i);
      assert IMAGING[..i + 1] == IMAGING[..i] + [c];
      if c in values {
        var done := cam.Set(c, values[c]);
        if !done {
          return false;
        }
      }
    }
    assert IMAGING[..|IMAGING|] == IMAGING;
    return true;
  }

  /** Which case each exposure was started for. */
  function Indices(starts: seq<Started>): (indices: seq<nat>)
    ensures |indices| == |starts|
  {
    seq<nat>(|starts|, i requires 0 <= i < |starts| => starts[i].index)
  }

  function Repeated(index: nat, times: nat): (indices: seq<nat>)
    ensures |indices| == times
  {
    seq<nat>(times, i requires 0 <= i < times => index)
  }

  /** Every frame of every case, in order. */
  function Schedule(cases: seq<Case>): seq<nat> {
    if cases == [] then [] else Schedule(cases[..|cases| - 1]) + Repeated(|cases| - 1, cases[|cases| - 1].frames)
  }

  lemma ScheduleSnoc(cases: seq<Case>, i: nat)
    requires i < |cases|
    ensures Schedule(cases[..i + 1]) == Schedule(cases[..i]) + Repeated(i, cases[i].frames)
  {
    assert cases[..i + 1][..i] == cases[..i];
  }

  lemma NothingScheduled(cases: seq<Case>, indices: seq<nat>)
    ensures indices + Schedule(cases[..0]) == indices
  {
  }

  /** One case: its controls first, then its frames. */
  method RunCase(cam: Camera, cases: seq<Case>, index: nat) returns (passed: bool)
    requires index < |cases| && 1 !in cases[index].controls && forall k | k in cases[index].controls :: k in IMAGING
    modifies cam
    ensures cam.written <= old(cam.written) + cases[index].controls.Keys
    ensures old(cam.starts) <= cam.starts
    ensures forall i | |old(cam.starts)| <= i < |cam.starts| ::
              cam.starts[i].index == index && OwnSettings(cam, cases, cam.starts[i])
    ensures passed ==> Indices(cam.starts) == Indices(old(cam.starts)) + Repeated(index, cases[index].frames)
    ensures |cam.starts| <= |old(cam.starts)| + cases[index].frames
  {
    var c := cases[index];
    passed := ApplyControls(cam, c.controls);
    if !passed {
      return false;
    }
    passed := cam.Command();
    var frame := 0;
    while frame < c.frames && passed
      invariant cam.written <= old(cam.written) + c.controls.Keys
      invariant old(cam.starts) <= cam.starts
      invariant forall k | k in c.controls :: k in cam.controls && cam.controls[k] == cam.settles(k, c.controls[k])
      invariant forall i | |old(cam.starts)| <= i < |cam.starts| ::
                  cam.starts[i].index == index && OwnSettings(cam, cases, cam.starts[i])
      invariant frame <= c.frames && |cam.starts| == |old(cam.starts)| + frame
      decreases c.frames - frame
    {
      passed := cam.Start(c.exposure.microseconds, index);
      if passed {
        passed := cam.Command();
      }
      frame := frame + 1;
    }
  }

  /**
   The matrix. A failed case does not end it unless the worker is gone. Whatever earlier cases did or failed to
   do, every exposure starts with exactly the settings of its own case.
   */
  method RunCases(cam: Camera, cases: seq<Case>, ghost keys: set<int>) returns (passed: seq<bool>, finished: bool)
    requires SameKeys(cases, keys)
    modifies cam
    ensures cam.written <= old(cam.written) + keys
    ensures old(cam.starts) <= cam.starts
    ensures forall i | |old(cam.starts)| <= i < |cam.starts| :: OwnSettings(cam, cases, cam.starts[i])
    ensures |passed| <= |cases| && (finished ==> |passed| == |cases|)
    ensures finished && (forall i | 0 <= i < |passed| :: passed[i]) ==>
              Indices(cam.starts) == Indices(old(cam.starts)) + Schedule(cases)
  {
    hide Schedule, Indices, Repeated;
    passed, finished := [], true;
    ghost var all := true;
    var i := 0;
    NothingScheduled(cases, Indices(cam.starts));
    while i < |cases| && finished
      invariant 0 <= i <= |cases| && |passed| == i
      invariant all || exists n :: 0 <= n < i && !passed[n]
      invariant all ==> Indices(cam.starts) == Indices(old(cam.starts)) + Schedule(cases[..i])
      invariant cam.written <= old(cam.written) + keys
      invariant old(cam.starts) <= cam.starts
      invariant forall n | |old(cam.starts)| <= n < |cam.starts| :: OwnSettings(cam, cases, cam.starts[n])
      decreases |cases| - i
    {
      var ok := RunCase(cam, cases, i);
      ScheduleSnoc(cases, i);
      if all && ok {
        assert Indices(old(cam.starts)) + (Schedule(cases[..i]) + Repeated(i, cases[i].frames))
               == (Indices(old(cam.starts)) + Schedule(cases[..i])) + Repeated(i, cases[i].frames);
      }
      assert !ok ==> !(passed + [ok])[i];
      assert forall n | 0 <= n < i :: (passed + [ok])[n] == passed[n];
      passed, all := passed + [ok], all && ok;
      i := i + 1;
      if !ok {
        finished := cam.Command();
      } else if * {
        finished := false;
      }
    }
    assert cases[..|cases|] == cases;
  }

  // ---------------------------------------------------------------- saving and restoring

  predicate Saveable(caps: map<int, Control>, c: int, cooling: bool) {
    (c in IMAGING || (cooling && c in COOLING)) && c in caps && caps[c].writable
  }

  /** The states of every control the exercises may write; incomplete if a read fails. */
  method SaveControls(cam: Camera, caps: map<int, Control>, cooling: bool)
    returns (original: map<int, ControlState>, ok: bool)
    modifies cam`alive
    ensures forall c | c in original :: Saveable(caps, c, cooling) && c in cam.controls && original[c] == cam.controls[c]
    ensures ok ==> forall c | Saveable(caps, c, cooling) :: c in original
  {
    original, ok := map[], true;
    var list := IMAGING + if cooling then COOLING else [];
    for i := 0 to |list|
      invariant forall c | c in original :: Saveable(caps, c, cooling) && c in cam.controls && original[c] == cam.controls[c]
      invariant forall c | c in list[..i] && Saveable(caps, c, cooling) :: c in original
    {
      var c := list[i];
      if c in caps && caps[c].writable {
        var state := cam.Get(c);
        if state.None? {
          return original, false;
        }
        original := original[c := state.value];
      }
    }
    assert list[..|list|] == list;
  }

  /** The commands that put the saved controls of the list back. */
  function Restoring(original: map<int, ControlState>, list: seq<int>): seq<Asked> {
    if list == [] then [] else
    var c := list[|list| - 1];
    Restoring(original, list[..|list| - 1]) + if c in original then [Asked(c, original[c].value, Some(original[c].auto))] else []
  }

  lemma RestoringSnoc(original: map<int, ControlState>, list: seq<int>, i: nat)
    requires i < |list|
    ensures Restoring(original, list[..i + 1]) == Restoring(original, list[..i])
            + if list[i] in original then [Asked(list[i], original[list[i]].value, Some(original[list[i]].auto))] else []
  {
    assert list[..i + 1][..i] == list[..i];
  }

  lemma NothingRestored(original: map<int, ControlState>, asked: seq<Asked>)
    ensures asked + Restoring(original, RESTORE_ORDER[..0]) == asked
  {
  }

  /** Controls are restored in ascending order, the cooler switch after all others. */
  lemma CoolerLast(i: nat, j: nat)
    requires i < j < |RESTORE_ORDER|
    ensures RESTORE_ORDER[i] != 17 && (RESTORE_ORDER[j] == 17 || RESTORE_ORDER[i] < RESTORE_ORDER[j])
  {
  }

  /** Sets each saved control back, in order, and compares what the camera reports. */
  method RestoreControls(cam: Camera, original: map<int, ControlState>) returns (matched: set<int>)
    requires forall c | c in original :: c in IMAGING || c in COOLING
    modifies cam`alive, cam`controls, cam`written, cam`asked
    ensures cam.written == old(cam.written) + original.Keys
    ensures cam.asked == old(cam.asked) + Restoring(original, RESTORE_ORDER)
    ensures matched <= original.Keys
    ensures forall c | c in matched :: c in cam.controls && cam.controls[c] == original[c]
  {
    hide Restoring;
    matched := {};
    NothingRestored(original, cam.asked);
    for i := 0 to |RESTORE_ORDER|
      invariant cam.asked == old(cam.asked) + Restoring(original, RESTORE_ORDER[..i])
      invariant matched <= original.Keys
      invariant forall c | c in matched :: c in RESTORE_ORDER[..i]
      invariant cam.written <= old(cam.written) + original.Keys && old(cam.written) <= cam.written
      invariant forall c | c in original && c in RESTORE_ORDER[..i] :: c in cam.written
      invariant forall c | c in matched :: c in cam.controls && cam.controls[c] == original[c]
    {
      var c := RESTORE_ORDER[i];
      RestoringSnoc(original, RESTORE_ORDER, i);
      assert RESTORE_ORDER[..i + 1] == RESTORE_ORDER[..i] + [c];
      if c in original {
        OrderedOnce(i);
        var actual := cam.SetState(c, original[c]);
        if actual == Some(original[c]) {
          matched := matched + {c};
        }
      }
    }
    assert RESTORE_ORDER[..|RESTORE_ORDER|] == RESTORE_ORDER;
    forall c | c in original {
      Ordered(c);
    }
  }

  lemma Ordered(c: int)
    requires c in IMAGING || c in COOLING
    ensures c in RESTORE_ORDER
  {
  }

  lemma OrderedOnce(i: nat)
    requires i < |RESTORE_ORDER|
    ensures RESTORE_ORDER[i] !in RESTORE_ORDER[..i]
  {
  }

  /** The measurements: the state of every reported temperature and cooling control. */
  ghost predicate Measured(caps: map<int, Control>, controls: map<int, ControlState>, values: map<int, ControlState>) {
    && (forall c :: c in values <==> c in {8, 15, 16, 17, 21} && c in caps)
    && forall c | c in values :: c in controls && values[c] == controls[c]
  }

  method Environment(cam: Camera, caps: map<int, Control>) returns (values: map<int, ControlState>, ok: bool)
    modifies cam`alive
    ensures forall c | c in values :: c in cam.controls && values[c] == cam.controls[c]
    ensures ok ==> Measured(caps, cam.controls, values)
  {
    values, ok := map[], true;
    for i := 0 to |MEASURED|
      invariant forall c :: c in values <==> c in MEASURED[..i] && c in caps
      invariant forall c | c in values :: c in cam.controls && values[c] == cam.controls[c]
    {
      assert MEASURED[..i + 1] == MEASURED[..i] + [MEASURED[i]];
      if MEASURED[i] in caps {
        var state := cam.Get(MEASURED[i]);
        if state.None? {
          return values, false;
        }
        values := values[MEASURED[i] := state.value];
      }
    }
    assert MEASURED[..|MEASURED|] == MEASURED;
  }

  /** The cooling commands: a target two degrees below the measured temperature, within range, then cooler and dew heater on. */
  function Cooling(caps: map<int, Control>, original: map<int, ControlState>, measured: map<int, ControlState>, list: seq<int>): seq<Asked>
    requires forall c | c in original :: c in caps
  {
    if list == [] then [] else
    var c, before := list[|list| - 1], Cooling(caps, original, measured, list[..|list| - 1]);
    if c !in original || (c in {16, 17} && !(8 in measured && 16 in original)) then before
    else if c == 16 then before + [Asked(16, Max(caps[16].min, Min(caps[16].max, Rounded(measured[8].value) - 2)), Some(false))]
    else before + [Asked(c, 1, Some(false))]
  }

  lemma CoolingSnoc(caps: map<int, Control>, original: map<int, ControlState>, measured: map<int, ControlState>, list: seq<int>, i: nat)
    requires i < |list| && forall c | c in original :: c in caps
    ensures var c, before := list[i], Cooling(caps, original, measured, list[..i]);
            Cooling(caps, original, measured, list[..i + 1]) ==
            if c !in original || (c in {16, 17} && !(8 in measured && 16 in original)) then before
            else if c == 16 then before + [Asked(16, Max(caps[16].min, Min(caps[16].max, Rounded(measured[8].value) - 2)), Some(false))]
            else before + [Asked(c, 1, Some(false))]
  {
    assert list[..i + 1][..i] == list[..i];
  }

  lemma NothingCooled(caps: map<int, Control>, original: map<int, ControlState>, measured: map<int, ControlState>, asked: seq<Asked>)
    requires forall c | c in original :: c in caps
    ensures asked + Cooling(caps, original, measured, COOLING[..0]) == asked
  {
  }

  lemma CoolingControls()
    ensures forall i | 0 <= i < |COOLING| :: COOLING[i] in {16, 17, 21}
  {
  }

  /** The temperature is rounded to the nearest whole degree, and halfway to the even one. */
  lemma RoundedExact(tenths: int)
    ensures -5 <= 10 * Rounded(tenths) - tenths <= 5
    ensures 10 * Rounded(tenths) - tenths in {-5, 5} ==> Rounded(tenths) % 2 == 0
  {
  }

  /** The optional cooling exercise: a target near the measured temperature, cooler and dew heater on. */
  method ExerciseCooling(cam: Camera, caps: map<int, Control>, original: map<int, ControlState>) returns (ok: bool)
    requires forall c | c in original :: c in caps
    modifies cam`alive, cam`controls, cam`written, cam`asked
    ensures cam.written <= old(cam.written) + original.Keys
    ensures ok ==> exists measured :: && Measured(caps, old(cam.controls), measured)
                                      && cam.asked == old(cam.asked) + Cooling(caps, original, measured, COOLING)
  {
    var measured, measuredOk := Environment(cam, caps);
    if !measuredOk {
      return false;
    }
    hide Cooling, Rounded;
    NothingCooled(caps, original, measured, cam.asked);
    CoolingControls();
    for i := 0 to |COOLING|
      invariant cam.written <= old(cam.written) + original.Keys
      invariant cam.asked == old(cam.asked) + Cooling(caps, original, measured, COOLING[..i])
    {
      var c := COOLING[i];
      CoolingSnoc(caps, original, measured, COOLING, i);
      if c in original && (c == 21 || (8 in measured && 16 in original)) {
        var value := 1;
        if c == 16 {
          value := Max(caps[c].min, Min(caps[c].max, Rounded(measured[8].value) - 2));
        }
        var actual := cam.SetState(c, ControlState(value, false));
        if actual.None? {
          return false;
        }
      }
    }
    assert COOLING[..|COOLING|] == COOLING;
    assert Measured(caps, old(cam.controls), measured);
    var after, afterOk := Environment(cam, caps);
    return afterOk;
  }

  /** `round(tenths / 10)`: to the nearest degree, halves to the even one. */
  function Rounded(tenths: int): int {
    var down, rest := tenths / 10, tenths % 10;
    if rest < 5 || (rest == 5 && down % 2 == 0) then down else down + 1
  }

  ghost predicate Ends(all: seq<Asked>, before: seq<Asked>, last: seq<Asked>) {
    all == before + last
  }

  /** What the run reports: the verdict is positive only when nothing at all went wrong. */
  datatype Manifest = Manifest(original: map<int, ControlState>, cases: seq<bool>, completed: bool, errors: bool,
                               matched: set<int>) {
    predicate Passed() {
      completed && !errors && matched == original.Keys && forall i | 0 <= i < |cases| :: cases[i]
    }
  }

  /**
   A whole session. Whatever fails on the way, only saved controls are ever written by set commands; and a
   session that passes leaves every control it wrote in the state it found it in.
   */
  method Session(cam: Camera, caps: map<int, Control>, cases: seq<Case>, ghost keys: set<int>,
                 cooling: bool, planOnly: bool, known: bool, afterOpen: map<int, ControlState>) returns (m: Manifest)
    requires cam.alive && cam.written == {} && cam.starts == []
    requires SameKeys(cases, keys) && forall k | k in keys :: Saveable(caps, k, cooling)
    modifies cam
    ensures cam.written <= m.original.Keys
    ensures forall c | c in m.original :: Saveable(caps, c, cooling) && c in old(cam.controls) && m.original[c] == old(cam.controls)[c]
    ensures forall i | 0 <= i < |cam.starts| :: OwnSettings(cam, cases, cam.starts[i])
    ensures m.Passed() ==> Indices(cam.starts) == if planOnly then [] else Schedule(cases)
    ensures m.errors || exists before :: Ends(cam.asked, before, Restoring(m.original, RESTORE_ORDER))
    ensures m.Passed() ==> forall c | c in m.original :: c in cam.controls && cam.controls[c] == old(cam.controls)[c]
    ensures m.Passed() ==> forall c | Saveable(caps, c, cooling) :: c in m.original
  {
    var original, ok := SaveControls(cam, caps, cooling);
    var isOpen, completed, passed := true, false, [];
    if ok {
      forall k | k in keys
        ensures k in original
      {
        assert Saveable(caps, k, cooling);
      }
      ok, isOpen, passed := Exercises(cam, caps, original, cases, keys, cooling, planOnly, afterOpen);
      completed := ok;
    }
    hide Schedule, Indices, OwnSettings, Restoring;
    var failed, matched := CleanUp(cam, caps, original, isOpen, known, afterOpen);
    return Manifest(original, passed, completed, !ok || failed, matched);
  }

  /** Reopening a lost camera if its identity is known, stopping it, restoring its controls and closing it. */
  method CleanUp(cam: Camera, caps: map<int, Control>, original: map<int, ControlState>, isOpen: bool, known: bool,
                 afterOpen: map<int, ControlState>)
    returns (errors: bool, matched: set<int>)
    requires forall c | c in original :: c in IMAGING || c in COOLING
    modifies cam`alive, cam`controls, cam`written, cam`asked
    ensures cam.written <= old(cam.written) + original.Keys && old(cam.written) <= cam.written
    ensures matched <= original.Keys
    ensures forall c | c in matched :: c in cam.controls && cam.controls[c] == original[c]
    ensures errors || Ends(cam.asked, old(cam.asked), Restoring(original, RESTORE_ORDER))
    ensures isOpen && old(cam.alive) ==> Ends(cam.asked, old(cam.asked), Restoring(original, RESTORE_ORDER))
  {
    errors, matched := false, {};
    var open := isOpen;
    if original != map[] && !cam.alive && known {
      open := cam.Reopen(afterOpen);
      if !open {
        return true, matched;
      }
    }
    if open && cam.alive {
      var stopped := cam.Command();
      matched := RestoreControls(cam, original);
      var values, ok := Environment(cam, caps);
      if ok {
        ok := cam.Command();
      }
      errors := !stopped || !ok;
    } else if original != map[] {
      errors := true;
    } else {
      NothingSaved(cam.asked);
    }
  }

  lemma NothingSaved(asked: seq<Asked>)
    ensures Ends(asked, asked, Restoring(map[], RESTORE_ORDER))
  {
    NothingToRestore(RESTORE_ORDER);
  }

  lemma {:induction false} NothingToRestore(list: seq<int>)
    ensures Restoring(map[], list) == []
  {
    if list != [] {
      NothingToRestore(list[..|list| - 1]);
    }
  }

  /** The exercises proper, up to closing and reopening the camera. */
  method Exercises(cam: Camera, caps: map<int, Control>, original: map<int, ControlState>, cases: seq<Case>, ghost keys: set<int>,
                   cooling: bool, planOnly: bool, afterOpen: map<int, ControlState>)
    returns (completed: bool, isOpen: bool, passed: seq<bool>)
    requires SameKeys(cases, keys) && keys <= original.Keys && cam.starts == []
    requires forall c | c in original :: c in caps
    modifies cam
    ensures completed && (forall i | 0 <= i < |passed| :: passed[i]) ==>
              Indices(cam.starts) == if planOnly then [] else Schedule(cases)
    ensures cam.written <= old(cam.written) + original.Keys
    ensures forall i | 0 <= i < |cam.starts| :: OwnSettings(cam, cases, cam.starts[i])
  {
    isOpen, passed := true, [];
    completed := cam.Command();
    if !completed || planOnly {
      return completed, isOpen, passed;
    }
    passed, completed := RunCases(cam, cases, keys);
    if completed && cooling {
      completed := ExerciseCooling(cam, caps, original);
    }
    if completed {
      completed := cam.Command();
      isOpen := !completed;
      if completed {
        completed := cam.Reopen(afterOpen);
        isOpen := completed;
      }
    }
  }
}
