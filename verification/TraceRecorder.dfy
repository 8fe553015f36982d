/**
 The bounded recorder of trace messages: a log, optional USB samples with an index, and an error that, once set,
 stops recording.

 A line's size is decided by its JSON text, so it is an argument; so is whatever goes wrong while a message is
 handled.
 */
module TraceRecorder {
  import opened Wrappers
  import TransportTrace

  const MAX_LOG: int := 67108864
  const MAX_SAMPLES: int := 268435456

  datatype Value =
    | Submission(sequence: int, code: nat)
    | BulkData(sequence: int, bytes: nat, digest: string, saved: bool)
    | Note

  /** A line of the log and the bytes counted for it. */
  datatype Line = Line(value: Value, size: nat)

  /** An entry of the sample index. */
  datatype Sample = Sample(sequence: int, bytes: nat, digest: string)

  datatype Message =
    | NotSent
    | Submitted(sequence: int, code: nat)
    | BulkInput(sequence: int, bytes: nat, digest: string)
    | Other

  /** What raises while a message is handled: nothing, its contents, the sample file, or the log file. */
  datatype Fault = Nothing | Contents | SampleFile | LogFile

  datatype Error = LogFull | SamplesFull | Instrumentation | Raised

  datatype State = State(
    accepting: bool, error: Option<Error>, logBytes: nat, sampleBytes: nat, bulkCount: nat,
    sampling: bool, log: seq<Line>, samples: seq<Sample>)

  const START := State(true, None, 0, 0, 0, false, [], [])

  // ---------------------------------------------------------------- what the methods do

  predicate Recording(s: State) {
    s.accepting && s.error.None?
  }

  /** `record`; a failing log file raises to the caller with nothing counted. */
  function Recorded(s: State, value: Value, size: nat, fault: Fault): Result<State, ()> {
    if !Recording(s) then Ok(s)
    else if s.logBytes + size > MAX_LOG then Ok(s.(error := Some(LogFull)))
    else if fault.LogFile? then Err(())
    else Ok(s.(log := s.log + [Line(value, size)], logBytes := s.logBytes + size))
  }

  /** `message` catches whatever `record` raises. */
  function RecordedOrRaised(s: State, value: Value, size: nat, fault: Fault): State {
    match Recorded(s, value, size, fault) case Ok(t) => t case Err(_) => s.(error := Some(Raised))
  }

  function Handled(s: State, m: Message, size: nat, fault: Fault): State {
    if !Recording(s) then s
    else if fault.Contents? then s.(error := Some(Raised))
    else match m
      case NotSent =>
        var t := RecordedOrRaised(s, Note, size, fault);
        if t.error == Some(Raised) then t else t.(error := Some(Instrumentation))
      case Submitted(sequence, code) =>
        var counted := if code == TransportTrace.BULK_READ then s.(bulkCount := s.bulkCount + 1) else s;
        RecordedOrRaised(counted, Submission(sequence, code), size, fault)
      case BulkInput(sequence, bytes, digest) =>
        if !s.sampling then RecordedOrRaised(s, BulkData(sequence, bytes, digest, false), size, fault)
        else if s.sampleBytes + bytes > MAX_SAMPLES then s.(error := Some(SamplesFull))
        else if fault.SampleFile? then s.(error := Some(Raised))
        else
          var saved := s.(sampleBytes := s.sampleBytes + bytes,
                          samples := s.samples + [Sample(sequence, bytes, digest)]);
          RecordedOrRaised(saved, BulkData(sequence, bytes, digest, true), size, fault)
      case Other => RecordedOrRaised(s, Note, size, fault)
  }

  class Trace {
    var accepting: bool
    var error: Option<Error>
    var logBytes: nat
    var sampleBytes: nat
    var bulkCount: nat
    var sampling: bool
    var log: seq<Line>
    var samples: seq<Sample>

    ghost function View(): State
      reads this
    {
      State(accepting, error, logBytes, sampleBytes, bulkCount, sampling, log, samples)
    }

    constructor ()
      ensures View() == START
    {
      accepting, error, logBytes, sampleBytes, bulkCount := true, None, 0, 0, 0;
      sampling, log, samples := false, [], [];
    }

    method Record(value: Value, size: nat, fault: Fault) returns (raised: bool)
      modifies this
      ensures raised <==> Recorded(old(View()), value, size, fault).Err?
      ensures View() == if raised then old(View()) else Recorded(old(View()), value, size, fault).value
    {
      if !accepting || error.Some? {
        return false;
      }
      if logBytes + size > MAX_LOG {
        error := Some(LogFull);
        return false;
      }
      if fault.LogFile? {
        return true;
      }
      log := log + [Line(value, size)];
      logBytes := logBytes + size;
      return false;
    }

    method OnMessage(m: Message, size: nat, fault: Fault)
      modifies this
      ensures View() == Handled(old(View()), m, size, fault)
    {
      if !accepting || error.Some? {
        return;
      }
      var raised := false;
      if fault.Contents? {
        raised := true;
      } else {
        match m
        case NotSent =>
          raised := Record(Note, size, fault);
          if !raised {
            error := Some(Instrumentation);
          }
        case Submitted(sequence, code) =>
          if code == TransportTrace.BULK_READ {
            bulkCount := bulkCount + 1;
          }
          raised := Record(Submission(sequence, code), size, fault);
        case BulkInput(sequence, bytes, digest) =>
          if sampling {
            if sampleBytes + bytes > MAX_SAMPLES {
              error := Some(SamplesFull);
              return;
            }
            if fault.SampleFile? {
              raised := true;
            } else {
              sampleBytes := sampleBytes + bytes;
              samples := samples + [Sample(sequence, bytes, digest)];
              raised := Record(BulkData(sequence, bytes, digest, true), size, fault);
            }
          } else {
            raised := Record(BulkData(sequence, bytes, digest, false), size, fault);
          }
        case Other =>
          raised := Record(Note, size, fault);
      }
      if raised {
        error := Some(Raised);
      }
    }

    method Close()
      modifies this
      ensures View() == old(View()).(accepting := false)
    {
      accepting := false;
    }
  }

  // ---------------------------------------------------------------- runs

  /** Messages from the instrumented process, notes from the host client, and the kit's own switches. */
  datatype Action =
    | Deliver(m: Message, size: nat, fault: Fault)
    | HostNote(size: nat, fault: Fault)
    | Sampling(on: bool)
    | Shut

  function Step(s: State, a: Action): State {
    match a
    case Deliver(m, size, fault) => Handled(s, m, size, fault)
    case HostNote(size, fault) => (match Recorded(s, Note, size, fault) case Ok(t) => t case Err(_) => s)
    case Sampling(on) => s.(sampling := on)
    case Shut => s.(accepting := false)
  }

  function After(run: seq<Action>): State {
    if run == [] then START else Step(After(run[..|run| - 1]), run[|run| - 1])
  }

  function LineBytes(log: seq<Line>): nat {
    if log == [] then 0 else LineBytes(log[..|log| - 1]) + log[|log| - 1].size
  }

  function SampleBytes(samples: seq<Sample>): nat {
    if samples == [] then 0 else SampleBytes(samples[..|samples| - 1]) + samples[|samples| - 1].bytes
  }

  function BulkOf(value: Value): nat {
    if value.Submission? && value.code == TransportTrace.BULK_READ then 1 else 0
  }

  function SavedOf(value: Value): seq<Sample> {
    if value.BulkData? && value.saved then [Sample(value.sequence, value.bytes, value.digest)] else []
  }

  /** The bulk reads submitted according to the log. */
  function BulkLines(log: seq<Line>): nat {
    if log == [] then 0 else BulkLines(log[..|log| - 1]) + BulkOf(log[|log| - 1].value)
  }

  /** The samples according to the log. */
  function SavedLines(log: seq<Line>): seq<Sample> {
    if log == [] then [] else SavedLines(log[..|log| - 1]) + SavedOf(log[|log| - 1].value)
  }

  /**
   Counters agree with contents and stay within budget. While no error is set, the sample index and the bulk
   count are exactly what the log says; an error can leave each ahead of the log by at most one.
   */
  ghost predicate Consistent(s: State) {
    && s.logBytes == LineBytes(s.log) <= MAX_LOG
    && s.sampleBytes == SampleBytes(s.samples) <= MAX_SAMPLES
    && (s.samples == SavedLines(s.log)
        || (s.error.Some? && s.samples != [] && s.samples[..|s.samples| - 1] == SavedLines(s.log)))
    && (s.bulkCount == BulkLines(s.log) || (s.error.Some? && s.bulkCount == BulkLines(s.log) + 1))
  }

  lemma LogSnoc(log: seq<Line>, line: Line)
    ensures LineBytes(log + [line]) == LineBytes(log) + line.size
    ensures BulkLines(log + [line]) == BulkLines(log) + BulkOf(line.value)
    ensures SavedLines(log + [line]) == SavedLines(log) + SavedOf(line.value)
  {
  }

  /** `value` has been counted and indexed, and its line is about to be written. */
  ghost predicate Owes(s: State, value: Value) {
    && Recording(s)
    && s.logBytes == LineBytes(s.log) <= MAX_LOG
    && s.sampleBytes == SampleBytes(s.samples) <= MAX_SAMPLES
    && s.samples == SavedLines(s.log) + SavedOf(value)
    && s.bulkCount == BulkLines(s.log) + BulkOf(value)
  }

  lemma RecordConsistent(s: State, value: Value, size: nat, fault: Fault)
    requires Owes(s, value)
    ensures Consistent(RecordedOrRaised(s, value, size, fault))
  {
    hide LineBytes, BulkLines, SavedLines, SampleBytes;
    LogSnoc(s.log, Line(value, size));
    if SavedOf(value) == [] {
      assert s.samples == SavedLines(s.log);
    } else {
      assert s.samples[..|s.samples| - 1] == SavedLines(s.log);
    }
  }

  /** With no error set, a consistent recorder owes nothing. */
  lemma NothingOwed(s: State, value: Value)
    requires Consistent(s) && Recording(s) && SavedOf(value) == [] && BulkOf(value) == 0
    ensures Owes(s, value)
  {
  }

  lemma SubmissionOwed(s: State, value: Value)
    requires Consistent(s) && Recording(s) && value.Submission?
    ensures Owes(s.(bulkCount := s.bulkCount + BulkOf(value)), value)
  {
  }

  lemma SampleOwed(s: State, value: Value)
    requires Consistent(s) && Recording(s) && value.BulkData? && value.saved && s.sampleBytes + value.bytes <= MAX_SAMPLES
    ensures Owes(s.(sampleBytes := s.sampleBytes + value.bytes, samples := s.samples + SavedOf(value)), value)
  {
  }

  lemma HandledConsistent(s: State, m: Message, size: nat, fault: Fault)
    requires Consistent(s)
    ensures Consistent(Handled(s, m, size, fault))
  {
    hide LineBytes, BulkLines, SavedLines, SampleBytes, Owes;
    if Recording(s) && !fault.Contents? {
      match m
      case Submitted(sequence, code) =>
        var value := Submission(sequence, code);
        SubmissionOwed(s, value);
        RecordConsistent(s.(bulkCount := s.bulkCount + BulkOf(value)), value, size, fault);
      case BulkInput(sequence, bytes, digest) =>
        var value := BulkData(sequence, bytes, digest, s.sampling);
        if !s.sampling {
          NothingOwed(s, value);
          RecordConsistent(s, value, size, fault);
        } else if s.sampleBytes + bytes <= MAX_SAMPLES && !fault.SampleFile? {
          SampleOwed(s, value);
          RecordConsistent(s.(sampleBytes := s.sampleBytes + bytes, samples := s.samples + SavedOf(value)),
                           value, size, fault);
        }
      case _ =>
        NothingOwed(s, Note);
        RecordConsistent(s, Note, size, fault);
    }
  }

  lemma StepConsistent(s: State, a: Action)
    requires Consistent(s)
    ensures Consistent(Step(s, a))
  {
    match a
    case Deliver(m, size, fault) => HandledConsistent(s, m, size, fault);
    case HostNote(size, fault) =>
      if Recording(s) {
        NothingOwed(s, Note);
        RecordConsistent(s, Note, size, fault);
      }
    case _ =>
  }

  /** Over every sequence of messages, faults and switches the recorder stays within budget and consistent. */
  lemma {:induction false} AlwaysConsistent(run: seq<Action>)
    ensures Consistent(After(run))
  {
    if run != [] {
      AlwaysConsistent(run[..|run| - 1]);
      StepConsistent(After(run[..|run| - 1]), run[|run| - 1]);
    }
  }

  /** Once an error is set, or the recorder closed, nothing recorded or counted ever changes, nor the error. */
  lemma {:induction false} Frozen(run: seq<Action>, more: seq<Action>)
    requires !Recording(After(run))
    ensures var s, t := After(run), After(run + more);
            && !Recording(t) && t.error == s.error && t.log == s.log && t.samples == s.samples
            && t.logBytes == s.logBytes && t.sampleBytes == s.sampleBytes && t.bulkCount == s.bulkCount
  {
    if more == [] {
      assert run + more == run;
    } else {
      Frozen(run, more[..|more| - 1]);
      assert (run + more)[..|run + more| - 1] == run + more[..|more| - 1];
    }
  }

  /** Line `n` of the log describes the sample. */
  ghost predicate Describes(log: seq<Line>, n: int, sample: Sample) {
    0 <= n < |log| && SavedOf(log[n].value) == [sample]
  }

  /** A run that ends without an error lost nothing: its index and count are those of the log, line by line. */
  lemma ErrorFreeRun(run: seq<Action>)
    requires After(run).error.None?
    ensures After(run).samples == SavedLines(After(run).log)
    ensures After(run).bulkCount == BulkLines(After(run).log)
    ensures forall sample | sample in After(run).samples :: exists n :: Describes(After(run).log, n, sample)
  {
    AlwaysConsistent(run);
    var log := After(run).log;
    forall sample | sample in SavedLines(log)
      ensures exists n :: Describes(log, n, sample)
    {
      var n := LineOf(log, sample);
    }
  }

  lemma {:induction false} LineOf(log: seq<Line>, sample: Sample) returns (n: nat)
    requires sample in SavedLines(log)
    ensures Describes(log, n, sample)
  {
    var front := log[..|log| - 1];
    if sample in SavedLines(front) {
      n := LineOf(front, sample);
    } else {
      n := |log| - 1;
    }
  }

  // ---------------------------------------------------------------- what an error-free log holds

  /** The recorder has not been closed. */
  predicate Open(run: seq<Action>) {
    run == [] || (Open(run[..|run| - 1]) && !run[|run| - 1].Shut?)
  }

  /** Samples were last switched on. */
  predicate SamplesOn(run: seq<Action>) {
    run != [] && if run[|run| - 1].Sampling? then run[|run| - 1].on else SamplesOn(run[..|run| - 1])
  }

  function ValueOf(m: Message, sampling: bool): Value {
    match m
    case Submitted(sequence, code) => Submission(sequence, code)
    case BulkInput(sequence, bytes, digest) => BulkData(sequence, bytes, digest, sampling)
    case _ => Note
  }

  /** One value for each message delivered, and each host note that could be written, before the recorder closed. */
  function Delivered(run: seq<Action>): seq<Value> {
    if run == [] then [] else
    var front := run[..|run| - 1];
    Delivered(front) +
    if !Open(front) then [] else
    match run[|run| - 1]
    case Deliver(m, _, _) => [ValueOf(m, SamplesOn(front))]
    case HostNote(_, fault) => if fault.LogFile? then [] else [Note]
    case _ => []
  }

  function Values(log: seq<Line>): seq<Value> {
    if log == [] then [] else Values(log[..|log| - 1]) + [log[|log| - 1].value]
  }

  lemma ErrorFreeStep(s: State, a: Action)
    requires Step(s, a).error.None?
    ensures s.error.None?
    ensures Step(s, a).accepting == (s.accepting && !a.Shut?)
    ensures Step(s, a).sampling == if a.Sampling? then a.on else s.sampling
    ensures Step(s, a).log ==
            match a
            case Deliver(m, size, _) => if s.accepting then s.log + [Line(ValueOf(m, s.sampling), size)] else s.log
            case HostNote(size, fault) => if s.accepting && !fault.LogFile? then s.log + [Line(Note, size)] else s.log
            case _ => s.log
  {
  }

  lemma ValuesSnoc(log: seq<Line>, line: Line)
    ensures Values(log + [line]) == Values(log) + [line.value]
  {
    assert (log + [line])[..|log|] == log;
  }

  /** Nothing is dropped, invented or reordered: without an error the log is what was delivered, in order. */
  lemma {:induction false} LogComplete(run: seq<Action>)
    requires After(run).error.None?
    ensures Values(After(run).log) == Delivered(run)
    ensures After(run).accepting == Open(run) && After(run).sampling == SamplesOn(run)
  {
    if run != [] {
      var front, a := run[..|run| - 1], run[|run| - 1];
      ErrorFreeStep(After(front), a);
      LogComplete(front);
      hide Step;
      var s, t := After(front), Step(After(front), a);
      if |t.log| > |s.log| {
        ValuesSnoc(s.log, t.log[|s.log|]);
      } else {
        assert Delivered(front) + [] == Delivered(front);
      }
    }
  }

  // ---------------------------------------------------------------- when an error is set, and which

  /** The bytes of the lines that reached the log by now, had nothing gone wrong. */
  function WrittenBytes(run: seq<Action>): nat {
    if run == [] then 0 else
    var front := run[..|run| - 1];
    WrittenBytes(front) +
    if !Open(front) then 0 else
    match run[|run| - 1]
    case Deliver(_, size, _) => size
    case HostNote(size, fault) => if fault.LogFile? then 0 else size
    case _ => 0
  }

  /** The bytes of the samples kept by now, had nothing gone wrong. */
  function SavedBytes(run: seq<Action>): nat {
    if run == [] then 0 else
    var front, a := run[..|run| - 1], run[|run| - 1];
    SavedBytes(front) + if Open(front) && SamplesOn(front) && a.Deliver? && a.m.BulkInput? then a.m.bytes else 0
  }

  /** What goes wrong with an action, after a run in which nothing did. */
  function Trouble(front: seq<Action>, a: Action): Option<Error> {
    if !Open(front) then None else
    match a
    case HostNote(size, _) => if WrittenBytes(front) + size > 67108864 then Some(LogFull) else None
    case Deliver(m, size, fault) =>
      if fault.Contents? then Some(Raised)
      else if m.BulkInput? && SamplesOn(front) && SavedBytes(front) + m.bytes > 268435456 then Some(SamplesFull)
      else if m.BulkInput? && SamplesOn(front) && fault.SampleFile? then Some(Raised)
      else if WrittenBytes(front) + size > 67108864 then Some(if m.NotSent? then Instrumentation else LogFull)
      else if fault.LogFile? then Some(Raised)
      else if m.NotSent? then Some(Instrumentation)
      else None
    case _ => None
  }

  /** The first trouble of the run. */
  function FirstTrouble(run: seq<Action>): Option<Error> {
    if run == [] then None else
    var front := run[..|run| - 1];
    if FirstTrouble(front).Some? then FirstTrouble(front) else Trouble(front, run[|run| - 1])
  }

  /**
   Over every sequence: the error is the first trouble, decided by the sizes delivered and the faults alone, and
   without one the counters are the bytes delivered.
   */
  lemma {:induction false} ErrorExact(run: seq<Action>)
    ensures After(run).error == FirstTrouble(run)
    ensures After(run).accepting == Open(run) && After(run).sampling == SamplesOn(run)
    ensures After(run).error.None? ==> After(run).logBytes == WrittenBytes(run) && After(run).sampleBytes == SavedBytes(run)
  {
    if run != [] {
      var front, a := run[..|run| - 1], run[|run| - 1];
      ErrorExact(front);
      StepError(After(front), a, front);
    }
  }

  /** What one message does to the error and the counters. */
  lemma DeliveredError(s: State, front: seq<Action>, m: Message, size: nat, fault: Fault)
    requires s.accepting && s.accepting == Open(front) && s.sampling == SamplesOn(front) && s.error.None?
    requires s.logBytes == WrittenBytes(front) && s.sampleBytes == SavedBytes(front)
    ensures var z := Handled(s, m, size, fault);
            && z.error == Trouble(front, Deliver(m, size, fault)) && z.accepting && z.sampling == s.sampling
            && (z.error.None? ==>
                  && z.logBytes == s.logBytes + size
                  && z.sampleBytes == s.sampleBytes + if s.sampling && m.BulkInput? then m.bytes else 0)
  {
    hide WrittenBytes, SavedBytes, Open, SamplesOn;
  }

  lemma StepError(s: State, a: Action, front: seq<Action>)
    requires s.accepting == Open(front) && s.sampling == SamplesOn(front)
    requires s.error.None? ==> s.logBytes == WrittenBytes(front) && s.sampleBytes == SavedBytes(front)
    ensures var z := Step(s, a);
            && z.error == (if s.error.Some? then s.error else Trouble(front, a))
            && z.accepting == (s.accepting && !a.Shut?) && z.sampling == (if a.Sampling? then a.on else s.sampling)
            && (z.error.None? ==>
                  && z.logBytes == s.logBytes + (if !s.accepting then 0
                                                 else match a
                                                      case Deliver(_, size, _) => size
                                                      case HostNote(size, fault) => if fault.LogFile? then 0 else size
                                                      case _ => 0)
                  && z.sampleBytes == s.sampleBytes + (if s.accepting && s.sampling && a.Deliver? && a.m.BulkInput? then a.m.bytes else 0))
  {
    hide WrittenBytes, SavedBytes, Open, SamplesOn;
    if a.Deliver? && Recording(s) {
      DeliveredError(s, front, a.m, a.size, a.fault);
      hide Handled, Trouble;
    }
  }
}
