/**
 The hooks that follow a camera driver's asynchronous requests.

 `Tracer` is the script's shared state, changed by one callback at a time. A hooked call is two callbacks, on
 enter and on leave; what the enter keeps for its leave is an out-parameter here and an in-flight `Call` in a
 run. A run interleaves the callbacks of any number of calls in any order.
 */
module TransportTrace {
  import opened Wrappers

  const BULK_READ: int := 0x22004b
  const IO_PENDING: int := 997
  const IO_INCOMPLETE: int := 996

  /** A submitted request; `bulkNumber` is 0 unless it is a bulk read, `overlapped` is 0 for a null pointer. */
  datatype Record = Record(sequence: nat, handle: nat, code: nat, overlapped: nat, bulkNumber: nat) {
    function Key(): (nat, nat) {
      (handle, overlapped)
    }
  }

  datatype Event =
    | DeviceOpen(handle: nat)
    | DeviceClose(handle: nat)
    | Submit(record: Record)
    | Return(sequence: nat, ok: bool, error: int)
    | Complete(sequence: nat, ok: bool, error: int)
    | InjectedCancel(sequence: nat)

  /** The fault-injection switches: bulk reads to cancel by number, and whether to cancel the first one. */
  datatype Options = Options(numbers: set<nat>, first: bool)

  datatype State = State(
    handles: set<nat>, pending: map<(nat, nat), Record>, sequence: nat, bulkNumber: nat,
    cancelled: bool, cancelledNumbers: set<nat>, deferred: seq<Record>, log: seq<Event>)

  const START := State({}, map[], 0, 0, false, {}, [], [])

  // ---------------------------------------------------------------- the callbacks

  function OpenLeave(s: State, camera: bool, handle: Option<nat>): State {
    if camera && handle.Some? then
      s.(handles := s.handles + {handle.value}, log := s.log + [DeviceOpen(handle.value)])
    else s
  }

  function WithoutHandle(pending: map<(nat, nat), Record>, handle: nat): map<(nat, nat), Record> {
    map key | key in pending && pending[key].handle != handle :: pending[key]
  }

  function CloseLeave(s: State, handle: nat, camera: bool, ok: bool): State {
    if camera && ok then
      s.(handles := s.handles - {handle}, pending := WithoutHandle(s.pending, handle), log := s.log + [DeviceClose(handle)])
    else s
  }

  /** The record of a request submitted now, or none on a handle that is not a camera's. */
  function IoRecord(s: State, handle: nat, code: nat, overlapped: nat): Option<Record> {
    if handle !in s.handles then None
    else Some(Record(s.sequence + 1, handle, code, overlapped, if code == BULK_READ then s.bulkNumber + 1 else 0))
  }

  function IoEnter(s: State, handle: nat, code: nat, overlapped: nat): State {
    match IoRecord(s, handle, code, overlapped)
    case None => s
    case Some(record) =>
      s.(sequence := s.sequence + 1,
         bulkNumber := if code == BULK_READ then s.bulkNumber + 1 else s.bulkNumber,
         pending := if overlapped != 0 then s.pending[record.Key() := record] else s.pending,
         log := s.log + [Submit(record)])
  }

  /** The request is still running in the driver, as a cancellable bulk read. */
  predicate Cancellable(record: Record, ok: bool, error: int) {
    record.code == BULK_READ && !ok && error == IO_PENDING && record.overlapped != 0
  }

  predicate CancelsNow(s: State, options: Options, record: Record, ok: bool, error: int) {
    && Cancellable(record, ok, error)
    && record.bulkNumber in options.numbers && record.bulkNumber !in s.cancelledNumbers
  }

  predicate CancelsLater(s: State, options: Options, record: Record, ok: bool, error: int) {
    options.first && !s.cancelled && Cancellable(record, ok, error) && !CancelsNow(s, options, record, ok, error)
  }

  function IoLeave(s: State, options: Options, record: Option<Record>, ok: bool, error: int): State {
    if record.None? then s else
    var r := record.value;
    var now, later := CancelsNow(s, options, r, ok, error), CancelsLater(s, options, r, ok, error);
    s.(log := s.log + [Return(r.sequence, ok, error)] + (if now then [InjectedCancel(r.sequence)] else []),
       cancelled := s.cancelled || now || later,
       cancelledNumbers := if now then s.cancelledNumbers + {r.bulkNumber} else s.cancelledNumbers,
       deferred := if later then s.deferred + [r] else s.deferred,
       pending := if ok || error != IO_PENDING then s.pending - {r.Key()} else s.pending)
  }

  function PollRecord(s: State, key: (nat, nat)): Option<Record> {
    if key in s.pending then Some(s.pending[key]) else None
  }

  function PollLeave(s: State, key: (nat, nat), record: Option<Record>, ok: bool, error: int): State {
    if record.None? then s else
    s.(log := s.log + [Complete(record.value.sequence, ok, error)],
       pending := if ok || error != IO_INCOMPLETE then s.pending - {key} else s.pending)
  }

  function Deferred(s: State): State
    requires s.deferred != []
  {
    s.(deferred := s.deferred[1..], log := s.log + [InjectedCancel(s.deferred[0].sequence)])
  }

  class Tracer {
    const options: Options
    var handles: set<nat>
    var pending: map<(nat, nat), Record>
    var sequence: nat
    var bulkNumber: nat
    var cancelled: bool
    var cancelledNumbers: set<nat>
    var deferred: seq<Record>
    var log: seq<Event>

    ghost function View(): State
      reads this
    {
      State(handles, pending, sequence, bulkNumber, cancelled, cancelledNumbers, deferred, log)
    }

    constructor (options: Options)
      ensures View() == START && this.options == options
    {
      this.options := options;
      handles, pending, sequence, bulkNumber := {}, map[], 0, 0;
      cancelled, cancelledNumbers, deferred, log := false, {}, [], [];
    }

    method OnCreateFileLeave(camera: bool, handle: Option<nat>)
      modifies this
      ensures View() == OpenLeave(old(View()), camera, handle)
    {
      if camera && handle.Some? {
        handles := handles + {handle.value};
        log := log + [DeviceOpen(handle.value)];
      }
    }

    method OnCloseHandleEnter(handle: nat) returns (camera: bool)
      ensures camera <==> handle in View().handles
    {
      camera := handle in handles;
    }

    method OnCloseHandleLeave(handle: nat, camera: bool, ok: bool)
      modifies this
      ensures View() == CloseLeave(old(View()), handle, camera, ok)
    {
      if camera && ok {
        handles := handles - {handle};
        var left := pending.Keys;
        ghost var before := pending;
        while left != {}
          invariant left <= before.Keys
          invariant pending.Keys <= before.Keys
          invariant forall key | key in before ::
                      key in pending <==> key in left || before[key].handle != handle
          invariant forall key | key in pending :: pending[key] == before[key]
          invariant handles == old(handles) - {handle} && log == old(log) && deferred == old(deferred)
          invariant sequence == old(sequence) && bulkNumber == old(bulkNumber)
          invariant cancelled == old(cancelled) && cancelledNumbers == old(cancelledNumbers)
          decreases left
        {
          var key :| key in left;
          if pending[key].handle == handle {
            pending := pending - {key};
          }
          left := left - {key};
        }
        assert pending == WithoutHandle(before, handle);
        log := log + [DeviceClose(handle)];
      }
    }

    method OnDeviceIoControlEnter(handle: nat, code: nat, overlapped: nat) returns (record: Option<Record>)
      modifies this
      ensures record == IoRecord(old(View()), handle, code, overlapped)
      ensures View() == IoEnter(old(View()), handle, code, overlapped)
    {
      if handle !in handles {
        return None;
      }
      sequence := sequence + 1;
      var number := 0;
      if code == BULK_READ {
        bulkNumber := bulkNumber + 1;
        number := bulkNumber;
      }
      var r := Record(sequence, handle, code, overlapped, number);
      log := log + [Submit(r)];
      if overlapped != 0 {
        pending := pending[r.Key() := r];
      }
      return Some(r);
    }

    method OnDeviceIoControlLeave(record: Option<Record>, ok: bool, error: int)
      modifies this
      ensures View() == IoLeave(old(View()), options, record, ok, error)
    {
      if record.None? {
        return;
      }
      var r := record.value;
      log := log + [Return(r.sequence, ok, error)];
      if r.code == BULK_READ && r.bulkNumber in options.numbers && r.bulkNumber !in cancelledNumbers
         && !ok && error == IO_PENDING && r.overlapped != 0 {
        cancelled := true;
        cancelledNumbers := cancelledNumbers + {r.bulkNumber};
        log := log + [InjectedCancel(r.sequence)];
      }
      if options.first && !cancelled && r.code == BULK_READ && !ok && error == IO_PENDING && r.overlapped != 0 {
        cancelled := true;
        deferred := deferred + [r];
      }
      if ok || error != IO_PENDING {
        pending := pending - {r.Key()};
      }
    }

    method OnGetOverlappedResultEnter(handle: nat, overlapped: nat) returns (record: Option<Record>)
      ensures record == PollRecord(View(), (handle, overlapped))
    {
      record := if (handle, overlapped) in pending then Some(pending[(handle, overlapped)]) else None;
    }

    method OnGetOverlappedResultLeave(handle: nat, overlapped: nat, record: Option<Record>, ok: bool, error: int)
      modifies this
      ensures View() == PollLeave(old(View()), (handle, overlapped), record, ok, error)
    {
      if record.None? {
        return;
      }
      log := log + [Complete(record.value.sequence, ok, error)];
      if ok || error != IO_INCOMPLETE {
        pending := pending - {(handle, overlapped)};
      }
    }

    method OnImmediate()
      requires deferred != []
      modifies this
      ensures View() == Deferred(old(View()))
    {
      var saved := deferred[0];
      deferred := deferred[1..];
      log := log + [InjectedCancel(saved.sequence)];
    }
  }

  // ---------------------------------------------------------------- runs

  /** A hooked call between its two callbacks. */
  datatype Call =
    | Closing(handle: nat, camera: bool)
    | Submitting(key: (nat, nat), record: Option<Record>)
    | Polling(key: (nat, nat), record: Option<Record>)

  datatype System = System(state: State, calls: map<nat, Call>)

  datatype Action =
    | Open(camera: bool, result: Option<nat>)
    | EnterClose(call: nat, handle: nat)
    | LeaveClose(call: nat, ok: bool)
    | EnterIo(call: nat, handle: nat, code: nat, overlapped: nat)
    | LeaveIo(call: nat, ok: bool, error: int)
    | EnterPoll(call: nat, handle: nat, overlapped: nat)
    | LeavePoll(call: nat, ok: bool, error: int)
    | RunDeferred

  predicate Enabled(y: System, a: Action) {
    match a
    case Open(_, _) => true
    case EnterClose(c, _) => c !in y.calls
    case EnterIo(c, _, _, _) => c !in y.calls
    case EnterPoll(c, _, _) => c !in y.calls
    case LeaveClose(c, _) => c in y.calls && y.calls[c].Closing?
    case LeaveIo(c, _, _) => c in y.calls && y.calls[c].Submitting?
    case LeavePoll(c, _, _) => c in y.calls && y.calls[c].Polling?
    case RunDeferred => y.state.deferred != []
  }

  function Step(y: System, o: Options, a: Action): System
    requires Enabled(y, a)
  {
    match a
    case Open(camera, result) => y.(state := OpenLeave(y.state, camera, result))
    case EnterClose(c, handle) => y.(calls := y.calls[c := Closing(handle, handle in y.state.handles)])
    case LeaveClose(c, ok) => System(CloseLeave(y.state, y.calls[c].handle, y.calls[c].camera, ok), y.calls - {c})
    case EnterIo(c, handle, code, overlapped) =>
      System(IoEnter(y.state, handle, code, overlapped),
             y.calls[c := Submitting((handle, overlapped), IoRecord(y.state, handle, code, overlapped))])
    case LeaveIo(c, ok, error) => System(IoLeave(y.state, o, y.calls[c].record, ok, error), y.calls - {c})
    case EnterPoll(c, handle, overlapped) =>
      y.(calls := y.calls[c := Polling((handle, overlapped), PollRecord(y.state, (handle, overlapped)))])
    case LeavePoll(c, ok, error) =>
      System(PollLeave(y.state, y.calls[c].key, y.calls[c].record, ok, error), y.calls - {c})
    case RunDeferred => y.(state := Deferred(y.state))
  }

  /** The run is possible: every callback happens when it can. */
  predicate Possible(o: Options, run: seq<Action>)
    decreases |run|, 0
  {
    run == [] || (Possible(o, run[..|run| - 1]) && Enabled(After(o, run[..|run| - 1]), run[|run| - 1]))
  }

  function After(o: Options, run: seq<Action>): System
    requires Possible(o, run)
    decreases |run|, 1
  {
    if run == [] then System(START, map[]) else Step(After(o, run[..|run| - 1]), o, run[|run| - 1])
  }

  // ---------------------------------------------------------------- what every run keeps

  /** The sequence is submitted in the log as exactly this record. */
  ghost predicate Logged(log: seq<Event>, r: Record) {
    Submit(r) in log
  }

  ghost predicate KeptLog(s: State) {
    && (forall r | Logged(s.log, r) :: 1 <= r.sequence <= s.sequence)
    && (forall r, q | Logged(s.log, r) && Logged(s.log, q) && r.sequence == q.sequence :: r == q)
  }

  ghost predicate KeptPending(s: State) {
    forall key | key in s.pending :: && s.pending[key].Key() == key && key.0 in s.handles
                                     && Logged(s.log, s.pending[key])
  }

  ghost predicate KeptCall(s: State, call: Call) {
    !call.Closing? && call.record.Some? ==> Logged(s.log, call.record.value) && call.record.value.Key() == call.key
  }

  ghost predicate Kept(y: System) {
    && KeptLog(y.state) && KeptPending(y.state)
    && (forall c | c in y.calls :: KeptCall(y.state, y.calls[c]))
    && (forall r | r in y.state.deferred :: Logged(y.state.log, r))
  }

  lemma {:induction false} AlwaysKept(o: Options, run: seq<Action>)
    requires Possible(o, run)
    ensures Kept(After(o, run))
  {
    if run != [] {
      AlwaysKept(o, run[..|run| - 1]);
      StepKeeps(After(o, run[..|run| - 1]), o, run[|run| - 1]);
    }
  }

  /** Only a submission adds a logged record. */
  lemma LogGrows(before: seq<Event>, more: seq<Event>)
    requires forall e | e in more :: !e.Submit?
    ensures forall r :: Logged(before + more, r) <==> Logged(before, r)
  {
  }

  lemma EnterIoKeeps(y: System, o: Options, a: Action)
    requires Kept(y) && a.EnterIo? && Enabled(y, a)
    ensures Kept(Step(y, o, a))
  {
  }

  lemma LeaveIoKeeps(y: System, o: Options, a: Action)
    requires Kept(y) && a.LeaveIo? && Enabled(y, a)
    ensures Kept(Step(y, o, a))
  {
  }

  lemma OtherStepKeeps(y: System, o: Options, a: Action)
    requires Kept(y) && !a.EnterIo? && !a.LeaveIo? && Enabled(y, a)
    ensures Kept(Step(y, o, a))
  {
    var s, z := y.state, Step(y, o, a);
    assert z.state.log == s.log + z.state.log[|s.log|..];
    LogGrows(s.log, z.state.log[|s.log|..]);
  }

  lemma StepKeeps(y: System, o: Options, a: Action)
    requires Kept(y) && Enabled(y, a)
    ensures Kept(Step(y, o, a))
  {
    hide Kept;
    if a.EnterIo? {
      EnterIoKeeps(y, o, a);
    } else if a.LeaveIo? {
      LeaveIoKeeps(y, o, a);
    } else {
      OtherStepKeeps(y, o, a);
    }
  }

  /**
   Over every interleaving: each tracked request belongs to an open camera handle and is filed under its own
   handle and OVERLAPPED; no two tracked requests share a sequence; and what a poll will report is a request
   submitted on the polled handle and OVERLAPPED.
   */
  lemma PendingTracked(o: Options, run: seq<Action>)
    requires Possible(o, run)
    ensures var y := After(o, run);
            && (forall key | key in y.state.pending :: y.state.pending[key].Key() == key && key.0 in y.state.handles)
            && (forall j, k | j in y.state.pending && k in y.state.pending && j != k ::
                  y.state.pending[j].sequence != y.state.pending[k].sequence)
            && (forall c | c in y.calls && y.calls[c].Polling? && y.calls[c].record.Some? ::
                  Submit(y.calls[c].record.value) in y.state.log && y.calls[c].record.value.Key() == y.calls[c].key)
  {
    AlwaysKept(o, run);
    var y := After(o, run);
    forall c | c in y.calls && y.calls[c].Polling? && y.calls[c].record.Some?
      ensures Submit(y.calls[c].record.value) in y.state.log
    {
      assert KeptCall(y.state, y.calls[c]);
    }
  }
}
