/**
 What each callback logs and decides, from the log alone: which handles are cameras', how a submission is numbered,
 and when a return cancels its request.
 */
module TransportLog {
  import opened Wrappers
  import opened TransportTrace
  import opened TransportOutcomes

  /** The last open or close of the handle in the log is an open. */
  predicate OpenIn(log: seq<Event>, handle: nat) {
    log != [] &&
    var e := log[|log| - 1];
    e == DeviceOpen(handle) || (e != DeviceClose(handle) && OpenIn(log[..|log| - 1], handle))
  }

  /** The submissions in the log. */
  function Submits(log: seq<Event>): nat {
    if log == [] then 0 else Submits(log[..|log| - 1]) + if log[|log| - 1].Submit? then 1 else 0
  }

  predicate BulkSubmit(e: Event) {
    e.Submit? && e.record.code == 0x22004b
  }

  /** The bulk reads submitted in the log. */
  function Bulks(log: seq<Event>): nat {
    if log == [] then 0 else Bulks(log[..|log| - 1]) + if BulkSubmit(log[|log| - 1]) then 1 else 0
  }

  /** Every submission bears its place among all submissions, and a bulk read its place among the bulk reads. */
  ghost predicate Numbered(log: seq<Event>) {
    forall i | 0 <= i < |log| && log[i].Submit? ::
      && log[i].record.sequence == Submits(log[..i + 1])
      && log[i].record.bulkNumber == if log[i].record.code == 0x22004b then Bulks(log[..i + 1]) else 0
  }

  /** What the variables hold, in terms of the log. */
  ghost predicate Told(s: State) {
    && (forall h :: h in s.handles <==> OpenIn(s.log, h))
    && s.sequence == Submits(s.log) && s.bulkNumber == Bulks(s.log)
    && Numbered(s.log)
  }

  lemma ToldSnoc(log: seq<Event>, e: Event)
    ensures forall h :: OpenIn(log + [e], h) <==> e == DeviceOpen(h) || (e != DeviceClose(h) && OpenIn(log, h))
    ensures Submits(log + [e]) == Submits(log) + if e.Submit? then 1 else 0
    ensures Bulks(log + [e]) == Bulks(log) + if BulkSubmit(e) then 1 else 0
  {
    assert (log + [e])[..|log|] == log;
  }

  lemma NumberedSnoc(log: seq<Event>, e: Event)
    requires Numbered(log)
    requires e.Submit? ==> && e.record.sequence == Submits(log) + 1
                           && e.record.bulkNumber == if e.record.code == 0x22004b then Bulks(log) + 1 else 0
    ensures Numbered(log + [e])
  {
    var more := log + [e];
    ToldSnoc(log, e);
    forall i | 0 <= i < |more| && more[i].Submit?
      ensures && more[i].record.sequence == Submits(more[..i + 1])
              && more[i].record.bulkNumber == if more[i].record.code == 0x22004b then Bulks(more[..i + 1]) else 0
    {
      if i < |log| {
        assert more[..i + 1] == log[..i + 1];
      } else {
        assert more[..i + 1] == more;
      }
    }
  }

  /** One more event that the variables keep up with. */
  lemma EventTold(s: State, z: State, e: Event)
    requires Told(s) && z.log == s.log + [e]
    requires forall h :: h in z.handles <==> e == DeviceOpen(h) || (e != DeviceClose(h) && h in s.handles)
    requires z.sequence == s.sequence + (if e.Submit? then 1 else 0) && z.bulkNumber == s.bulkNumber + (if BulkSubmit(e) then 1 else 0)
    requires e.Submit? ==> && e.record.sequence == s.sequence + 1
                           && e.record.bulkNumber == if e.record.code == 0x22004b then s.bulkNumber + 1 else 0
    ensures Told(z)
  {
    ToldSnoc(s.log, e);
    NumberedSnoc(s.log, e);
    hide Numbered, OpenIn, Submits, Bulks;
  }

  lemma QuietTold(s: State, z: State, e: Event)
    requires Told(s) && (e.Return? || e.Complete? || e.InjectedCancel?) && z.log == s.log + [e]
    requires z.handles == s.handles && z.sequence == s.sequence && z.bulkNumber == s.bulkNumber
    ensures Told(z)
  {
    hide Told;
    EventTold(s, z, e);
  }

  lemma LeaveIoTold(s: State, o: Options, record: Option<Record>, ok: bool, error: int)
    requires Told(s)
    ensures Told(IoLeave(s, o, record, ok, error))
  {
    if record.Some? {
      var r := record.value;
      var z := IoLeave(s, o, record, ok, error);
      var mid := s.(log := s.log + [Return(r.sequence, ok, error)]);
      QuietTold(s, mid, Return(r.sequence, ok, error));
      if CancelsNow(s, o, r, ok, error) {
        assert z.log == mid.log + [InjectedCancel(r.sequence)];
        QuietTold(mid, z, InjectedCancel(r.sequence));
      } else {
        assert z.log == mid.log;
      }
    }
  }

  lemma SubmitTold(s: State, handle: nat, code: nat, overlapped: nat)
    requires Told(s)
    ensures Told(IoEnter(s, handle, code, overlapped))
  {
    hide Told;
    if handle in s.handles {
      EventTold(s, IoEnter(s, handle, code, overlapped), Submit(IoRecord(s, handle, code, overlapped).value));
    }
  }

  lemma OpenTold(s: State, camera: bool, handle: Option<nat>)
    requires Told(s)
    ensures Told(OpenLeave(s, camera, handle))
  {
    hide Told;
    if camera && handle.Some? {
      EventTold(s, OpenLeave(s, camera, handle), DeviceOpen(handle.value));
    }
  }

  lemma CloseTold(s: State, handle: nat, camera: bool, ok: bool)
    requires Told(s)
    ensures Told(CloseLeave(s, handle, camera, ok))
  {
    hide Told, WithoutHandle;
    if camera && ok {
      EventTold(s, CloseLeave(s, handle, camera, ok), DeviceClose(handle));
    }
  }

  lemma PollTold(s: State, key: (nat, nat), record: Option<Record>, ok: bool, error: int)
    requires Told(s)
    ensures Told(PollLeave(s, key, record, ok, error))
  {
    if record.Some? {
      QuietTold(s, PollLeave(s, key, record, ok, error), Complete(record.value.sequence, ok, error));
    }
  }

  lemma ToldStep(y: System, o: Options, a: Action)
    requires Told(y.state) && Enabled(y, a)
    ensures Told(Step(y, o, a).state)
  {
    hide Told, IoEnter, IoLeave, OpenLeave, CloseLeave, PollLeave;
    match a
    case Open(camera, result) => OpenTold(y.state, camera, result);
    case EnterIo(_, handle, code, overlapped) => SubmitTold(y.state, handle, code, overlapped);
    case LeaveClose(c, ok) => CloseTold(y.state, y.calls[c].handle, y.calls[c].camera, ok);
    case LeaveIo(c, ok, error) => LeaveIoTold(y.state, o, y.calls[c].record, ok, error);
    case LeavePoll(c, ok, error) => PollTold(y.state, y.calls[c].key, y.calls[c].record, ok, error);
    case RunDeferred => QuietTold(y.state, Deferred(y.state), InjectedCancel(y.state.deferred[0].sequence));
    case EnterClose(_, _) =>
    case EnterPoll(_, _, _) =>
  }

  lemma {:induction false} AlwaysTold(o: Options, run: seq<Action>)
    requires Possible(o, run)
    ensures Told(After(o, run).state)
  {
    if run == [] {
      assert Told(START);
    } else {
      var front := run[..|run| - 1];
      AlwaysTold(o, front);
      hide Told;
      ToldStep(After(o, front), o, run[|run| - 1]);
    }
  }

  /**
   A submission is logged exactly when its handle was opened as a camera's and not closed since, and then as what was
   submitted, numbered by its place among all submissions and, for a bulk read, among the bulk reads.
   */
  lemma SubmissionLogged(o: Options, run: seq<Action>, call: nat, handle: nat, code: nat, overlapped: nat)
    requires Possible(o, run) && Enabled(After(o, run), EnterIo(call, handle, code, overlapped))
    ensures var y := After(o, run);
            var z := Step(y, o, EnterIo(call, handle, code, overlapped));
            var n := if code == 0x22004b then Bulks(y.state.log) + 1 else 0;
            z.state.log == y.state.log + if OpenIn(y.state.log, handle)
                                         then [Submit(Record(Submits(y.state.log) + 1, handle, code, overlapped, n))] else []
  {
    AlwaysTold(o, run);
    SubmitLogged(After(o, run).state, handle, code, overlapped);
    hide Told, IoEnter;
  }

  lemma SubmitLogged(s: State, handle: nat, code: nat, overlapped: nat)
    requires Told(s)
    ensures var n := if code == 0x22004b then Bulks(s.log) + 1 else 0;
            IoEnter(s, handle, code, overlapped).log ==
            s.log + if OpenIn(s.log, handle) then [Submit(Record(Submits(s.log) + 1, handle, code, overlapped, n))] else []
  {
    hide OpenIn, Submits, Bulks, Numbered;
  }

  /** Over every interleaving: the submissions in the log are numbered by their place. */
  lemma SubmissionsNumbered(o: Options, run: seq<Action>)
    requires Possible(o, run)
    ensures Numbered(After(o, run).state.log)
  {
    AlwaysTold(o, run);
  }

  // ---------------------------------------------------------------- which requests are cancelled

  /** Some cancel has been issued. */
  ghost predicate AnyCancel(log: seq<Event>) {
    exists n: nat :: CancelLogged(log, n)
  }

  /** The number names a cancelled bulk read. */
  ghost predicate NumberCancelled(log: seq<Event>, n: nat) {
    exists q :: Logged(log, q) && q.code == BULK_READ && q.bulkNumber == n && CancelLogged(log, q.sequence)
  }

  /** The two switches remember what the log shows. */
  ghost predicate Remembered(s: State) {
    && (s.cancelled <==> AnyCancel(s.log) || s.deferred != [])
    && forall n | n in s.cancelledNumbers :: NumberCancelled(s.log, n)
  }

  lemma CancelSnoc(log: seq<Event>, e: Event)
    ensures AnyCancel(log + [e]) <==> AnyCancel(log) || e.InjectedCancel?
    ensures forall n | NumberCancelled(log, n) :: NumberCancelled(log + [e], n)
  {
    if e.InjectedCancel? {
      assert CancelLogged(log + [e], e.sequence);
    }
    if n: nat :| CancelLogged(log, n) {
      assert CancelLogged(log + [e], n);
    }
    if n: nat :| CancelLogged(log + [e], n) {
      assert CancelLogged(log, n) || e == InjectedCancel(n);
    }
    forall n | NumberCancelled(log, n)
      ensures NumberCancelled(log + [e], n)
    {
      var q :| Logged(log, q) && q.code == BULK_READ && q.bulkNumber == n && CancelLogged(log, q.sequence);
      assert Logged(log + [e], q) && CancelLogged(log + [e], q.sequence);
    }
  }

  lemma LeaveIoRemembered(s: State, o: Options, r: Record, ok: bool, error: int)
    requires Remembered(s) && Logged(s.log, r)
    ensures Remembered(IoLeave(s, o, Some(r), ok, error))
  {
    var z, e := IoLeave(s, o, Some(r), ok, error), Return(r.sequence, ok, error);
    CancelSnoc(s.log, e);
    if CancelsNow(s, o, r, ok, error) {
      assert z.log == (s.log + [e]) + [InjectedCancel(r.sequence)];
      CancelSnoc(s.log + [e], InjectedCancel(r.sequence));
      assert Logged(z.log, r) && CancelLogged(z.log, r.sequence);
    } else {
      assert z.log == s.log + [e];
    }
  }

  lemma RememberedStep(y: System, o: Options, a: Action)
    requires Kept(y) && Remembered(y.state) && Enabled(y, a)
    ensures Remembered(Step(y, o, a).state)
  {
    var s, z := y.state, Step(y, o, a).state;
    if a.LeaveIo? {
      assert KeptCall(s, y.calls[a.call]);
      if y.calls[a.call].record.Some? {
        LeaveIoRemembered(s, o, y.calls[a.call].record.value, a.ok, a.error);
      }
    } else if |z.log| > |s.log| {
      var e := z.log[|s.log|];
      assert z.log == s.log + [e];
      CancelSnoc(s.log, e);
    }
  }

  lemma {:induction false} AlwaysRemembered(o: Options, run: seq<Action>)
    requires Possible(o, run)
    ensures Remembered(After(o, run).state)
  {
    if run == [] {
      assert Remembered(START);
    } else {
      var front := run[..|run| - 1];
      AlwaysRemembered(o, front);
      AlwaysKept(o, front);
      hide Remembered, Kept;
      RememberedStep(After(o, front), o, run[|run| - 1]);
    }
  }

  lemma {:induction false} BulksGrow(log: seq<Event>, i: nat, j: nat)
    requires i <= j <= |log|
    ensures Bulks(log[..i]) <= Bulks(log[..j])
  {
    if i < j {
      BulksGrow(log, i, j - 1);
      assert log[..j][..j - 1] == log[..j - 1];
    }
  }

  lemma LaterNumber(log: seq<Event>, i: nat, j: nat)
    requires Numbered(log) && i < j < |log| && BulkSubmit(log[i]) && BulkSubmit(log[j])
    ensures log[i].record.bulkNumber < log[j].record.bulkNumber
  {
    BulksGrow(log, i + 1, j);
    assert log[..j + 1][..j] == log[..j];
  }

  /** Two bulk reads have two numbers. */
  lemma NumberUnique(log: seq<Event>, q: Record, r: Record)
    requires Numbered(log) && Logged(log, q) && Logged(log, r) && q.code == r.code == BULK_READ
    requires q.bulkNumber == r.bulkNumber
    ensures q == r
  {
    var i :| 0 <= i < |log| && log[i] == Submit(q);
    var j :| 0 <= j < |log| && log[j] == Submit(r);
    if i < j {
      LaterNumber(log, i, j);
    } else if j < i {
      LaterNumber(log, j, i);
    }
  }

  /** The request is a bulk read the driver still runs: the only kind that is ever cancelled. */
  predicate Running(r: Record, ok: bool, error: int) {
    r.code == 0x22004b && r.overlapped != 0 && !ok && error == 997
  }

  /** No number is cancelled before the submission that bears it returns. */
  lemma NumberFresh(o: Options, run: seq<Action>, call: nat)
    requires Possible(o, run) && Leaving(After(o, run), call)
    ensures var r := After(o, run).calls[call].record.value;
            r.code == BULK_READ ==> r.bulkNumber !in After(o, run).state.cancelledNumbers
  {
    AlwaysRemembered(o, run);
    AlwaysTold(o, run);
    AlwaysKept(o, run);
    AlwaysCancelling(o, run);
    var s, r := After(o, run).state, After(o, run).calls[call].record.value;
    assert KeptCall(s, After(o, run).calls[call]);
    assert Uncancelled(s, r.sequence);
    if r.code == BULK_READ && r.bulkNumber in s.cancelledNumbers {
      var q :| Logged(s.log, q) && q.code == BULK_READ && q.bulkNumber == r.bulkNumber && CancelLogged(s.log, q.sequence);
      NumberUnique(s.log, q, r);
    }
  }

  /**
   Over every interleaving, what the return of a submission logs: its outcome, and its cancel exactly when it is a bulk
   read still running whose place among the bulk reads is one of the switch's numbers. Otherwise its cancel is put off
   exactly when it is still running, the first-read switch is set, and no cancel has been issued or put off before.
   */
  lemma ReturnLogged(o: Options, run: seq<Action>, call: nat, ok: bool, error: int)
    requires Possible(o, run) && Leaving(After(o, run), call)
    ensures var y := After(o, run);
            var s, z, r := y.state, Step(y, o, LeaveIo(call, ok, error)).state, y.calls[call].record.value;
            var now := Running(r, ok, error) && r.bulkNumber in o.numbers;
            var later := Running(r, ok, error) && !now && o.first && !AnyCancel(s.log) && s.deferred == [];
            && z.log == s.log + [Return(r.sequence, ok, error)] + (if now then [InjectedCancel(r.sequence)] else [])
            && z.deferred == s.deferred + (if later then [r] else [])
  {
    AlwaysRemembered(o, run);
    NumberFresh(o, run, call);
    hide Possible;
    var s := After(o, run).state;
    assert s.deferred + [] == s.deferred;
  }

  /** The first bulk read is number 1 also after a control request, and the switch for number 1 cancels it. */
  lemma FirstBulkCancelled()
    ensures var run := [Open(true, Some(5)), EnterIo(1, 5, 0x220020, 7), EnterIo(2, 5, BULK_READ, 9)];
            var o := Options({1}, false);
            && Possible(o, run) && Leaving(After(o, run), 2) && After(o, run).calls[2].record.value.bulkNumber == 1
            && InjectedCancel(2) in Step(After(o, run), o, LeaveIo(2, false, IO_PENDING)).state.log
  {
    var o := Options({1}, false);
    var start: seq<Action> := [];
    Extend(o, start, Open(true, Some(5)));
    assert start + [Open(true, Some(5))] == [Open(true, Some(5))];
    var run := [Open(true, Some(5))];
    Extend(o, run, EnterIo(1, 5, 0x220020, 7));
    run := run + [EnterIo(1, 5, 0x220020, 7)];
    Extend(o, run, EnterIo(2, 5, BULK_READ, 9));
    run := run + [EnterIo(2, 5, BULK_READ, 9)];
    assert run == [Open(true, Some(5)), EnterIo(1, 5, 0x220020, 7), EnterIo(2, 5, BULK_READ, 9)];
    ReturnLogged(o, run, 2, false, IO_PENDING);
  }
}
