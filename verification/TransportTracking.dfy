/**
 The table of tracked requests, decided by the log alone: exactly when it holds the outstanding requests, and which
 request an injected cancel then reaches.
 */
module TransportTracking {
  import opened Wrappers
  import opened TransportTrace
  import opened TransportOutcomes

  /** The event ends request `r` or takes its place: its terminal outcome, its handle's close, or a new submission. */
  predicate Releases(e: Event, r: Record) {
    || e == DeviceClose(r.handle)
    || (Terminal(e) && Outcome(e, r.sequence))
    || (e.Submit? && e.record.Key() == r.Key())
  }

  ghost predicate OutstandingFrom(log: seq<Event>, r: Record, i: int) {
    0 <= i < |log| && log[i] == Submit(r) && forall j | i < j < |log| :: !Releases(log[j], r)
  }

  /** The log shows `r` submitted and nothing since that ends or replaces it. */
  ghost predicate Outstanding(log: seq<Event>, r: Record) {
    exists i :: OutstandingFrom(log, r, i)
  }

  /** An OVERLAPPED is submitted only when no other submission or poll of it is in progress. */
  predicate Exclusive(y: System, a: Action) {
    a.EnterIo? ==> forall c | c in y.calls && !y.calls[c].Closing? :: y.calls[c].key != (a.handle, a.overlapped)
  }

  predicate ExclusiveRun(o: Options, run: seq<Action>)
    requires Possible(o, run)
  {
    run == [] || (ExclusiveRun(o, run[..|run| - 1]) && Exclusive(After(o, run[..|run| - 1]), run[|run| - 1]))
  }

  predicate Tracked(s: State, r: Record) {
    r.Key() in s.pending && s.pending[r.Key()] == r
  }

  /** Asynchronous requests are tracked exactly while outstanding. */
  ghost predicate Exact(s: State) {
    forall r :: Tracked(s, r) <==> r.overlapped != 0 && Outstanding(s.log, r)
  }

  /** No prefix of the run leaves the table inexact. */
  ghost predicate ExactRun(o: Options, run: seq<Action>)
    requires Possible(o, run)
  {
    Exact(After(o, run).state) && (run == [] || ExactRun(o, run[..|run| - 1]))
  }

  /** A terminal outcome is not reported while its OVERLAPPED tracks another request. */
  predicate Undisturbed(y: System, a: Action)
    requires Enabled(y, a)
  {
    var e := Reported(y, a);
    e.Some? && Terminal(e.value) && y.calls[a.call].key in y.state.pending ==>
      y.calls[a.call].record == Some(y.state.pending[y.calls[a.call].key])
  }

  predicate UndisturbedRun(o: Options, run: seq<Action>)
    requires Possible(o, run)
  {
    run == [] || (UndisturbedRun(o, run[..|run| - 1]) && Undisturbed(After(o, run[..|run| - 1]), run[|run| - 1]))
  }

  /** A call in progress on a tracked OVERLAPPED is about the tracked request. */
  ghost predicate OwnRecord(y: System) {
    forall c | c in y.calls && !y.calls[c].Closing? && y.calls[c].key in y.state.pending ::
      y.calls[c].record == Some(y.state.pending[y.calls[c].key])
  }

  /** One more event leaves outstanding what it does not release, and makes a new submission outstanding. */
  lemma OutstandingSnoc(log: seq<Event>, e: Event, r: Record)
    ensures Outstanding(log + [e], r) <==> e == Submit(r) || (Outstanding(log, r) && !Releases(e, r))
  {
    var more := log + [e];
    if e == Submit(r) {
      assert OutstandingFrom(more, r, |log|);
    }
    if i :| OutstandingFrom(log, r, i) {
      assert !Releases(e, r) ==> OutstandingFrom(more, r, i);
    }
    if i :| OutstandingFrom(more, r, i) {
      if i < |log| {
        assert forall j | i < j < |log| :: more[j] == log[j];
        assert OutstandingFrom(log, r, i);
        assert !Releases(more[|log|], r);
      }
    }
  }

  /** A step that adds no event and changes no entry, or adds one event and drops exactly what it releases. */
  lemma ExactSnoc(s: State, z: State, e: Event)
    requires Exact(s) && z.log == s.log + [e] && !e.Submit?
    requires forall r :: Tracked(z, r) <==> Tracked(s, r) && !Releases(e, r)
    ensures Exact(z)
  {
    forall r {
      OutstandingSnoc(s.log, e, r);
    }
  }

  lemma EnterIoExact(y: System, o: Options, a: Action)
    requires Kept(y) && Exact(y.state) && a.EnterIo? && Enabled(y, a)
    ensures Exact(Step(y, o, a).state)
  {
    var s, z := y.state, Step(y, o, a).state;
    if a.handle in s.handles {
      var n := IoRecord(s, a.handle, a.code, a.overlapped).value;
      forall r
        ensures Tracked(z, r) <==> r.overlapped != 0 && Outstanding(z.log, r)
      {
        OutstandingSnoc(s.log, Submit(n), r);
      }
    }
  }

  /** When a call reports its record's outcome, the table loses exactly what that outcome releases. */
  lemma OutcomeExact(y: System, c: nat, e: Event, z: State)
    requires Kept(y) && Exact(y.state) && Tracking(y, c)
    requires Outcome(e, y.calls[c].record.value.sequence)
    requires Terminal(e) && y.calls[c].key in y.state.pending ==> y.calls[c].record == Some(y.state.pending[y.calls[c].key])
    requires z.log == y.state.log + [e]
    requires z.pending == (if Terminal(e) then y.state.pending - {y.calls[c].key} else y.state.pending)
    ensures Exact(z)
  {
    var s, q := y.state, y.calls[c].record.value;
    assert KeptCall(s, y.calls[c]);
    forall r
      ensures Tracked(z, r) <==> Tracked(s, r) && !Releases(e, r)
    {
      if Tracked(s, r) {
        assert Logged(s.log, r) && Logged(s.log, q);
      }
    }
    ExactSnoc(s, z, e);
  }

  lemma LeaveIoExact(y: System, o: Options, a: Action)
    requires Kept(y) && Exact(y.state) && a.LeaveIo? && Enabled(y, a) && Undisturbed(y, a)
    ensures Exact(Step(y, o, a).state)
  {
    var s, z, call := y.state, Step(y, o, a).state, y.calls[a.call];
    if call.record.Some? {
      var r := call.record.value;
      assert KeptCall(s, call);
      var e := Return(r.sequence, a.ok, a.error);
      var mid := s.(log := s.log + [e], pending := z.pending);
      OutcomeExact(y, a.call, e, mid);
      if CancelsNow(s, o, r, a.ok, a.error) {
        ExactSnoc(mid, z, InjectedCancel(r.sequence));
      } else {
        assert z.log == mid.log;
        assert forall q :: Tracked(z, q) <==> Tracked(mid, q);
      }
    }
  }

  lemma LeaveCloseExact(y: System, o: Options, a: Action)
    requires Kept(y) && Exact(y.state) && a.LeaveClose? && Enabled(y, a)
    ensures Exact(Step(y, o, a).state)
  {
    var s, z, call := y.state, Step(y, o, a).state, y.calls[a.call];
    if call.camera && a.ok {
      ExactSnoc(s, z, DeviceClose(call.handle));
    }
  }

  lemma OtherExact(y: System, o: Options, a: Action)
    requires Kept(y) && Exact(y.state) && Enabled(y, a) && Undisturbed(y, a)
    requires !a.EnterIo? && !a.LeaveIo? && !a.LeaveClose?
    ensures Exact(Step(y, o, a).state)
  {
    var s, z := y.state, Step(y, o, a).state;
    if a.LeavePoll? && y.calls[a.call].record.Some? {
      OutcomeExact(y, a.call, Complete(y.calls[a.call].record.value.sequence, a.ok, a.error), z);
    } else if |z.log| > |s.log| {
      assert z.log == s.log + [z.log[|s.log|]];
      ExactSnoc(s, z, z.log[|s.log|]);
    }
  }

  lemma OwnRecordKept(y: System, o: Options, a: Action)
    requires Kept(y) && OwnRecord(y) && Exact(y.state) && Enabled(y, a) && Exclusive(y, a)
    ensures OwnRecord(Step(y, o, a))
  {
    forall key | key in y.state.pending
      ensures key.1 != 0 && key.0 in y.state.handles
    {
      assert Tracked(y.state, y.state.pending[key]);
    }
    hide Exact;
  }

  lemma ExactStep(y: System, o: Options, a: Action)
    requires Kept(y) && Exact(y.state) && Enabled(y, a) && Undisturbed(y, a)
    ensures Exact(Step(y, o, a).state)
  {
    hide Exact, Kept, Undisturbed;
    if a.EnterIo? {
      EnterIoExact(y, o, a);
    } else if a.LeaveIo? {
      LeaveIoExact(y, o, a);
    } else if a.LeaveClose? {
      LeaveCloseExact(y, o, a);
    } else {
      OtherExact(y, o, a);
    }
  }

  /** The entry a disturbing outcome drops is of a request that stays outstanding. */
  lemma DisturbedStep(y: System, o: Options, a: Action)
    requires Kept(y) && Exact(y.state) && Enabled(y, a) && !Undisturbed(y, a)
    ensures !Exact(Step(y, o, a).state)
  {
    var s, z, call, e := y.state, Step(y, o, a).state, y.calls[a.call], Reported(y, a).value;
    var p := s.pending[call.key];
    assert KeptCall(s, call);
    assert p.Key() == call.key && Logged(s.log, p) && Logged(s.log, call.record.value);
    assert Tracked(s, p) && p.sequence != call.record.value.sequence;
    assert z.log == s.log + [e] && z.pending == s.pending - {call.key};
    OutstandingSnoc(s.log, e, p);
    assert !Tracked(z, p);
  }

  lemma {:induction false} AlwaysExact(o: Options, run: seq<Action>)
    requires Possible(o, run) && UndisturbedRun(o, run)
    ensures Exact(After(o, run).state) && ExactRun(o, run)
  {
    if run != [] {
      var front, a := run[..|run| - 1], run[|run| - 1];
      AlwaysExact(o, front);
      AlwaysKept(o, front);
      hide Exact, Kept, Undisturbed;
      ExactStep(After(o, front), o, a);
    }
  }

  lemma {:induction false} DisturbedInexact(o: Options, run: seq<Action>)
    requires Possible(o, run) && !UndisturbedRun(o, run)
    ensures !ExactRun(o, run)
  {
    var front, a := run[..|run| - 1], run[|run| - 1];
    if UndisturbedRun(o, front) {
      AlwaysExact(o, front);
      AlwaysKept(o, front);
      DisturbedStep(After(o, front), o, a);
    } else {
      DisturbedInexact(o, front);
    }
  }

  /**
   Over every interleaving, with no discipline assumed: the tracked requests are at every moment exactly the
   asynchronous ones the log shows submitted, not finished, not replaced and not closed, if and only if no terminal
   outcome is ever reported while its OVERLAPPED tracks another request.
   */
  lemma TrackedIff(o: Options, run: seq<Action>)
    requires Possible(o, run)
    ensures ExactRun(o, run) <==> UndisturbedRun(o, run)
  {
    if UndisturbedRun(o, run) {
      AlwaysExact(o, run);
    } else {
      DisturbedInexact(o, run);
    }
  }

  /** Submitting an OVERLAPPED only when no other call on it is in progress leaves no outcome disturbed. */
  lemma {:induction false} ExclusiveUndisturbed(o: Options, run: seq<Action>)
    requires Possible(o, run) && ExclusiveRun(o, run)
    ensures UndisturbedRun(o, run) && OwnRecord(After(o, run))
  {
    if run != [] {
      var front, a := run[..|run| - 1], run[|run| - 1];
      ExclusiveUndisturbed(o, front);
      AlwaysExact(o, front);
      AlwaysKept(o, front);
      OwnUndisturbed(After(o, front), a);
      hide Exact, OwnRecord, Kept, Undisturbed;
      OwnRecordKept(After(o, front), o, a);
    }
  }

  lemma OwnUndisturbed(y: System, a: Action)
    requires OwnRecord(y) && Enabled(y, a)
    ensures Undisturbed(y, a)
  {
  }

  /**
   Under that discipline, over every interleaving: the tracked requests are exactly the outstanding asynchronous
   ones, so a poll of an outstanding request always finds it and never finds another.
   */
  lemma TrackedExactly(o: Options, run: seq<Action>, r: Record)
    requires Possible(o, run) && ExclusiveRun(o, run)
    ensures var s := After(o, run).state;
            && (Tracked(s, r) <==> r.overlapped != 0 && Outstanding(s.log, r))
            && (r.overlapped != 0 && Outstanding(s.log, r) ==> PollRecord(s, r.Key()) == Some(r))
  {
    ExclusiveUndisturbed(o, run);
    AlwaysExact(o, run);
  }

  // ---------------------------------------------------------------- what an injected cancel reaches

  /** What is tracked at the OVERLAPPED of `r`: `r` itself while outstanding, another request while one there is. */
  ghost predicate SlotDecided(s: State, r: Record) {
    && (Tracked(s, r) <==> Outstanding(s.log, r))
    && (r.Key() in s.pending && s.pending[r.Key()] != r <==>
        exists q: Record :: q != r && q.Key() == r.Key() && Outstanding(s.log, q))
  }

  lemma SlotExact(s: State, r: Record)
    requires Exact(s) && KeptPending(s) && r.overlapped != 0
    ensures SlotDecided(s, r)
  {
    if r.Key() in s.pending {
      assert Tracked(s, s.pending[r.Key()]);
    }
    if q: Record :| q != r && q.Key() == r.Key() && Outstanding(s.log, q) {
      assert Tracked(s, q);
    }
  }

  /** Deferred cancels are of asynchronous requests. */
  lemma {:induction false} DeferredAsynchronous(o: Options, run: seq<Action>)
    requires Possible(o, run)
    ensures forall r | r in After(o, run).state.deferred :: r.overlapped != 0
  {
    if run != [] {
      DeferredAsynchronous(o, run[..|run| - 1]);
    }
  }

  /**
   Which request a deferred cancel reaches when it runs, while the table is exact: its own exactly when that is
   still outstanding, and another exactly when another submission on its OVERLAPPED is.
   */
  lemma DeferredCancelTarget(o: Options, run: seq<Action>)
    requires Possible(o, run) && UndisturbedRun(o, run) && After(o, run).state.deferred != []
    ensures SlotDecided(After(o, run).state, After(o, run).state.deferred[0])
  {
    AlwaysExact(o, run);
    AlwaysKept(o, run);
    DeferredAsynchronous(o, run);
    SlotExact(After(o, run).state, After(o, run).state.deferred[0]);
  }

  /** The same of a cancel issued on the submitting thread, when the submission returns. */
  lemma ImmediateCancelTarget(o: Options, run: seq<Action>, call: nat, ok: bool, error: int)
    requires Possible(o, run) && UndisturbedRun(o, run)
    requires Enabled(After(o, run), LeaveIo(call, ok, error)) && After(o, run).calls[call].record.Some?
    requires CancelsNow(After(o, run).state, o, After(o, run).calls[call].record.value, ok, error)
    ensures SlotDecided(After(o, run).state, After(o, run).calls[call].record.value)
  {
    AlwaysExact(o, run);
    AlwaysKept(o, run);
    SlotExact(After(o, run).state, After(o, run).calls[call].record.value);
  }

  const NUMBERED := Options({1}, false)
  const RESUBMITTED := UNDERWAY + [EnterIo(2, 5, BULK_READ, 9)]

  /**
   An immediate cancel can reach another request when its OVERLAPPED is submitted again before the first submission
   returned: here request 1 is to be cancelled, and the OVERLAPPED belongs to request 2.
   */
  lemma ImmediateCancelHitsAnother()
    ensures Possible(NUMBERED, RESUBMITTED) && UndisturbedRun(NUMBERED, RESUBMITTED)
    ensures var y := After(NUMBERED, RESUBMITTED);
            && Enabled(y, LeaveIo(1, false, IO_PENDING)) && y.calls[1].record == Some(ONE)
            && CancelsNow(y.state, NUMBERED, ONE, false, IO_PENDING)
            && ONE.Key() in y.state.pending && y.state.pending[ONE.Key()] == TWO && Outstanding(y.state.log, TWO)
  {
    Underway(NUMBERED);
    Extend(NUMBERED, UNDERWAY, EnterIo(2, 5, BULK_READ, 9));
    Unreported(NUMBERED, RESUBMITTED);
    assert OutstandingFrom(After(NUMBERED, RESUBMITTED).state.log, TWO, 2);
  }

  /** A run in which no call has returned yet is undisturbed. */
  lemma {:induction false} Unreported(o: Options, run: seq<Action>)
    requires Possible(o, run) && forall a | a in run :: !a.LeaveIo? && !a.LeavePoll?
    ensures UndisturbedRun(o, run)
  {
    if run != [] {
      Unreported(o, run[..|run| - 1]);
      assert run[|run| - 1] in run;
    }
  }

  // ---------------------------------------------------------------- when tracking fails

  const REUSED :=
    UNDERWAY + [LeaveIo(1, false, IO_PENDING)] + [EnterPoll(2, 5, 9)] + [EnterIo(3, 5, BULK_READ, 9)] + [LeavePoll(2, true, 0)]

  /** Submitting an OVERLAPPED while it is being polled loses the new request: outstanding, but no longer tracked. */
  lemma ReuseLosesRequest()
    ensures Possible(PASSIVE, REUSED)
    ensures Outstanding(After(PASSIVE, REUSED).state.log, TWO) && !Tracked(After(PASSIVE, REUSED).state, TWO)
  {
    Underway(PASSIVE);
    Extend(PASSIVE, UNDERWAY, LeaveIo(1, false, IO_PENDING));
    var run := UNDERWAY + [LeaveIo(1, false, IO_PENDING)];
    Extend(PASSIVE, run, EnterPoll(2, 5, 9));
    run := run + [EnterPoll(2, 5, 9)];
    Extend(PASSIVE, run, EnterIo(3, 5, BULK_READ, 9));
    run := run + [EnterIo(3, 5, BULK_READ, 9)];
    Extend(PASSIVE, run, LeavePoll(2, true, 0));
    var log := After(PASSIVE, REUSED).state.log;
    assert log[3] == Submit(TWO) && log[4] == Complete(1, true, 0) && |log| == 5;
    assert OutstandingFrom(log, TWO, 3);
  }
}
