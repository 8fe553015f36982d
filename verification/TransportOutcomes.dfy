/**
 What the transport log means: when each request has one terminal outcome, which completions it reports, and
 which request an injected cancel reaches.
 */
module TransportOutcomes {
  import opened Wrappers
  import opened TransportTrace

  /** The event reports how request `n` stands: on return from its submission, or when polled. */
  predicate Outcome(e: Event, n: nat) {
    (e.Return? || e.Complete?) && e.sequence == n
  }

  /** The outcome is final: success, or any error but "still running". */
  predicate Terminal(e: Event) {
    || (e.Return? && (e.ok || e.error != IO_PENDING))
    || (e.Complete? && (e.ok || e.error != IO_INCOMPLETE))
  }

  ghost predicate Finished(log: seq<Event>, n: nat) {
    exists e :: e in log && Terminal(e) && Outcome(e, n)
  }

  /** After a request's terminal outcome nothing more is reported of it; in particular it has only one. */
  ghost predicate OnceOnly(log: seq<Event>) {
    forall i, j, n: nat | 0 <= i < j < |log| && Terminal(log[i]) && Outcome(log[i], n) :: !Outcome(log[j], n)
  }

  ghost predicate SubmittedIn(log: seq<Event>, n: nat) {
    exists r :: Logged(log, r) && r.sequence == n
  }

  /** Every outcome is reported after the submission it names. */
  ghost predicate AfterSubmission(log: seq<Event>) {
    forall j, n: nat | 0 <= j < |log| && Outcome(log[j], n) :: SubmittedIn(log[..j], n)
  }

  // ---------------------------------------------------------------- the driver's discipline

  /** An OVERLAPPED is polled only after its submission returned, and by one thread at a time. */
  predicate Polite(y: System, a: Action) {
    a.EnterPoll? ==> forall c | c in y.calls && !y.calls[c].Closing? :: y.calls[c].key != (a.handle, a.overlapped)
  }

  /** An OVERLAPPED is not submitted again while its submission is still being made. */
  predicate NoReuse(y: System, a: Action) {
    a.EnterIo? ==> forall c | c in y.calls && y.calls[c].Submitting? :: y.calls[c].key != (a.handle, a.overlapped)
  }

  predicate PoliteRun(o: Options, run: seq<Action>)
    requires Possible(o, run)
  {
    run == [] || (PoliteRun(o, run[..|run| - 1]) && Polite(After(o, run[..|run| - 1]), run[|run| - 1]))
  }

  predicate NoReuseRun(o: Options, run: seq<Action>)
    requires Possible(o, run)
  {
    run == [] || (NoReuseRun(o, run[..|run| - 1]) && NoReuse(After(o, run[..|run| - 1]), run[|run| - 1]))
  }

  // ---------------------------------------------------------------- one terminal outcome

  ghost predicate Tracking(y: System, c: nat) {
    c in y.calls && !y.calls[c].Closing? && y.calls[c].record.Some?
  }

  /** Nothing still tracked, and nothing a hooked call is about to report, is finished. */
  ghost predicate Live(y: System) {
    && (forall key | key in y.state.pending :: !Finished(y.state.log, y.state.pending[key].sequence))
    && OnlyUnfinished(y) && OnceOnly(y.state.log)
  }

  ghost predicate OnlyUnfinished(y: System) {
    forall c | Tracking(y, c) :: !Finished(y.state.log, y.calls[c].record.value.sequence)
  }

  /** No two hooked calls are about to report the same request. */
  ghost predicate Apart(y: System) {
    forall c, d | Tracking(y, c) && Tracking(y, d) && c != d ::
      y.calls[c].record.value.sequence != y.calls[d].record.value.sequence
  }

  /** What a leaving call reports of its request. */
  function Reported(y: System, a: Action): (e: Option<Event>)
    requires Enabled(y, a)
    ensures e.Some? ==> (a.LeaveIo? || a.LeavePoll?) && y.calls[a.call].record.Some?
    ensures e.Some? ==> Outcome(e.value, y.calls[a.call].record.value.sequence)
  {
    match a
    case LeaveIo(c, ok, error) =>
      if y.calls[c].record.Some? then Some(Return(y.calls[c].record.value.sequence, ok, error)) else None
    case LeavePoll(c, ok, error) =>
      if y.calls[c].record.Some? then Some(Complete(y.calls[c].record.value.sequence, ok, error)) else None
    case _ => None
  }

  /** A request's terminal outcome is not reported while another hooked call about it is in progress. */
  ghost predicate Uncontested(y: System, a: Action)
    requires Enabled(y, a)
  {
    var e := Reported(y, a);
    e.Some? && Terminal(e.value) ==>
      forall d | Tracking(y, d) && d != a.call :: !Outcome(e.value, y.calls[d].record.value.sequence)
  }

  ghost predicate UncontestedRun(o: Options, run: seq<Action>)
    requires Possible(o, run)
  {
    run == [] || (UncontestedRun(o, run[..|run| - 1]) && Uncontested(After(o, run[..|run| - 1]), run[|run| - 1]))
  }

  /** A quiet event: neither a submission nor an outcome. */
  predicate Quiet(e: Event) {
    e.DeviceOpen? || e.DeviceClose? || e.InjectedCancel?
  }

  lemma QuietSnoc(log: seq<Event>, e: Event)
    requires Quiet(e) || e.Submit?
    ensures forall n: nat :: Finished(log + [e], n) <==> Finished(log, n)
    ensures OnceOnly(log) ==> OnceOnly(log + [e])
  {
  }

  lemma {:induction false} NewSequenceUnfinished(o: Options, run: seq<Action>)
    requires Possible(o, run)
    ensures AfterSubmission(After(o, run).state.log)
    ensures forall n: nat | Finished(After(o, run).state.log, n) :: n <= After(o, run).state.sequence
  {
    OutcomesSubmitted(o, run);
    AlwaysKept(o, run);
    var log := After(o, run).state.log;
    forall n: nat | Finished(log, n)
      ensures n <= After(o, run).state.sequence
    {
      var e :| e in log && Terminal(e) && Outcome(e, n);
      var j :| 0 <= j < |log| && log[j] == e;
      assert SubmittedIn(log[..j], n);
      var r :| Logged(log[..j], r) && r.sequence == n;
      assert Logged(log, r);
    }
  }

  lemma PrecededSnoc(log: seq<Event>, e: Event)
    requires AfterSubmission(log)
    requires forall n: nat | Outcome(e, n) :: SubmittedIn(log, n)
    ensures AfterSubmission(log + [e])
  {
    forall j, n: nat | 0 <= j < |log + [e]| && Outcome((log + [e])[j], n)
      ensures SubmittedIn((log + [e])[..j], n)
    {
      assert (log + [e])[..j] == log[..j];
      assert log[..|log|] == log;
    }
  }

  /** Every outcome names a request submitted before it, over every interleaving. */
  lemma {:induction false} OutcomesSubmitted(o: Options, run: seq<Action>)
    requires Possible(o, run)
    ensures AfterSubmission(After(o, run).state.log)
  {
    if run != [] {
      var front, a := run[..|run| - 1], run[|run| - 1];
      OutcomesSubmitted(o, front);
      AlwaysKept(o, front);
      var y := After(o, front);
      var log, z := y.state.log, Step(y, o, a);
      if a.LeaveIo? || a.LeavePoll? {
        var call := y.calls[a.call];
        assert KeptCall(y.state, call);
        if call.record.Some? {
          assert SubmittedIn(log, call.record.value.sequence);
          var e := if a.LeaveIo? then Return(call.record.value.sequence, a.ok, a.error)
                   else Complete(call.record.value.sequence, a.ok, a.error);
          PrecededSnoc(log, e);
          PrecededSnoc(log + [e], InjectedCancel(call.record.value.sequence));
          assert z.state.log == log + [e] || z.state.log == (log + [e]) + [InjectedCancel(call.record.value.sequence)];
        }
      } else if |z.state.log| > |log| {
        assert z.state.log == log + [z.state.log[|log|]];
        PrecededSnoc(log, z.state.log[|log|]);
      }
    }
  }

  lemma EnterIoStaysLive(y: System, o: Options, a: Action)
    requires Kept(y) && Live(y) && a.EnterIo? && Enabled(y, a)
    requires forall n: nat | Finished(y.state.log, n) :: n <= y.state.sequence
    ensures Live(Step(y, o, a))
  {
    var s, z := y.state, Step(y, o, a);
    forall d | Tracking(y, d)
      ensures y.calls[d].record.value.sequence <= s.sequence
    {
      assert KeptCall(s, y.calls[d]);
    }
    if a.handle in s.handles {
      QuietSnoc(s.log, Submit(IoRecord(s, a.handle, a.code, a.overlapped).value));
    }
  }

  lemma EnterPollStaysLive(y: System, o: Options, a: Action)
    requires Live(y) && a.EnterPoll? && Enabled(y, a)
    ensures Live(Step(y, o, a))
  {
  }

  /** A call that reports its request's outcome ends, and what it leaves tracked is unfinished. */
  lemma OutcomeStaysLive(y: System, c: nat, e: Event, pending: map<(nat, nat), Record>)
    requires Kept(y) && Live(y) && Tracking(y, c)
    requires Outcome(e, y.calls[c].record.value.sequence)
    requires Terminal(e) ==> forall d | Tracking(y, d) && d != c :: !Outcome(e, y.calls[d].record.value.sequence)
    requires pending == (if Terminal(e) then y.state.pending - {y.calls[c].key} else y.state.pending)
    ensures Live(System(y.state.(pending := pending, log := y.state.log + [e]), y.calls - {c}))
  {
  }

  lemma QuietStaysLive(y: System, z: System, e: Event)
    requires Live(y) && Quiet(e) && z.state.log == y.state.log + [e]
    requires z.calls == y.calls
    requires forall key | key in z.state.pending :: key in y.state.pending && z.state.pending[key] == y.state.pending[key]
    ensures Live(z)
  {
  }

  lemma LeaveIoStaysLive(y: System, o: Options, a: Action)
    requires Kept(y) && Live(y) && a.LeaveIo? && Enabled(y, a) && Uncontested(y, a)
    ensures Live(Step(y, o, a))
  {
    var z, call := Step(y, o, a), y.calls[a.call];
    if call.record.Some? {
      var r := call.record.value;
      assert KeptCall(y.state, call);
      var e := Return(r.sequence, a.ok, a.error);
      OutcomeStaysLive(y, a.call, e, z.state.pending);
      var mid := System(y.state.(pending := z.state.pending, log := y.state.log + [e]), y.calls - {a.call});
      if CancelsNow(y.state, o, r, a.ok, a.error) {
        assert z.state.log == mid.state.log + [InjectedCancel(r.sequence)];
        QuietStaysLive(mid, z, InjectedCancel(r.sequence));
      } else {
        assert z.state.log == mid.state.log;
      }
    }
  }

  lemma OtherStaysLive(y: System, o: Options, a: Action)
    requires Kept(y) && Live(y) && Enabled(y, a) && Uncontested(y, a) && !a.EnterIo? && !a.EnterPoll? && !a.LeaveIo?
    ensures Live(Step(y, o, a))
  {
    var s, z := y.state, Step(y, o, a);
    if a.LeavePoll? && y.calls[a.call].record.Some? {
      OutcomeStaysLive(y, a.call, Complete(y.calls[a.call].record.value.sequence, a.ok, a.error), z.state.pending);
    } else if |z.state.log| > |s.log| {
      assert z.state.log == s.log + [z.state.log[|s.log|]];
      QuietStaysLive(y, z.(calls := y.calls), z.state.log[|s.log|]);
    }
  }

  lemma {:induction false} AlwaysLive(o: Options, run: seq<Action>)
    requires Possible(o, run) && UncontestedRun(o, run)
    ensures Live(After(o, run))
  {
    if run != [] {
      var front, a := run[..|run| - 1], run[|run| - 1];
      AlwaysLive(o, front);
      AlwaysKept(o, front);
      NewSequenceUnfinished(o, front);
      hide Live, Kept, Uncontested;
      if a.EnterIo? {
        EnterIoStaysLive(After(o, front), o, a);
      } else if a.EnterPoll? {
        EnterPollStaysLive(After(o, front), o, a);
      } else if a.LeaveIo? {
        LeaveIoStaysLive(After(o, front), o, a);
      } else {
        OtherStaysLive(After(o, front), o, a);
      }
    }
  }

  /** A request already finished is about to be reported again. */
  ghost predicate Doomed(y: System) {
    !OnceOnly(y.state.log) || !OnlyUnfinished(y)
  }

  lemma GrownLog(y: System, o: Options, a: Action)
    requires Enabled(y, a)
    ensures y.state.log <= Step(y, o, a).state.log
    ensures Reported(y, a).Some? ==> y.state.log + [Reported(y, a).value] <= Step(y, o, a).state.log
  {
  }

  lemma ReportedTwice(log: seq<Event>, more: seq<Event>, e: Event, n: nat)
    requires Finished(log, n) && Outcome(e, n) && log + [e] <= more
    ensures !OnceOnly(more)
  {
    var t :| t in log && Terminal(t) && Outcome(t, n);
    var i :| 0 <= i < |log| && log[i] == t;
    assert more[i] == t && more[|log|] == e;
  }

  lemma FinishedStays(log: seq<Event>, more: seq<Event>, n: nat)
    requires log <= more && (Finished(log, n) || exists e :: e in more && Terminal(e) && Outcome(e, n))
    ensures Finished(more, n)
  {
  }

  /** Once contested, a run is doomed and stays so. */
  lemma DoomedStep(y: System, o: Options, a: Action)
    requires Enabled(y, a) && (Doomed(y) || !Uncontested(y, a))
    ensures Doomed(Step(y, o, a))
  {
    var z, log := Step(y, o, a), y.state.log;
    GrownLog(y, o, a);
    if !OnceOnly(log) {
      var i, j, n: nat :| 0 <= i < j < |log| && Terminal(log[i]) && Outcome(log[i], n) && Outcome(log[j], n);
      assert z.state.log[i] == log[i] && z.state.log[j] == log[j];
    } else if d: nat :| Tracking(y, d) && Finished(log, y.calls[d].record.value.sequence) {
      var n := y.calls[d].record.value.sequence;
      FinishedStays(log, z.state.log, n);
      if d in z.calls {
        assert Tracking(z, d) && z.calls[d] == y.calls[d];
      } else {
        ReportedTwice(log, z.state.log, Reported(y, a).value, n);
      }
    } else {
      var e := Reported(y, a).value;
      var d: nat :| Tracking(y, d) && d != a.call && Outcome(e, y.calls[d].record.value.sequence);
      assert Tracking(z, d) && z.calls[d] == y.calls[d];
      assert e == (log + [e])[|log|] && e == z.state.log[|log|];
      FinishedStays(log, z.state.log, y.calls[d].record.value.sequence);
    }
  }

  lemma {:induction false} ContestedDoomed(o: Options, run: seq<Action>)
    requires Possible(o, run) && !UncontestedRun(o, run)
    ensures Doomed(After(o, run))
  {
    var front, a := run[..|run| - 1], run[|run| - 1];
    if !UncontestedRun(o, front) {
      ContestedDoomed(o, front);
    }
    hide Doomed;
    DoomedStep(After(o, front), o, a);
  }

  /**
   Over every interleaving, with no discipline assumed: nothing is reported of a request after its terminal
   outcome, nor about to be, if and only if no request's terminal outcome is ever reported while another hooked
   call about it is in progress.
   */
  lemma FinishedOnceIff(o: Options, run: seq<Action>)
    requires Possible(o, run)
    ensures UncontestedRun(o, run) <==> OnceOnly(After(o, run).state.log) && OnlyUnfinished(After(o, run))
  {
    if UncontestedRun(o, run) {
      AlwaysLive(o, run);
    } else {
      ContestedDoomed(o, run);
    }
  }

  lemma ApartUncontested(y: System, a: Action)
    requires Apart(y) && Enabled(y, a)
    ensures Uncontested(y, a)
  {
    var e := Reported(y, a);
    if e.Some? {
      assert Tracking(y, a.call);
    }
  }

  lemma TrackingBefore(y: System)
    requires Kept(y)
    ensures forall c | Tracking(y, c) :: Logged(y.state.log, y.calls[c].record.value)
                                         && y.calls[c].record.value.Key() == y.calls[c].key
                                         && y.calls[c].record.value.sequence <= y.state.sequence
  {
    forall c | Tracking(y, c)
      ensures Logged(y.state.log, y.calls[c].record.value) && y.calls[c].record.value.Key() == y.calls[c].key
    {
      assert KeptCall(y.state, y.calls[c]);
    }
  }

  /** One more call, about a request no other call is about. */
  lemma OneMoreApart(y: System, z: System, c: nat, call: Call)
    requires Apart(y) && c !in y.calls && z.calls == y.calls[c := call]
    requires !call.Closing? && call.record.Some? ==>
               forall d | Tracking(y, d) :: y.calls[d].record.value.sequence != call.record.value.sequence
    ensures Apart(z)
  {
    assert forall d | Tracking(z, d) && d != c :: Tracking(y, d) && z.calls[d] == y.calls[d];
  }

  lemma ApartStep(y: System, o: Options, a: Action)
    requires Kept(y) && Apart(y) && Enabled(y, a) && Polite(y, a)
    ensures Apart(Step(y, o, a)) && Uncontested(y, a)
  {
    ApartUncontested(y, a);
    TrackingBefore(y);
    var z := Step(y, o, a);
    if a.EnterIo? {
      hide Kept, Apart;
      OneMoreApart(y, z, a.call, z.calls[a.call]);
    } else if a.EnterPoll? {
      PolledApart(y, (a.handle, a.overlapped));
      hide Kept, Apart;
      OneMoreApart(y, z, a.call, z.calls[a.call]);
    } else if a.EnterClose? {
      hide Kept, Apart;
      OneMoreApart(y, z, a.call, z.calls[a.call]);
    } else {
      hide Kept;
      assert forall d | Tracking(z, d) :: Tracking(y, d) && z.calls[d] == y.calls[d];
    }
  }

  /** A request polled while no other call is on its OVERLAPPED is one that no other call is about. */
  lemma PolledApart(y: System, key: (nat, nat))
    requires Kept(y) && forall c | c in y.calls && !y.calls[c].Closing? :: y.calls[c].key != key
    ensures key in y.state.pending ==>
              forall d | Tracking(y, d) :: y.calls[d].record.value.sequence != y.state.pending[key].sequence
  {
    TrackingBefore(y);
  }

  /** Polling only after the submission returned and by one thread at a time leaves no outcome contested. */
  lemma {:induction false} PoliteUncontested(o: Options, run: seq<Action>)
    requires Possible(o, run) && PoliteRun(o, run)
    ensures UncontestedRun(o, run) && Apart(After(o, run))
  {
    if run != [] {
      var front, a := run[..|run| - 1], run[|run| - 1];
      PoliteUncontested(o, front);
      AlwaysKept(o, front);
      hide Kept, Apart, Polite, Uncontested;
      ApartStep(After(o, front), o, a);
    }
  }

  /**
   Over every interleaving in which an OVERLAPPED is polled only after its submission returned and by one thread
   at a time: each request has at most one terminal outcome, nothing is reported of it afterwards, and every
   completion names a request submitted before and not yet finished.
   */
  lemma OneTerminalOutcome(o: Options, run: seq<Action>)
    requires Possible(o, run) && PoliteRun(o, run)
    ensures OnceOnly(After(o, run).state.log) && AfterSubmission(After(o, run).state.log)
  {
    PoliteUncontested(o, run);
    AlwaysLive(o, run);
    OutcomesSubmitted(o, run);
  }

  // ---------------------------------------------------------------- the discipline is needed

  lemma Extend(o: Options, run: seq<Action>, a: Action)
    requires Possible(o, run) && Enabled(After(o, run), a)
    ensures Possible(o, run + [a]) && After(o, run + [a]) == Step(After(o, run), o, a)
    ensures PoliteRun(o, run) && Polite(After(o, run), a) ==> PoliteRun(o, run + [a])
    ensures NoReuseRun(o, run) && NoReuse(After(o, run), a) ==> NoReuseRun(o, run + [a])
  {
  }

  const PASSIVE := Options({}, false)
  const FIRST := Options({}, true)

  /** The request of the runs below: sequence 1, a bulk read on handle 5 with OVERLAPPED 9. */
  const ONE := Record(1, 5, BULK_READ, 9, 1)
  const TWO := Record(2, 5, BULK_READ, 9, 2)

  /** Handle 5 is open and request 1 has been submitted by call 1, which has not returned. */
  const UNDERWAY := [Open(true, Some(5)), EnterIo(1, 5, BULK_READ, 9)]

  lemma Underway(o: Options)
    ensures Possible(o, UNDERWAY) && PoliteRun(o, UNDERWAY) && NoReuseRun(o, UNDERWAY)
    ensures After(o, UNDERWAY) ==
            System(State({5}, map[(5, 9) := ONE], 1, 1, false, {}, [], [DeviceOpen(5), Submit(ONE)]),
                   map[1 := Submitting((5, 9), Some(ONE))])
  {
    var start: seq<Action> := [];
    Extend(o, start, Open(true, Some(5)));
    assert start + [Open(true, Some(5))] == [Open(true, Some(5))];
    Extend(o, [Open(true, Some(5))], EnterIo(1, 5, BULK_READ, 9));
    assert [Open(true, Some(5))] + [EnterIo(1, 5, BULK_READ, 9)] == UNDERWAY;
    assert After(o, [Open(true, Some(5))]).state.handles == {5};
  }

  const TWO_POLLERS :=
    UNDERWAY + [LeaveIo(1, false, IO_PENDING)] + [EnterPoll(2, 5, 9)] + [EnterPoll(3, 5, 9)]
    + [LeavePoll(2, true, 0)] + [LeavePoll(3, true, 0)]

  /** Two threads polling one OVERLAPPED at once can report its request finished twice. */
  lemma TwoPollersFinishTwice()
    ensures Possible(PASSIVE, TWO_POLLERS) && !OnceOnly(After(PASSIVE, TWO_POLLERS).state.log)
  {
    Underway(PASSIVE);
    Extend(PASSIVE, UNDERWAY, LeaveIo(1, false, IO_PENDING));
    var run := UNDERWAY + [LeaveIo(1, false, IO_PENDING)];
    Extend(PASSIVE, run, EnterPoll(2, 5, 9));
    run := run + [EnterPoll(2, 5, 9)];
    Extend(PASSIVE, run, EnterPoll(3, 5, 9));
    run := run + [EnterPoll(3, 5, 9)];
    Extend(PASSIVE, run, LeavePoll(2, true, 0));
    run := run + [LeavePoll(2, true, 0)];
    Extend(PASSIVE, run, LeavePoll(3, true, 0));
    var log := After(PASSIVE, TWO_POLLERS).state.log;
    assert log[3] == Complete(1, true, 0) && log[4] == Complete(1, true, 0);
    assert Terminal(log[3]) && Outcome(log[3], 1) && Outcome(log[4], 1);
  }

  const EARLY_POLL :=
    UNDERWAY + [EnterPoll(2, 5, 9)] + [LeavePoll(2, true, 0)] + [LeaveIo(1, true, 0)]

  /** Polling an OVERLAPPED before its submission returned can report its request finished twice. */
  lemma EarlyPollFinishesTwice()
    ensures Possible(PASSIVE, EARLY_POLL) && !OnceOnly(After(PASSIVE, EARLY_POLL).state.log)
  {
    Underway(PASSIVE);
    Extend(PASSIVE, UNDERWAY, EnterPoll(2, 5, 9));
    var run := UNDERWAY + [EnterPoll(2, 5, 9)];
    Extend(PASSIVE, run, LeavePoll(2, true, 0));
    run := run + [LeavePoll(2, true, 0)];
    Extend(PASSIVE, run, LeaveIo(1, true, 0));
    var log := After(PASSIVE, EARLY_POLL).state.log;
    assert log[2] == Complete(1, true, 0) && log[3] == Return(1, true, 0);
    assert Terminal(log[2]) && Outcome(log[2], 1) && Outcome(log[3], 1);
  }

  // ---------------------------------------------------------------- injected cancels

  ghost predicate CancelLogged(log: seq<Event>, n: nat) {
    InjectedCancel(n) in log
  }

  ghost predicate Unresolved(log: seq<Event>, n: nat) {
    Return(n, false, IO_PENDING) in log && exists r :: Logged(log, r) && r.sequence == n && r.code == BULK_READ
  }

  ghost predicate CancelsOnce(log: seq<Event>) {
    forall i, j | 0 <= i < j < |log| && log[i].InjectedCancel? && log[j].InjectedCancel? ::
      log[i].sequence != log[j].sequence
  }

  ghost predicate Leaving(y: System, c: nat) {
    c in y.calls && y.calls[c].Submitting? && y.calls[c].record.Some?
  }

  /** Every cancel, issued or waiting, is of a bulk read whose submission returned "still running". */
  ghost predicate CancelsUnresolved(s: State) {
    && (forall n: nat | CancelLogged(s.log, n) :: Unresolved(s.log, n))
    && (forall r | r in s.deferred :: Unresolved(s.log, r.sequence))
  }

  ghost predicate CancelsApart(s: State) {
    && |s.deferred| <= 1 && (s.deferred != [] ==> s.cancelled && !CancelLogged(s.log, s.deferred[0].sequence))
    && CancelsOnce(s.log)
  }

  /** No submission still being made has been cancelled, or is about to be. */
  ghost predicate Uncancelled(s: State, n: nat) {
    !CancelLogged(s.log, n) && forall r | r in s.deferred :: r.sequence != n
  }

  ghost predicate LeavingApart(y: System) {
    && (forall c, d | Leaving(y, c) && Leaving(y, d) && c != d ::
          y.calls[c].record.value.sequence != y.calls[d].record.value.sequence)
    && (forall c | Leaving(y, c) :: Uncancelled(y.state, y.calls[c].record.value.sequence))
  }

  ghost predicate Cancelling(y: System) {
    CancelsUnresolved(y.state) && CancelsApart(y.state) && LeavingApart(y)
  }

  lemma UnresolvedGrows(log: seq<Event>, more: seq<Event>, n: nat)
    requires Unresolved(log, n)
    ensures Unresolved(log + more, n)
  {
  }

  lemma CancelsOnceSnoc(log: seq<Event>, e: Event)
    requires CancelsOnce(log)
    ensures (e.InjectedCancel? ==> !CancelLogged(log, e.sequence)) ==> CancelsOnce(log + [e])
  {
  }

  /** What the return of `r`'s submission does to the cancels. */
  lemma LeaveIoCancelled(s: State, o: Options, r: Record, ok: bool, error: int)
    ensures var z := IoLeave(s, o, Some(r), ok, error);
            && (forall n: nat :: CancelLogged(z.log, n) <==>
                  CancelLogged(s.log, n) || (CancelsNow(s, o, r, ok, error) && n == r.sequence))
            && (forall q :: q in z.deferred <==> q in s.deferred || (CancelsLater(s, o, r, ok, error) && q == r))
  {
  }

  lemma LeaveIoUnresolved(s: State, o: Options, r: Record, ok: bool, error: int)
    requires CancelsUnresolved(s) && Logged(s.log, r)
    ensures CancelsUnresolved(IoLeave(s, o, Some(r), ok, error))
  {
    var z := IoLeave(s, o, Some(r), ok, error);
    LeaveIoCancelled(s, o, r, ok, error);
    assert z.log == s.log + z.log[|s.log|..];
    forall n: nat | Unresolved(s.log, n) {
      UnresolvedGrows(s.log, z.log[|s.log|..], n);
    }
    if Cancellable(r, ok, error) {
      assert z.log[|s.log|] == Return(r.sequence, false, IO_PENDING) && Logged(z.log, r);
      assert Unresolved(z.log, r.sequence);
    }
  }

  lemma LeaveIoApart(s: State, o: Options, r: Record, ok: bool, error: int)
    requires CancelsApart(s) && Uncancelled(s, r.sequence)
    ensures CancelsApart(IoLeave(s, o, Some(r), ok, error))
  {
  }

  lemma LeaveIoCancels(y: System, o: Options, a: Action)
    requires Kept(y) && Cancelling(y) && a.LeaveIo? && Enabled(y, a)
    ensures Cancelling(Step(y, o, a))
  {
    var s, z, call := y.state, Step(y, o, a), y.calls[a.call];
    assert KeptCall(s, call);
    if call.record.Some? {
      var r := call.record.value;
      assert Leaving(y, a.call);
      LeaveIoUnresolved(s, o, r, a.ok, a.error);
      LeaveIoApart(s, o, r, a.ok, a.error);
      LeaveIoCancelled(s, o, r, a.ok, a.error);
      hide IoLeave, CancelsUnresolved, CancelsApart, CancelsNow, CancelsLater;
      assert forall c | Leaving(z, c) :: c != a.call && Leaving(y, c) && z.calls[c] == y.calls[c];
      assert z.state == IoLeave(s, o, Some(r), a.ok, a.error);
    }
  }

  lemma SubmitCancels(s: State, z: State, r: Record)
    requires CancelsUnresolved(s) && CancelsApart(s)
    requires z.log == s.log + [Submit(r)] && z.deferred == s.deferred && z.cancelled == s.cancelled
    ensures CancelsUnresolved(z) && CancelsApart(z)
    ensures forall n: nat :: CancelLogged(z.log, n) <==> CancelLogged(s.log, n)
  {
    CancelsOnceSnoc(s.log, Submit(r));
    forall n: nat | Unresolved(s.log, n) {
      UnresolvedGrows(s.log, [Submit(r)], n);
    }
  }

  lemma FreshSequence(s: State)
    requires KeptLog(s) && CancelsUnresolved(s)
    ensures forall n | n > s.sequence :: Uncancelled(s, n)
  {
  }

  /** A submission with a sequence no cancel names, beside those already being made. */
  lemma SubmitApart(y: System, z: System, c: nat, r: Record)
    requires LeavingApart(y) && Uncancelled(z.state, r.sequence)
    requires forall d | Leaving(y, d) :: y.calls[d].record.value.sequence < r.sequence
    requires z.calls == y.calls[c := Submitting(r.Key(), Some(r))] && z.state.deferred == y.state.deferred
    requires forall n: nat :: CancelLogged(z.state.log, n) <==> CancelLogged(y.state.log, n)
    ensures LeavingApart(z)
  {
    assert forall d | Leaving(z, d) && d != c :: Leaving(y, d) && z.calls[d] == y.calls[d];
  }

  lemma LeavingBefore(y: System)
    requires Kept(y)
    ensures forall d | Leaving(y, d) :: y.calls[d].record.value.sequence <= y.state.sequence
  {
    forall d | Leaving(y, d)
      ensures y.calls[d].record.value.sequence <= y.state.sequence
    {
      assert KeptCall(y.state, y.calls[d]);
    }
  }

  lemma EnterIoCancels(y: System, o: Options, a: Action)
    requires Kept(y) && Cancelling(y) && a.EnterIo? && Enabled(y, a)
    ensures Cancelling(Step(y, o, a))
  {
    hide CancelsUnresolved, CancelsApart, LeavingApart, Uncancelled, KeptPending, KeptCall, CancelLogged;
    var s, z := y.state, Step(y, o, a);
    if a.handle in s.handles {
      var r := IoRecord(s, a.handle, a.code, a.overlapped).value;
      SubmitCancels(s, z.state, r);
      FreshSequence(s);
      LeavingBefore(y);
      StillUncancelled(s, z.state, r.sequence);
      SubmitApart(y, z, a.call, r);
    } else {
      SameApart(y, z);
    }
  }

  lemma StillUncancelled(s: State, z: State, n: nat)
    requires Uncancelled(s, n) && z.deferred == s.deferred && (CancelLogged(z.log, n) <==> CancelLogged(s.log, n))
    ensures Uncancelled(z, n)
  {
  }

  lemma SameApart(y: System, z: System)
    requires LeavingApart(y) && z.state == y.state && forall c | Leaving(z, c) :: Leaving(y, c) && z.calls[c] == y.calls[c]
    ensures LeavingApart(z)
  {
  }

  lemma OtherCancels(y: System, o: Options, a: Action)
    requires Cancelling(y) && !a.LeaveIo? && !a.EnterIo? && Enabled(y, a)
    ensures Cancelling(Step(y, o, a))
  {
    var s, z := y.state, Step(y, o, a);
    if |z.state.log| > |s.log| {
      var e := z.state.log[|s.log|];
      assert z.state.log == s.log + [e];
      CancelsOnceSnoc(s.log, e);
      forall n: nat | Unresolved(s.log, n) {
        UnresolvedGrows(s.log, [e], n);
      }
      assert forall n: nat :: CancelLogged(z.state.log, n) <==> CancelLogged(s.log, n) || e == InjectedCancel(n);
    }
    assert forall c | Leaving(z, c) :: Leaving(y, c) && z.calls[c] == y.calls[c];
  }

  lemma {:induction false} AlwaysCancelling(o: Options, run: seq<Action>)
    requires Possible(o, run)
    ensures Cancelling(After(o, run))
  {
    if run != [] {
      var front, a := run[..|run| - 1], run[|run| - 1];
      AlwaysCancelling(o, front);
      AlwaysKept(o, front);
      hide Cancelling, Kept;
      if a.LeaveIo? {
        LeaveIoCancels(After(o, front), o, a);
      } else if a.EnterIo? {
        EnterIoCancels(After(o, front), o, a);
      } else {
        OtherCancels(After(o, front), o, a);
      }
    }
  }

  /**
   Over every interleaving and with any switches: no request is cancelled twice, only bulk reads whose submission
   returned "still running" are, and at most one cancel is ever waiting to be issued later.
   */
  lemma CancelledAtMostOnce(o: Options, run: seq<Action>)
    requires Possible(o, run)
    ensures CancelsOnce(After(o, run).state.log)
    ensures forall n: nat | CancelLogged(After(o, run).state.log, n) :: Unresolved(After(o, run).state.log, n)
    ensures |After(o, run).state.deferred| <= 1
  {
    AlwaysCancelling(o, run);
  }

  /** A request still being submitted is the one tracked at its OVERLAPPED, unless its handle was closed. */
  ghost predicate OwnSlot(y: System) {
    && (forall c | c in y.calls && y.calls[c].Submitting? && y.calls[c].record.Some? ::
          var r := y.calls[c].record.value;
          r.overlapped != 0 && y.calls[c].key in y.state.pending ==> y.state.pending[y.calls[c].key] == r)
    && (forall c, d | c in y.calls && y.calls[c].Submitting? && d in y.calls && y.calls[d].Submitting? && c != d ::
          y.calls[c].key != y.calls[d].key)
  }

  lemma {:induction false} AlwaysOwnSlot(o: Options, run: seq<Action>)
    requires Possible(o, run) && NoReuseRun(o, run)
    ensures OwnSlot(After(o, run))
  {
    if run != [] {
      AlwaysOwnSlot(o, run[..|run| - 1]);
      AlwaysKept(o, run[..|run| - 1]);
      OwnSlotStep(After(o, run[..|run| - 1]), o, run[|run| - 1]);
    }
  }

  lemma OwnSlotStep(y: System, o: Options, a: Action)
    requires Kept(y) && OwnSlot(y) && Enabled(y, a) && NoReuse(y, a)
    ensures OwnSlot(Step(y, o, a))
  {
    if a.EnterIo? && a.handle !in y.state.handles {
      assert Step(y, o, a).state == y.state;
    }
  }

  /**
   A cancel issued on the submitting thread, while that submission is returning, reaches its own request: at that
   moment the OVERLAPPED tracks no other, provided it is not submitted again before the submission returned.
   */
  lemma ImmediateCancelHitsItsRequest(o: Options, run: seq<Action>, call: nat, ok: bool, error: int)
    requires Possible(o, run) && NoReuseRun(o, run)
    requires Enabled(After(o, run), LeaveIo(call, ok, error)) && After(o, run).calls[call].record.Some?
    requires CancelsNow(After(o, run).state, o, After(o, run).calls[call].record.value, ok, error)
    ensures var y := After(o, run);
            var r := y.calls[call].record.value;
            r.Key() in y.state.pending ==> y.state.pending[r.Key()] == r
  {
    AlwaysOwnSlot(o, run);
    AlwaysKept(o, run);
    assert KeptCall(After(o, run).state, After(o, run).calls[call]);
  }

  const LATE_CANCEL :=
    UNDERWAY + [LeaveIo(1, false, IO_PENDING)] + [EnterPoll(2, 5, 9)] + [LeavePoll(2, true, 0)]
    + [EnterIo(3, 5, BULK_READ, 9)] + [LeaveIo(3, false, IO_PENDING)]

  /**
   A cancel deferred to a later callback can reach another request even in a disciplined run: here request 1 is
   to be cancelled, but its OVERLAPPED already belongs to request 2.
   */
  lemma DeferredCancelHitsAnother()
    ensures Possible(FIRST, LATE_CANCEL) && PoliteRun(FIRST, LATE_CANCEL) && NoReuseRun(FIRST, LATE_CANCEL)
    ensures var s := After(FIRST, LATE_CANCEL).state;
            && s.deferred == [ONE] && Finished(s.log, 1)
            && ONE.Key() in s.pending && s.pending[ONE.Key()] == TWO && !Finished(s.log, 2)
  {
    Underway(FIRST);
    Extend(FIRST, UNDERWAY, LeaveIo(1, false, IO_PENDING));
    var run := UNDERWAY + [LeaveIo(1, false, IO_PENDING)];
    assert After(FIRST, run).state.deferred == [ONE];
    Extend(FIRST, run, EnterPoll(2, 5, 9));
    run := run + [EnterPoll(2, 5, 9)];
    Extend(FIRST, run, LeavePoll(2, true, 0));
    run := run + [LeavePoll(2, true, 0)];
    Extend(FIRST, run, EnterIo(3, 5, BULK_READ, 9));
    run := run + [EnterIo(3, 5, BULK_READ, 9)];
    Extend(FIRST, run, LeaveIo(3, false, IO_PENDING));
    PoliteUncontested(FIRST, LATE_CANCEL);
    AlwaysLive(FIRST, LATE_CANCEL);
    var log := After(FIRST, LATE_CANCEL).state.log;
    assert log[3] == Complete(1, true, 0) && Terminal(log[3]) && Outcome(log[3], 1);
  }
}
