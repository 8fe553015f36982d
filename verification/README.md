# Evidence tooling, modelled in Dafny

regain replaces vendor SDKs with its own drivers. What it relies on to do so is evidence: which libraries a
payload imports, which USB bytes form a frame, what a cancelled transfer left behind, which exercises a camera
survives, how far a rotator has really turned. The scripts that gather and judge this evidence are modelled here,
one module or a few for each, and the promises made for them are proved for all inputs and all interleavings.

Loops and objects keep their form: a loop is a `method` with invariants, an object whose methods change fields is
a `class`. Each method is tied to a function of its inputs or of the old state, and lemmas relate that function to
an independent statement of what the script promises. Whatever lies outside a script - a worker process, a
camera, a file system, a clock - is a nondeterministic partner whose commands may fail at any step.

`dafny verify dfyconfig.toml` checks the project.

| file | models |
|---|---|
| `PeImports.dfy`, `PeWriter.dfy`, `RuntimeAudit.dfy` | the PE import parser, a writer it must undo, and the VC++ runtime guard built on it |
| `WireRuns.dfy`, `KnownPixels.dfy`, `VideoWire.dfy` | reassembly of USB frames, the check after a cancelled transfer, the video marker scan and ordered match |
| `TransportTrace.dfy`, `TransportLog.dfy`, `TransportOutcomes.dfy`, `TransportTracking.dfy` | the driver hooks as a state machine over interleaved callbacks, and what its log means |
| `HostClient.dfy` | the length-framed request and reply client |
| `TraceRecorder.dfy` | the bounded recorder with its latched error |
| `ExercisePlan.dfy`, `PlanProperties.dfy`, `PlanReasons.dfy`, `CameraKit.dfy` | the exercise plan, its guarantees, and the run that restores every control |
| `Caa.dfy`, `CaaMultiturn.dfy`, `CaaReference.dfy` | the rotator with an ideal encoder, and the two experiments that rewrite its origin |
| `RustLicenses.dfy` | the licence closure and its plan-before-copy staging |
| `Bytes.dfy`, `Integers.dfy`, `SortedSets.dfy`, `Wrappers.dfy` | shared bytes, integer order, sorted sets, outcomes |

## Where a promise has a condition

Some promises do not hold unconditionally of the code. The code is modelled as it is, and the exact condition or
the need for the discipline is proved.

- The eight-byte step of the marker scan visits every marker if and only if no two occurrences in the file
  overlap (`ScanCompleteIff`), and then, in either format, every whole frame is recorded (`FramesRecorded`). The
  16-bit marker cannot overlap itself; the shared 8-bit delimiter can, and then an occurrence is missed
  (`Raw8ScanMisses`).
- The count reported after a cancelled transfer equals the bytes compared if and only if no chunk of a cut pass is
  shorter than the eight bytes its digest leaves out (`CountExact`); with such a chunk it can be negative
  (`ShortChunkCount`).
- A traced request has one terminal outcome, with nothing reported after it, if and only if no terminal outcome is
  reported while another call about the request is in progress (`FinishedOnceIff`). Polling only after the
  submission returned and by one thread at a time is enough (`OneTerminalOutcome`); dropping either half is not
  (`TwoPollersFinishTwice`, `EarlyPollFinishesTwice`).
- The hooks' table holds exactly the outstanding requests at every moment if and only if no terminal outcome is
  reported while its OVERLAPPED tracks another request (`TrackedIff`). Submitting an OVERLAPPED only while no other
  call on it is in progress is enough (`TrackedExactly`); submitting it during a poll loses the new request
  (`ReuseLosesRequest`).
- While the table is exact, an injected cancel reaches its own request exactly when that is still outstanding, and
  another exactly when another request on its OVERLAPPED is, whether it is issued on the submitting thread
  (`ImmediateCancelTarget`) or deferred to a later callback (`DeferredCancelTarget`). Each can reach another
  (`ImmediateCancelHitsAnother`, `DeferredCancelHitsAnother`); the script's own comment suspects the deferred one.
  The immediate one cannot if the OVERLAPPED is not submitted again before the submission returned
  (`ImmediateCancelHitsItsRequest`).
- In the rotator's boundary phase the displacement books are exact except for a reference write that takes effect
  in a call that fails: the books never learn of it. The six-degree check accepts such books if and only if
  displacement and slip add up to at most six degrees (`CheckExact`, `Reconcile`), and the return then drives the
  device that far from home. A slipped write to 359 degrees is accepted exactly from an original reading of 353
  degrees on. A slipped write to 360 is always accepted, whatever the original reading (`SecondWriteSlips`: the
  device ends a degree away). A slipped write to zero is accepted only if the write to 360 was made about a whole
  turn from home, far beyond what the probes ask for (`SlipAccepted`).
- An aborted multi-turn run reports its travel exactly unless the device is below the origin of an open leg; the
  unsigned reading has then wrapped (`MultiTurn`). If the first look already refuses the device, zero is reported,
  also for one that was moving.
- After a successful licence staging every copied text has its planned digest if and only if no two copies share a
  target and differ (`DigestsKeptIff`). One name and version from two sources breaks it (`SameNameClash`).

## Model

Main results first, then the lemmas and the operations they rest on.

| member | source | states |
|---|---|---|
| PeImports.ImportsExact | scripts/check-windows-runtime.py:17-95 | for every byte string: success with a set of names exactly when the file is well formed and its two tables name that set |
| PeWriter.RoundTrip | scripts/check-windows-runtime.py:35-95 | the parser undoes the writer: any lists of ordinary and delay imports, in either addressing form and either layout, are returned exactly |
| RuntimeAudit.WrittenImageVerdict | scripts/check-windows-runtime.py:14-117 | a written image passes exactly when no name in either table is a versioned runtime |
| RuntimeAudit.RuntimeExact | scripts/check-windows-runtime.py:14 | a name is a versioned runtime exactly when it splits into one of the five families in any letter case, a digit, a middle without path separators, and .dll in any letter case |
| RuntimeAudit.CaseInsensitive | scripts/check-windows-runtime.py:14 | names equal up to ASCII letter case are both runtimes or both not |
| RuntimeAudit.RuntimeCaught | scripts/test_windows_runtime.py:52 | VCRUNTIME140.dll is caught |
| RuntimeAudit.SystemLibrariesPass | scripts/check-windows-runtime.py:14 | msvcrt.dll and ucrtbase.dll pass |
| WireRuns.ReassemblySound | scripts/inspection/compare_wire.py:5-30 | every frame is one frame's bytes joined from consecutive requests, none missing; the stretches are disjoint and in order |
| WireRuns.GapSeparates | scripts/inspection/compare_wire.py:12-30 | a missing request splits the computation into that of the parts before and after it |
| WireRuns.BytesConserved | scripts/inspection/compare_wire.py:10-30 | frame bytes plus rejected sizes are all bytes delivered |
| WireRuns.RejectedSizes | scripts/inspection/compare_wire.py:14-29 | a frame's size is never rejected; zero is exactly when an empty chunk meets a negative frame size |
| WireRuns.ReplayRecovered | scripts/inspection/compare_wire.py:12-27 | a complete transfer after a gap is recovered whole, whatever surrounds it |
| WireRuns.OverflowSeparates | scripts/inspection/compare_wire.py:12-27 | a chunk too large for the bytes collected separates like a gap and begins the next run itself |
| WireRuns.ReplayAfterOverflow | scripts/inspection/compare_wire.py:12-27 | a complete transfer after an unfinished one is recovered whole without a gap between them, when its first chunk does not fit; the unfinished one is rejected by its size |
| KnownPixels.AcceptedStream | scripts/inspection/validate_6200_cancellation.py:14-37 | an accepted log's stream reassembles to exactly two frames and rejects exactly the passes cut short and the open one |
| KnownPixels.VerdictExact | scripts/inspection/validate_6200_cancellation.py:20-35 | the check accepts exactly the streams in which every chunk fits into its frame, exactly two passes are whole and equal, and every pass cut short is their beginning, as far as lengths and digests tell |
| KnownPixels.ReadsExact | scripts/inspection/validate_6200_cancellation.py:15-21 | the log checked has one entry for each submitted bulk read, in order: the last digest logged for its sequence anywhere in the events, or none exactly when there is none |
| KnownPixels.PixelsUnchanged | scripts/inspection/validate_6200_cancellation.py:14-37 | in an accepted log every chunk delivered in a pass later cut short is found, at the offset where it was delivered, in both reassembled frames with the same pixels |
| KnownPixels.CountExact | scripts/inspection/validate_6200_cancellation.py:36-37 | for an accepted log the count never exceeds the bytes compared, and equals them exactly when no chunk of a cut pass is shorter than eight bytes |
| KnownPixels.ShortChunkCount | scripts/inspection/validate_6200_cancellation.py:36-37 | an accepted log whose count is negative |
| VideoWire.ScanCompleteIff | scripts/inspection/qhy_verify_video_wire.py:22-41 | every occurrence is visited if and only if no two overlap |
| VideoWire.FramesRecorded | scripts/inspection/qhy_verify_video_wire.py:19-41 | in either format, if no two markers overlap, the digests are those of the images of every whole frame, each once, in file order |
| VideoWire.PixelsExact | scripts/inspection/qhy_verify_video_wire.py:29-39 | what is digested of a frame: byte for byte its last 6422 rows, after the 34 leading ones, with the bytes of 16-bit pixels swapped |
| VideoWire.Raw16FramesRecorded | scripts/inspection/qhy_verify_video_wire.py:19-41 | in a 16-bit recording the digests are those of every whole frame, each once, in file order |
| VideoWire.Raw8ScanMisses | scripts/inspection/qhy_verify_video_wire.py:22-41 | a file in which the 8-bit scan misses a marker |
| VideoWire.MatchInOrder | scripts/inspection/qhy_verify_video_wire.py:42-47 | the greedy loop succeeds if and only if the SDK's digests are a subsequence of the wire's |
| TransportTrace.PendingTracked | scripts/inspection/trace-transport.js:69-172 | over every interleaving: tracked requests belong to open camera handles, have distinct sequences, and a poll reports a request submitted on its own handle and OVERLAPPED |
| TransportLog.SubmissionsNumbered | scripts/inspection/trace-transport.js:99-105 | over every interleaving: every submission bears its place among all submissions, and a bulk read its place among the bulk reads |
| TransportLog.SubmissionLogged | scripts/inspection/trace-transport.js:96-118 | a submission is logged exactly when its handle is open as a camera's by the log, as what was submitted, with both numbers |
| TransportLog.ReturnLogged | scripts/inspection/trace-transport.js:119-150 | what a return logs, and exactly when it cancels its request at once or puts the cancel off, in terms of the log and the switches |
| TransportLog.FirstBulkCancelled | scripts/inspection/trace-transport.js:101-141 | a run in which the first bulk read after a control request is number 1 and is cancelled by that number |
| TransportOutcomes.FinishedOnceIff | scripts/inspection/trace-transport.js:95-172 | over every interleaving, no discipline assumed: nothing is reported of a request after its terminal outcome, nor about to be, if and only if no terminal outcome is reported while another call about the request is in progress |
| TransportOutcomes.OneTerminalOutcome | scripts/inspection/trace-transport.js:95-172 | under the polling discipline: one terminal outcome for each request, and nothing reported of it afterwards |
| TransportOutcomes.OutcomesSubmitted | scripts/inspection/trace-transport.js:95-172 | over every interleaving: every outcome names a request submitted before it |
| TransportTracking.TrackedIff | scripts/inspection/trace-transport.js:86-171 | over every interleaving, no discipline assumed: the tracked requests are at every moment exactly the outstanding asynchronous ones, if and only if no terminal outcome is reported while its OVERLAPPED tracks another request |
| TransportTracking.TrackedExactly | scripts/inspection/trace-transport.js:86-171 | submitting an OVERLAPPED only while no other call on it is in progress is enough, and a poll then finds its own request |
| TransportOutcomes.CancelledAtMostOnce | scripts/inspection/trace-transport.js:128-150 | over every interleaving and all switches: no request is cancelled twice, only bulk reads returned as still running are, and at most one cancel is ever deferred |
| TransportOutcomes.ImmediateCancelHitsItsRequest | scripts/inspection/trace-transport.js:128-141 | a cancel on the submitting thread finds its own request at its OVERLAPPED, or none |
| TransportTracking.DeferredCancelTarget | scripts/inspection/trace-transport.js:142-150 | while the table is exact a deferred cancel finds its own request exactly when that is still outstanding, and another exactly when another on its OVERLAPPED is |
| TransportTracking.ImmediateCancelTarget | scripts/inspection/trace-transport.js:128-141 | the same of a cancel issued on the submitting thread |
| TransportTracking.ReuseLosesRequest | scripts/inspection/trace-transport.js:105-171 | a run in which submitting an OVERLAPPED while it is polled loses track of the new request |
| TransportTracking.ImmediateCancelHitsAnother | scripts/inspection/trace-transport.js:105-141 | a run in which an immediate cancel targets another request, submitted before the first submission returned |
| TransportOutcomes.TwoPollersFinishTwice | scripts/inspection/trace-transport.js:154-171 | a run with two concurrent polls that finishes a request twice |
| TransportOutcomes.EarlyPollFinishesTwice | scripts/inspection/trace-transport.js:119-171 | a run with a poll before the submission returned that finishes a request twice |
| TransportOutcomes.DeferredCancelHitsAnother | scripts/inspection/trace-transport.js:142-150 | a disciplined run in which a deferred cancel targets another request |
| HostClient.Host.Call | scripts/camera-kit/client.py:42-103 | an unbroken client has read exactly one whole reply for each request sent; without an I/O fault or expiry it breaks exactly when the coming bytes do not begin with one or the result is missing, and with either it is broken; broken stays broken |
| HostClient.InStep | scripts/camera-kit/client.py:42-103 | against a worker that answers in order, the replies read are the worker's first ones and the next bytes begin its next answer |
| HostClient.ExpectExact | scripts/camera-kit/client.py:64-91 | the coming bytes hold a reply to a request exactly when they begin with the encoding of an answer to it |
| TraceRecorder.AlwaysConsistent | scripts/camera-kit/trace.py:47-135 | over every sequence: counters match contents within 64 and 256 MiB; index and bulk count are the log's, or one ahead after an error |
| TraceRecorder.LogComplete | scripts/camera-kit/trace.py:47-135 | without an error the log is what was delivered while accepting, nothing dropped, invented or reordered |
| TraceRecorder.ErrorExact | scripts/camera-kit/trace.py:47-120 | over every sequence: the error is the first trouble, decided by the sizes delivered and the faults alone, and without one the counters are the bytes delivered |
| TraceRecorder.ErrorFreeRun | scripts/camera-kit/trace.py:84-118 | without an error the index and bulk count are exactly the log's, line by line |
| TraceRecorder.Frozen | scripts/camera-kit/trace.py:49-75 | after an error or close nothing recorded or counted changes, nor the error |
| PlanProperties.CaseSafe | scripts/camera-kit/plan.py:26-44 | every planned case is aligned, inside the sensor, the exposure range, 128 MiB and every control's range |
| PlanProperties.OneVariableAtATime | scripts/camera-kit/plan.py:17-47 | same control keys in every case, at most one control off the baseline, and then the default exposure |
| PlanProperties.BoundsSkips | scripts/camera-kit/plan.py:34-37 | given an exposure time, exactly the bins too narrow for eight pixels are skipped for leaving the sensor |
| PlanProperties.BaselinePlanned | scripts/camera-kit/plan.py:17-46 | the baseline case is planned exactly when an exposure time and every baseline control are admissible |
| PlanProperties.NamesDistinct | scripts/camera-kit/plan.py:46-76 | no two entries of a plan share a name |
| PlanReasons.PlanByName | scripts/camera-kit/plan.py:9-77 | the plan name by name: a listed name is run exactly when no reason speaks against it, otherwise skipped for exactly that reason, and no other name appears |
| PlanReasons.ItemsNamed | scripts/camera-kit/plan.py:46-76 | exactly the listed names are proposed: regions, bins, exposure times, sweep values and switches |
| PlanReasons.SetupExact | scripts/camera-kit/plan.py:10-23 | which cameras are accepted, and exactly which controls the baseline holds at which values |
| PlanProperties.FiledExactly | scripts/camera-kit/plan.py:41-44 | a case is planned exactly when proposed and not objected to; every skip is a proposal with its reason |
| CameraKit.Session | scripts/camera-kit/camera_kit.py:143-312 | only saved controls are ever set; a session that passes started every frame of every case in order and leaves each control in the state it found; one without errors ended by restoring every saved control |
| CameraKit.CleanUp | scripts/camera-kit/camera_kit.py:266-303 | an open, living camera always has every saved control set back in order; success without errors means that happened |
| CameraKit.RunCases | scripts/camera-kit/camera_kit.py:172-234 | whatever earlier cases did or failed to do, every exposure starts with its own case's settings; a matrix that passed started every frame of every case, in order |
| CaaMultiturn.MultiTurn | scripts/inspection/validate_caa_multiturn.py:49-125 | displacement from where the first look found the device is the total plus the open leg; completion means a report of the fifth motion showed the device as far from home as reported, at least 449.85 degrees, and return within 0.1 degrees with reading and limit as found; an abort's net travel is exact or one wrap high |
| CaaMultiturn.Travelled | scripts/inspection/validate_caa_multiturn.py:78-105 | until a leg is refused every report of the run shows the device at or past home, by at most 450.17 degrees during the five forward motions and 450.2 after |
| CaaReference.Boundary | scripts/inspection/validate_caa_reference.py:208-255 | a completed cleanup leaves the device within 0.03 degrees of home but for the writes that slipped; it was reached through an acceptable check, and a readable device is refused by the check only when it is not acceptable; the limits and motions asked for are the script's, the original limit last |
| CaaReference.CheckExact | scripts/inspection/validate_caa_reference.py:242-244 | the six-degree check passes exactly when no reading is wrapped, no recorded write was made from below the origin, and displacement and slip add up to at most six degrees; then the books are their sum |
| CaaReference.SlipAccepted | scripts/inspection/validate_caa_reference.py:213-244 | when the check accepts books that missed a write: slipped at 359 exactly from 353 degrees on, at 360 always, at zero exactly when the write to 360 was within six degrees of a turn from home |
| CaaReference.SecondWriteSlips | scripts/inspection/validate_caa_reference.py:218-255 | a run whose slipped write to 360 is accepted from every original reading, and which rests a degree from home |
| CaaReference.Restore | scripts/inspection/validate_caa_reference.py:240-255 | success rests within 0.03 degrees of home displaced by the slip; no return move is refused as too far |
| RustLicenses.Resolve | scripts/rust_licenses.py:52-58 | the worklist terminates with exactly the reachable nodes, or fails exactly when a reachable one is missing |
| RustLicenses.PlanExact | scripts/rust_licenses.py:59-68 | a plan exists exactly when every resolved registry package has a plain folder name and its texts, all inside their base, and holds their entries and no others |
| RustLicenses.Destination.Stage | scripts/rust_licenses.py:51-84 | success and every planning failure are as specified; a failure while planning, reading included, leaves the destination untouched; the manifest appears only when every copy arrived as planned |
| RustLicenses.DigestsKeptIff | scripts/rust_licenses.py:69-79 | every copied text keeps its planned digest if and only if no two copies share a target and differ |
| RustLicenses.SameNameClash | scripts/rust_licenses.py:59-79 | any two resolved packages that share a folder and a file name but not its content are both planned, and a planned digest is lost |
| PeImports.HeaderExact | scripts/check-windows-runtime.py:26-52 | a header is accepted exactly when the bytes hold both signatures, one of the two optional-header layouts, a directory count that fits and sections inside the file |
| PeImports.OffsetExact | scripts/check-windows-runtime.py:54-60 | an address maps to a position exactly when the headers hold it, or else the first covering section does |
| PeImports.OffsetInFile | scripts/check-windows-runtime.py:54-60 | every position handed out has all its bytes in the file; the only error is an address without file backing |
| PeImports.NameExact | scripts/check-windows-runtime.py:62-71 | a name is returned exactly when 1 to 259 printable bytes and a zero are the mapped bytes at its address |
| PeImports.EntryExact | scripts/check-windows-runtime.py:83-92 | a descriptor names a library exactly when it is mapped, not all zero, and its address, image-relative for version-0 delay imports, holds the name |
| PeImports.TableExact | scripts/check-windows-runtime.py:74-94 | a directory yields a set of names exactly when it is absent, empty, or lists them before a terminator inside its declared size |
| PeWriter.WrittenHeader | scripts/test_windows_runtime.py:14-27 | a laid-out image has the intended header, in either layout |
| WireRuns.OversizedRejected | scripts/inspection/compare_wire.py:14-22 | a chunk larger than a frame is rejected by itself and nothing is kept |
| RuntimeAudit.CleanExact | scripts/check-windows-runtime.py:112-117 | a binary is clean exactly when it parses and imports no versioned runtime |
| KnownPixels.CutLocated | scripts/inspection/validate_6200_cancellation.py:20-32 | a request is in a pass cut short exactly where its position in the stream says, at the offset counted from the stream alone |
| KnownPixels.LogsUnique | scripts/inspection/validate_6200_cancellation.py:15-21 | events determine that log |
| VideoWire.VisitedSound | scripts/inspection/qhy_verify_video_wire.py:27-41 | visited positions are occurrences at least eight bytes apart |
| VideoWire.VisitedComplete | scripts/inspection/qhy_verify_video_wire.py:27-41 | an occurrence is visited or overlaps an earlier visited one |
| VideoWire.FramesScanned | scripts/inspection/qhy_verify_video_wire.py:19-41 | on every file the digests are those of whole frames in file order, and one is left out only if its marker overlaps an earlier one |
| VideoWire.WholeExact | scripts/inspection/qhy_verify_video_wire.py:19-31 | a whole frame in literal bytes and lengths |
| VideoWire.Raw16ScanComplete | scripts/inspection/qhy_verify_video_wire.py:22-41 | the 16-bit scan misses no marker in any file |
| VideoWire.DigestsExact | scripts/inspection/qhy_verify_video_wire.py:31-40 | a digest is recorded exactly for each visited marker whose frame and footer lie in the file, in order |
| VideoWire.GreedyStep | scripts/inspection/qhy_verify_video_wire.py:46-47 | taking the first match of the head never loses a match of the rest |
| TransportOutcomes.PoliteUncontested | scripts/inspection/trace-transport.js:95-172 | polling only after the submission returned and by one thread at a time leaves no outcome contested |
| TransportTracking.OutstandingSnoc | scripts/inspection/trace-transport.js:86-171 | a request stays outstanding until its terminal outcome, its handle's close or a new submission on its OVERLAPPED |
| TransportTracking.ExclusiveUndisturbed | scripts/inspection/trace-transport.js:86-171 | submitting only while no other call on the OVERLAPPED is in progress leaves no outcome disturbed |
| HostClient.AnswerUnique | scripts/camera-kit/client.py:64-91 | at most one frame at the head of a stream answers a request |
| HostClient.HeaderReasons | scripts/camera-kit/client.py:67-85 | why a reply with a whole JSON text breaks the client, each reason exactly |
| HostClient.EqualsIntExact | scripts/camera-kit/client.py:70-72 | a boolean or a float also answers a request of equal value |
| HostClient.SameConversation | scripts/camera-kit/client.py:42-103 | equally many answers read off the same bytes are the same answers |
| TraceRecorder.HandledConsistent | scripts/camera-kit/trace.py:71-120 | one message keeps the recorder consistent |
| PlanProperties.ItemsFormed | scripts/camera-kit/plan.py:24-76 | every proposal changes the exposure alone or one baseline control alone, with its frames and sample flag |
| PlanProperties.EmptyExposureRange | scripts/camera-kit/plan.py:30-31 | with no admissible exposure time nothing is planned |
| PlanProperties.RoiVerdict | scripts/camera-kit/plan.py:21-51 | no region case is ever outside the sensor; only the full frame can be too large, exactly when its bytes are |
| PlanProperties.BinVerdict | scripts/camera-kit/plan.py:52-55 | a binned case is outside the sensor exactly when the binned width is below eight |
| PlanProperties.TimesCovered | scripts/camera-kit/plan.py:56-60 | every listed exposure time is proposed |
| PlanProperties.SweepValuesExact | scripts/camera-kit/plan.py:65-71 | a sweep visits exactly the ends and middle of the range and, extended, gain's boundaries, except the baseline's own value |
| PlanProperties.SweepsCovered | scripts/camera-kit/plan.py:61-71 | each of gain, offset and bandwidth is proposed at every value of its sweep, or noted as not writable |
| PlanReasons.CapsExact | scripts/camera-kit/plan.py:10 | the last reported control of each kind counts |
| PlanReasons.JudgeByName | scripts/camera-kit/plan.py:26-44 | a proposal's first objection, decided by its name |
| PlanReasons.BaselineFirstAndLast | scripts/camera-kit/plan.py:46-76 | the plan begins and ends with the baseline |
| CameraKit.PlanRunnable | scripts/camera-kit/camera_kit.py:157-182 | the plan's cases share their controls, none the exposure, and all of those are saved |
| CameraKit.CoolerLast | scripts/camera-kit/camera_kit.py:286 | ascending, and the cooler switch after all others |
| CameraKit.RoundedExact | scripts/camera-kit/camera_kit.py:244 | the nearest whole degree, halfway to the even one |
| Caa.ReadingExact | scripts/inspection/validate_caa_reference.py:92-93 | an unsigned 32-bit reading shows the signed distance exactly when that is not negative |
| CaaReference.StepCloser | scripts/inspection/validate_caa_reference.py:250-254 | each two-degree step brings the distance below the next bound, so a fifth is never needed |
| CaaReference.Relabelled | scripts/inspection/validate_caa_reference.py:213-236 | a recorded write keeps the books up to date but for a wrapped label; an unrecorded one adds exactly its slip |
| RustLicenses.TextsExact | scripts/rust_licenses.py:18-48 | a package has texts exactly when its declared licence is good and it carries one or has a usable repair; none of them is left out |
| RustLicenses.EntryExact | scripts/rust_licenses.py:59-68 | a package is planned exactly when its folder name is plain and its texts lie inside their base; its entry sends just these texts to its own folder |
| RustLicenses.TextsRefused | scripts/rust_licenses.py:18-48 | why a package has no texts, each reason exactly |
| RustLicenses.CopiesExact | scripts/rust_licenses.py:71-77 | the copies are exactly the planned texts, each to its package's folder |
| PeImports.ReadSections | scripts/check-windows-runtime.py:47-52 | the section loop returns every table entry in order, or the first truncation it meets |
| PeImports.ReadHeader | scripts/check-windows-runtime.py:26-52 | headers are read or refused for the right reason, and an accepted file backs every section |
| PeImports.ReadName | scripts/check-windows-runtime.py:62-71 | the byte loop returns the name or the error of the specification, in at most 260 reads |
| PeImports.ReadEntry | scripts/check-windows-runtime.py:83-92 | one descriptor's name, the terminator, or the error |
| PeImports.ReadTable | scripts/check-windows-runtime.py:82-94 | the strided loop adds exactly the names before the first all-zero descriptor, or reports the first error |
| PeImports.AddTable | scripts/check-windows-runtime.py:74-94 | one turn of the loop over the ordinary and the delay table |
| PeImports.ReadImports | scripts/check-windows-runtime.py:17-95 | the parser computes the specified set or error for every byte string |
| RuntimeAudit.Audit | scripts/check-windows-runtime.py:98-119 | the guard passes exactly nonempty payloads of clean binaries; otherwise it names the first offender and why |
| WireRuns.CompleteTurn | scripts/inspection/compare_wire.py:13-27 | one turn of the loop emits and keeps exactly what the specification says |
| WireRuns.CompleteRuns | scripts/inspection/compare_wire.py:5-30 | the loop computes the specified frames and rejected sizes |
| KnownPixels.SplitLog | scripts/inspection/validate_6200_cancellation.py:15-32 | the loop cuts the log into complete, partial and open passes, or finds an invalid boundary |
| KnownPixels.VerifyKnownPixels | scripts/inspection/validate_6200_cancellation.py:14-37 | the verdict and the count on what the events log of every bulk read |
| VideoWire.Find | scripts/inspection/qhy_verify_video_wire.py:28 | the first occurrence at or after a position, or proof that there is none |
| VideoWire.ScanFrames | scripts/inspection/qhy_verify_video_wire.py:24-41 | the scan terminates with the digests of the whole frames at the visited markers, which FramesScanned relates to the file's bytes |
| VideoWire.Verify | scripts/inspection/qhy_verify_video_wire.py:14-53 | acceptance exactly for supported full frames whose digests are matched in order among those of the scanned frames' images, none delivered twice |
| TransportTrace.Tracer.OnCreateFileLeave | scripts/inspection/trace-transport.js:69-84 | a camera open adds its handle and its event, nothing else |
| TransportTrace.Tracer.OnCloseHandleLeave | scripts/inspection/trace-transport.js:87-93 | a close drops the handle and exactly its pending requests |
| TransportTrace.Tracer.OnDeviceIoControlEnter | scripts/inspection/trace-transport.js:96-118 | a submission on a camera handle is numbered, logged and, unless synchronous, tracked |
| TransportTrace.Tracer.OnDeviceIoControlLeave | scripts/inspection/trace-transport.js:119-152 | the return is logged, selected bulk reads are cancelled now or later, and finished requests are no longer tracked |
| TransportTrace.Tracer.OnGetOverlappedResultLeave | scripts/inspection/trace-transport.js:159-171 | the completion is logged and, unless still incomplete, no longer tracked |
| TransportTrace.Tracer.OnImmediate | scripts/inspection/trace-transport.js:146-149 | a deferred cancel is issued |
| HostClient.Host.Exact | scripts/camera-kit/client.py:32-40 | exactly the next bytes, in whatever pieces they come; short only at the end or from a killed worker |
| HostClient.Host.ReadReply | scripts/camera-kit/client.py:64-78 | a header accepted exactly as specified, with the same bytes consumed, or a broken client and the specified failure |
| HostClient.Host.ReadPayload | scripts/camera-kit/client.py:79-91 | the whole binary part, digested and saved piece by piece |
| HostClient.Host.Exchange | scripts/camera-kit/client.py:61-91 | one whole reply to the request just numbered, or a broken client |
| TraceRecorder.Trace.Record | scripts/camera-kit/trace.py:47-69 | a line is written and counted within budget, or an error latched |
| TraceRecorder.Trace.OnMessage | scripts/camera-kit/trace.py:71-120 | counting, sampling and logging of one message, with whatever raises latched as an error |
| ExercisePlan.Planner.Add | scripts/camera-kit/plan.py:26-44 | one proposal is filed as a case or a skip with its first reason |
| ExercisePlan.Planner.AddRois | scripts/camera-kit/plan.py:46-51 | the baseline, full-frame and region proposals |
| ExercisePlan.Planner.AddBins | scripts/camera-kit/plan.py:52-55 | one proposal for each distinct bin from 2 to 16 |
| ExercisePlan.Planner.AddTimes | scripts/camera-kit/plan.py:56-60 | one proposal for each exposure time |
| ExercisePlan.Planner.AddValues | scripts/camera-kit/plan.py:70-71 | one proposal for each value of a swept control |
| ExercisePlan.Planner.AddSweeps | scripts/camera-kit/plan.py:61-71 | gain, offset and bandwidth sweeps, or a note that a control is not writable |
| ExercisePlan.Planner.AddSwitches | scripts/camera-kit/plan.py:72-75 | the extended switch proposals |
| ExercisePlan.Draw | scripts/camera-kit/plan.py:46-77 | all proposals in order, each judged |
| ExercisePlan.MakePlan | scripts/camera-kit/plan.py:9-77 | the plan of the specification, or why the camera is refused |
| CameraKit.ApplyControls | scripts/camera-kit/camera_kit.py:180-181 | on success every control of the case is set |
| CameraKit.RunCase | scripts/camera-kit/camera_kit.py:178-222 | every exposure starts with the case's own settings; a passed case started all its frames |
| CameraKit.SaveControls | scripts/camera-kit/camera_kit.py:157-160 | every writable imaging control, and cooling ones if exercised, is saved as it is |
| CameraKit.RestoreControls | scripts/camera-kit/camera_kit.py:286-291 | every saved control is set back in the fixed order; a matched one ends in its saved state |
| CameraKit.ExerciseCooling | scripts/camera-kit/camera_kit.py:235-248 | only saved controls are written: on success a target two degrees below the measured temperature, within range, then cooler and dew heater |
| CameraKit.Exercises | scripts/camera-kit/camera_kit.py:162-257 | only saved controls are written and every exposure starts with its own settings |
| Caa.Device.ReadStatus | scripts/inspection/validate_caa_reference.py:90-95 | a report shows reading, limit and rest; an idle device stays where it is |
| Caa.Device.Idle | scripts/inspection/validate_caa_reference.py:97-100 | accepted only at rest and without error |
| Caa.Device.Reference | scripts/inspection/validate_caa_reference.py:102-110 | relabels the present position without moving; refused exactly out of range; a failed call may have taken effect |
| Caa.Device.WriteLimit | scripts/inspection/validate_caa_reference.py:112-117 | leaves position and origin; refused exactly out of range |
| CaaMultiturn.MoveLeg | scripts/inspection/validate_caa_multiturn.py:16-46 | the returned displacement is physical and the device rests within 0.03 degrees; every report but the one it is refused on lies between start and target, give or take 0.05, and moves back by no more; terminates |
| CaaMultiturn.Forward | scripts/inspection/validate_caa_multiturn.py:83-93 | exact accounting through five legs and at any failure; every report within 450.17 degrees; at least 449.85 degrees when done |
| CaaMultiturn.Unwind | scripts/inspection/validate_caa_multiturn.py:95-104 | exact accounting; every report between home and 450.2 degrees; the residual lies between 0 and 0.15 degrees |
| CaaMultiturn.Abort | scripts/inspection/validate_caa_multiturn.py:111-123 | the reported net travel is physical, or one wrap too high exactly below an open leg's origin; unreadable devices report the finished legs |
| CaaReference.Move | scripts/inspection/validate_caa_reference.py:122-148 | refused as too far exactly beyond 2.001 degrees or out of range, and then without motion; rests on success, within 2.2 degrees unless probing; terminates |
| CaaReference.Relabel | scripts/inspection/validate_caa_reference.py:213-221 | one reference write of the script; a failed call leaves the books and at most one unknown write |
| CaaReference.MoveRecorded | scripts/inspection/validate_caa_reference.py:224-227 | the books account for the motion, also when the move raises |
| CaaReference.ProbeOnce | scripts/inspection/validate_caa_reference.py:218-230 | one probe keeps the books exact up to a write to 360 degrees that slipped |
| CaaReference.Probe | scripts/inspection/validate_caa_reference.py:213-239 | however the probes end, the books are the true displacement plus what slipped, one wrap for each write from below the origin; the writes are the script's, only the last unknown |
| CaaReference.Return | scripts/inspection/validate_caa_reference.py:249-254 | at most four permitted moves to within 0.03 degrees; terminates |
| CaaReference.Reconcile | scripts/inspection/validate_caa_reference.py:240-244 | a device that can be stopped and read passes exactly when acceptable |
| RustLicenses.MakePlan | scripts/rust_licenses.py:59-68 | the plan of the resolved registry packages, or the first failure, unless the files of a package reached before that cannot be read |
| RustLicenses.Destination.CopyChecked | scripts/rust_licenses.py:75-79 | a copy that passes its check holds the planned digest; no other file changes |
| RustLicenses.Destination.CopyTexts | scripts/rust_licenses.py:72-79 | one package's copies in order, within its own folder |

## Left out

- The Rust driver, recovery and hub engines, the COM workers and the white-balance code: not part of this model.
- Processes, pipes, timers, Frida attachment, HID and Windows calls: only the bytes, events and outcomes they deliver, with failures as nondeterministic results.
- Interruption by the user inside a call, replies that are JSON but not objects, and record callbacks that raise are not modelled.
- SHA-256 and file contents: digests are abstract values compared for equality; `PixelsUnchanged` assumes that no two different chunk interiors of the stream collide.
- The case-insensitive order of the list `imports` returns, finding binaries under directories, and matching beyond ASCII in the runtime pattern.
- `verify_known_pixels` does not compare a pass still open at the end of the log, and neither does the model.
- An empty recording file, which cannot be mapped into memory, and the JSON rows' remaining members.
- trace-transport.js from line 173 on, control payloads, headers and bulk buffers: the hooks' bookkeeping alone is modelled. That no callback runs during another is an assumption: the native cancel call is made inside one.
- The recorder's driver versions, descriptors, USB inventory and the removal of device paths, and the exercise name on lines and samples, which the kit changes without the recorder's lock.
- The text of case names; they are structured values whose distinctness is proved.
- CameraKit.Exercises: the order of closing and reopening is modelled, the identity check only as one more command that may fail.
- Frame readout, metadata checks, trace checkpoints and deadlines of the kit: commands that may fail at that point.
- Camera commands are assumed to write only the control they name, and `start` only the exposure; opening may change any control.
- Floating-point rounding in the rotator scripts: angles are integer ten-thousandths of a degree and the encoder does not drift; the device stays within 100000 degrees of where it was assembled.
- The rotator's other phases, fingerprint and settings queries: single reports that may fail.
- Licence file discovery by name, JSON reading and path resolution on disk, and case-insensitive file systems: a package comes with the texts found for it.
