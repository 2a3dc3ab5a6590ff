# Evidence and release tools: a verified model

This project models the evidence and release tools of the repository in Dafny and proves what they
are for. The tools decide whether a firmware candidate may be released: they drive a device through
reboots and flashes, keep receipts of what they saw, and later recompute those receipts without
trusting them. Devices, clocks, files, the network and SHA-256 are arbitrary here: every theorem holds
for all their behaviours.

| modules | what they model |
|---|---|
| `RebootMatrix`, `RebootChain`, `RebootExample`, `HashChain`, `MatrixMeaning`, `ChainMeaning` | the reboot matrix: nine exclusive outputs, eight cycles, exception handling, and the chain of receipts that a separate validator recomputes |
| `RawConsole`, `Base64`, `StateCapture`, `PageProjection`, `StatePreservation`, `PowerWindow`, `ConsoleMeaning`, `CaptureMeaning`, `ListingMeaning` | single console commands and their raw receipts, paged capture of the device state, its projection and comparison, and the power-off polling loops |
| `RunPlan`, `Orchestrator`, `RunSafety`, `RunTheorems`, `RunStops`, `RunLog` | the hardware validation run, the separately written plan, and the log recogniser |
| `JsonPointer`, `JsonDiff`, `ManifestMask`, `PermittedDifferences`, `ChecksumList`, `ReleaseComparison`, `ReleaseMeaning` | comparing two builds of one release |
| `ContactRetention`, `RetainedStore`, `RetainedChannels`, `RetainedState`, `RetainedRelation`, `RetainedExample`, `SnapshotExample`, `RowPreservation`, `RetainedMeaning`, `ProjectionMeaning`, `SnapshotMeaning` | what a reflash must preserve |
| `DefectPages`, `DefectRows`, `DefectVerdict`, `PagesMeaning`, `VerdictMeaning` | the defect snapshot: paged capture, recomputation from disk, and the verdict |
| `Archive`, `ArchiveMeaning` | inventory and extraction of workflow artifacts |
| `Ledger`, `LedgerMeaning` | the completion ledger: validator and scheduler |
| `JsonModel`, `Ordering`, `Sorting`, `Text`, `Decimal`, `PosixPath`, `Results` | JSON values, sorted strings and rows, hexadecimal and decimal text, relative paths, outcomes |

A method carries the source's loop or its updates and is proved against a specification function;
the lemmas beside it say what that function means. The modules named `...Meaning`, and `RunStops`, say it again on
the plain data (JSON rows, files, logs, package rows), with the source's names and numbers written out and without the
specification functions.

## Assumptions

- SHA-256, JSON parsing and printing, case folding, the two regular expressions over comment bodies and the
  recomputation of one cycle receipt are function parameters. Where a theorem needs that digests do not
  collide, that row texts tell rows apart, or that parsing undoes printing, it is a stated precondition
  about the files or rows at hand, and an example shows that it can be met.
- JSON values contain no NaN. `==` and `!=` follow Python (`True == 1 == 1.0`), `is` and `type(...) is`
  compare types.
- The clock may fail in the reboot matrix and in a console command; elsewhere it does not. It never runs backwards.
- Files are not changed by anyone else while a tool runs, and are compared case-sensitively.

## What the proofs found

- `retained_state_projection` compares the count of retained Public rows only with `!=`, so `true` passes
  for 1, while `retained_state_preserved` demands an integer. A projected state is therefore preserved
  by an unchanged one exactly when that count is an integer (`RetainedRelation.ReflexiveExactly`,
  `SnapshotExample.CountMayBeBoolean` is such a state).
- The exception handler of the reboot matrix calls the caller's clock twice. If it fails in the failure receipt of
  a cycle, that cycle is recorded as not executed although it was run; if it fails in the failure report, the
  matrix is left open. These are the only cases in which a receipt is wrong or a file stays open
  (`RebootMatrix.ReceiptsTellWhatRan`, `AllClosedExactly`; `ClockLosesReceipts` is such a run).
- The two manifest checks of the release comparison agree except inside a permitted field that holds an
  object (`PermittedDifferences.PermittedPathsExactly`). `actions_run` and `actions_run_attempt` are read by no other
  check, so every acceptable manifest has such variants (`StructuredFieldSplitsTheChecks`).
- A changed root and a changed key `""` give the same difference path (`JsonDiff.RootLooksLikeEmptyKey`).
- Defect pages written under a directory whose path contains a backslash are refused when they are read
  back; all others are accepted (`DefectPages.WrittenPagesAreReadBack`, `BackslashRefused`).
- The inventory of an archive takes sizes from the headers, that of the tree from the files; they agree
  exactly when no header misstates a size (`Archive.TreeMatchesArchive`, `HeaderMisstatesSize`).
- An accepted archive need not be extractable: a file member may lie on the way to another entry, or have no name
  below the destination. Apart from that, extraction into a free destination always comes to its end
  (`ArchiveMeaning.ExtractsExactly`).
- The ledger's validator does not look for dependency cycles (`Ledger.CycleIsValid`), so progress needs
  acyclicity as a precondition; the dependency test of the scheduler decides nothing in a valid ledger.

## Model

| member | source | states |
|---|---|---|
| RebootMatrix.Producer.VerifyRebootMatrix | scripts/core_reboot_persistence_d1l.py:4379-4605 | every one of the nine files ends as the outcomes call for: one attempt to write the receipt due, after which it is closed, except the matrix when the handler's clock fails; exactly the cycles counted as run were run, in order; without a complete reservation nothing is written; no device event comes before all nine reservations |
| RebootMatrix.Producer.ReserveOutputs | scripts/core_reboot_persistence_d1l.py:423-456 | succeeds exactly when all nine exclusive reservations and the directory do; otherwise whatever was reserved is closed unwritten |
| RebootMatrix.Producer.CloseAll | scripts/core_reboot_persistence_d1l.py:450-455 | every handle ends closed and its content is untouched |
| RebootMatrix.Producer.Finalize | scripts/core_reboot_persistence_d1l.py:407-415 | one attempt to write, after which the handle is closed whether or not it succeeded |
| RebootMatrix.Producer.FinalizeUnused | scripts/core_reboot_persistence_d1l.py:498-530 | every reservation still open gets the not-executed receipt and is closed even if an earlier one failed; it raises exactly when some write failed |
| RebootMatrix.Producer.RunCycle | scripts/core_reboot_persistence_d1l.py:4168-4216 | a cycle's receipt names its predecessor's digest, is written once, and adds a row exactly when nothing raised |
| RebootMatrix.Producer.RunPhase | scripts/core_reboot_persistence_d1l.py:4168-4270 | consecutive cycles run until the first that is not ok or raises, and the state left is that of the halting cycle |
| RebootMatrix.Producer.RunCycles | scripts/core_reboot_persistence_d1l.py:4162-4270 | cold cycles run only behind five ok software cycles |
| RebootMatrix.Producer.Prepare | scripts/core_reboot_persistence_d1l.py:4063-4161 | the stages before the first cycle stop at the first that raises, and that stage is the one recorded |
| RebootMatrix.Producer.AfterReservation | scripts/core_reboot_persistence_d1l.py:4033-4351 | it returns only after every file is settled, and otherwise leaves a state the handler can deal with, an exception while assembling the matrix included |
| RebootMatrix.Producer.FinishMatrix | scripts/core_reboot_persistence_d1l.py:4284-4351 | the matrix written is the assembled one, or the rejected one when self-validation refuses it; assembling and validating may raise |
| RebootMatrix.Producer.Recover | scripts/core_reboot_persistence_d1l.py:4471-4605 | whatever was interrupted, the handler closes every cycle file with one attempt each, then the matrix unless its clock fails, and raises the original error, the one of the failure receipt, or that of the clock |
| RebootMatrix.Producer.CloseAllCycles | scripts/core_reboot_persistence_d1l.py:4162-4283 | all cycles and the receipts of those not run: either every cycle file is closed, or a state the handler can deal with |
| RebootMatrix.Producer.CloseCycle | scripts/core_reboot_persistence_d1l.py:4206-4212 | the receipt of a cycle that returned is written once and hashed; only then is there a row and no current cycle |
| RebootMatrix.Producer.SettleCycles | scripts/core_reboot_persistence_d1l.py:4471-4520 | the handler's part on the cycle files: the cycle that raised gets its failure receipt if the clock answers, all others still open the not-executed receipt; the errors are counted |
| RebootMatrix.AllClosedExactly | scripts/core_reboot_persistence_d1l.py:4471-4605 | the cycle files always end closed; all nine do exactly when no exception was caught or the clock answers where the failure report is built |
| RebootMatrix.ReceiptsTellWhatRan | scripts/core_reboot_persistence_d1l.py:4354-4376 | a cycle file tells whether its cycle was run, for all eight exactly unless a cycle raised half way and the clock fails where its failure receipt is built |
| RebootMatrix.ClockLosesReceipts | scripts/core_reboot_persistence_d1l.py:4354-4605 | such a run: the cycle that may have rebooted the device is recorded as not executed and the matrix is left open |
| RebootMatrix.HaltMeans | scripts/core_reboot_persistence_d1l.py:4168-4270 | every cycle before the halting one closed, and the halting one did not |
| RebootMatrix.FinalOkExactly | scripts/core_reboot_persistence_d1l.py:4284-4351 | an ok matrix is sent exactly when preparation succeeded, all eight cycles closed and were written, it was assembled, and self-validation accepted |
| RebootMatrix.OkReceiptsBehindOkReport | scripts/core_reboot_persistence_d1l.py:4168-4351 | behind an ok matrix every cycle file holds an ok receipt; no cycle file claims ok unless its cycle and all before it did |
| RebootMatrix.NothingAfterTheHalt | scripts/core_reboot_persistence_d1l.py:4272-4326 | cycles behind the halting one are recorded as not executed and the returned report is not ok |
| MatrixMeaning.CycleFileTells | scripts/core_reboot_persistence_d1l.py:4168-4376 | the file of each cycle by what happened: which cycle it names, the digest of the file before it, whether it is ok, and the failed mark of a cycle that raised; or that the cycle was not executed, and why |
| MatrixMeaning.MatrixFileTells | scripts/core_reboot_persistence_d1l.py:4284-4605 | the file of the matrix in every case: the report with its rows, tail and uniqueness, or the failure report with its stage, rows, current cycle, whether a reboot may have happened, and the number of errors |
| MatrixMeaning.ReturnsExactly | scripts/core_reboot_persistence_d1l.py:4379-4470 | the call returns its matrix exactly when everything was reserved, nothing raised, all files were written and, with eight ok cycles, the matrix was accepted |
| MatrixMeaning.EndsExactly | scripts/core_reboot_persistence_d1l.py:4379-4605 | which of the other ends the call comes to |
| RebootChain.ProducedChainAccepted | scripts/core_reboot_persistence_d1l.py:4160-4330 | when all cycles close, the assembled matrix satisfies every link, uniqueness and tail condition the validator recomputes, provided the digests of the eight files are 64 hexadecimal digits and do not collide and the files parse back |
| RebootExample.AssumptionsAreMet | scripts/core_reboot_persistence_d1l.py:4160-4330 | a concrete run whose files meet these assumptions, and whose chain is accepted |
| RebootChain.LinkHolds | scripts/core_reboot_persistence_d1l.py:4168-4213 | each produced receipt carries the digests of the seed, the closing flash and its predecessor, at its expected place |
| RebootChain.DigestsDiffer | scripts/core_reboot_persistence_d1l.py:4319-4322 | the eight receipts have pairwise different digests, because their cycle ids differ |
| RebootChain.IdsDiffer | scripts/core_reboot_persistence_d1l.py:2499-2535 | cycle ids of different cycles differ |
| RebootChain.PathsDiffer | scripts/core_reboot_persistence_d1l.py:439-449 | reserved cycle paths of different cycles differ |
| HashChain.CheckCycle | scripts/core_reboot_persistence_d1l.py:3522-3580 | one iteration adds no error exactly when the row is intact, unseen, bound to seed, flash and predecessor, and recomputes; then the accumulators advance by that row |
| HashChain.ScanRows | scripts/core_reboot_persistence_d1l.py:3506-3580 | the loop adds no error exactly when every row is clean behind the rows before it |
| HashChain.ValidateChain | scripts/core_reboot_persistence_d1l.py:3506-3593 | acceptance of the chain part of the report |
| HashChain.RowsAcceptedExactly | scripts/core_reboot_persistence_d1l.py:3506-3593 | the loop with its seen-sets, type and ordinal lists accepts exactly the matrices whose receipts form the chain: 5 software then 3 cold, ordinals 1..n, linked, nothing repeated |
| HashChain.OrderedMeansPlaced | scripts/core_reboot_persistence_d1l.py:3580-3588 | the three list comparisons force every receipt into its place |
| HashChain.PlacedMeansOrdered | scripts/core_reboot_persistence_d1l.py:3580-3588 | and hold for every chain in order |
| HashChain.SameHistory | scripts/core_reboot_persistence_d1l.py:3539-3554 | unless two of the files collide, equal digests at one place carry back to equal files at every earlier place |
| HashChain.TailDeterminesHistory | scripts/core_reboot_persistence_d1l.py:3506-3593 | two accepted matrices with the same tail have byte-identical receipts in the same order and the same seed and closing flash, or two of the files they rest on are a collision of the digest |
| ChainMeaning.AcceptedExactly | scripts/core_reboot_persistence_d1l.py:3506-3593 | on the JSON of the rows and files: accepted exactly when the rows describe eight files whose receipts are five software and three cold cycles in order, each bound to seed, flash and predecessor and recomputing, no path, digest or id repeated |
| Base64.DecodeEncode | scripts/core_reboot_persistence_d1l.py:533-539 | base 64 decoding (section 4 of RFC 4648) undoes encoding for every byte string |
| RawConsole.ReadRawCommand | scripts/core_reboot_persistence_d1l.py:576-637 | the logged receipt keeps every line up to the first answering or overlong one; its result is the answer seen, the timeout result, or none when an exception escapes |
| RawConsole.RecomputeRawCommand | scripts/core_reboot_persistence_d1l.py:640-674 | the recomputed result and the number of errors, for any JSON value |
| RawConsole.RecomputeReceipt | scripts/core_reboot_persistence_d1l.py:640-674 | a receipt without lines, or without exactly one answer, is in error |
| RawConsole.RowRecomputes | scripts/core_reboot_persistence_d1l.py:533-573 | a kept line decodes to its bytes without an error and holds the answer it held |
| RawConsole.KeptRecomputes | scripts/core_reboot_persistence_d1l.py:576-674 | the kept lines recompute to the answer the producer saw and to no other |
| RawConsole.AcceptedExactlyWhenAnswered | scripts/core_reboot_persistence_d1l.py:576-674 | for every byte stream, non-empty command and exception on the way the logged receipt is accepted exactly when the call returned and saw an answer, and recomputes to the answer that came |
| ConsoleMeaning.ResultSpelledOut | scripts/core_reboot_persistence_d1l.py:576-637 | the result is the reply of the line that ended the reading if it answers, otherwise schema 1, ok false, the expected name and TIMEOUT_OR_INVALID_RAW, and null when an exception escapes; when one does |
| ConsoleMeaning.SuccessWasAnswered | scripts/core_reboot_persistence_d1l.py:576-637 | a result that passes for a success is the reply of a line that came and said so; a silent device never succeeds |
| ConsoleMeaning.ReceiptKeepsReads | scripts/core_reboot_persistence_d1l.py:576-637 | the receipt keeps exactly the non-empty reads up to the one that ends the reading, in order, each with its time, size, digest and bytes |
| ConsoleMeaning.RecomputedExactly | scripts/core_reboot_persistence_d1l.py:640-674 | for any JSON: no error exactly when the command is named, every row intact, one row alone holds a reply and the result is that reply; that reply is what is recomputed |
| StateCapture.CapturePages | scripts/core_reboot_persistence_d1l.py:790-824 | the pages requested for a listing, whatever the device replies |
| StateCapture.PagesAdvance | scripts/core_reboot_persistence_d1l.py:800-824 | at most 32 pages, asked for by strictly increasing offsets |
| StateCapture.PagesAreListing | scripts/core_reboot_persistence_d1l.py:800-824 | the requests are the base command followed by positive decimal offsets |
| StateCapture.CaptureState | scripts/core_reboot_persistence_d1l.py:827-877 | the rows of a capture in the order their commands were sent |
| StateCapture.CommandsInOrder | scripts/core_reboot_persistence_d1l.py:1184-1223 | the order check accepts exactly base, Public pages, direct-message pages, tail |
| StateCapture.OrderIsValid | scripts/core_reboot_persistence_d1l.py:1184-1223 | the same on receipts, which must all carry a command |
| StateCapture.CaptureInOrder | scripts/core_reboot_persistence_d1l.py:827-877 | every capture has the order that is accepted, for any device replies |
| CaptureMeaning.ListingSpelledOut | scripts/core_reboot_persistence_d1l.py:790-824 | each page is asked for where the page before it, a valid reply, announced it; the last announces nothing unless it is the 32nd |
| CaptureMeaning.CaptureSpelledOut | scripts/core_reboot_persistence_d1l.py:827-877 | a capture command by command |
| CaptureMeaning.OrderSpelledOut | scripts/core_reboot_persistence_d1l.py:1184-1223 | exactly the command lists that pass, spelled out |
| PageProjection.ScanPages | scripts/core_reboot_persistence_d1l.py:951-978 | no error exactly when every page is readable, clean and repeats the metadata of the first |
| PageProjection.ExpectedOffsets | scripts/core_reboot_persistence_d1l.py:979-992 | the offsets the pages announce to each other, and whether they link up |
| PageProjection.Classify | scripts/core_reboot_persistence_d1l.py:997-1018 | durable and volatile rows in order, and whether all rows are classified and numbered |
| PageProjection.CheckEntries | scripts/core_reboot_persistence_d1l.py:995-1054 | no error exactly when counts, classification, preview and sequence numbers agree |
| PageProjection.Project | scripts/core_reboot_persistence_d1l.py:926-1069 | a listing projects without error exactly when its pages are consistent |
| PageProjection.CountsAndOrder | scripts/core_reboot_persistence_d1l.py:926-1069 | then total_matches is the number of durable rows plus one for a volatile preview, and the projection keeps every durable row, strictly increasing by sequence number |
| ListingMeaning.ConsistentSpelledOut | scripts/core_reboot_persistence_d1l.py:926-1069 | field by field: exactly which pages and entries make a consistent listing |
| ListingMeaning.EntriesInOrder | scripts/core_reboot_persistence_d1l.py:951-978 | the entries are those of the pages, page by page |
| ListingMeaning.MetadataSpelledOut | scripts/core_reboot_persistence_d1l.py:1055-1069 | each of the seven metadata fields is that of the first page |
| ListingMeaning.RowsSpelledOut | scripts/core_reboot_persistence_d1l.py:997-1069 | the rows kept are exactly the retained entries that are no preview, by growing sequence number |
| Sorting.SortIncreases | scripts/core_reboot_persistence_d1l.py:1055-1055 | rows with distinct keys end in strictly increasing order |
| Sorting.SortPermutes | scripts/core_reboot_persistence_d1l.py:1055-1055 | sorting keeps every row as often as it was there |
| Sorting.SortSorts | scripts/core_flash_only_d1l.py:1565-1576 | for every strict order, nothing is less than what comes before it |
| Sorting.DistinctBySize | scripts/core_reboot_persistence_d1l.py:997-1003 | the set-size test is pairwise distinctness |
| StatePreservation.StatePreserved | scripts/core_reboot_persistence_d1l.py:1341-1386 | no message exactly when settings, read state, rows and counters are preserved |
| StatePreservation.MessageErrors | scripts/core_reboot_persistence_d1l.py:1350-1373 | no message for a store exactly when its rows are kept and its counters have not regressed |
| RowPreservation.RowsAreKept | scripts/core_flash_only_d1l.py:2225-2235 | every row before has a row after with the same text |
| RowPreservation.EndToEnd | scripts/core_flash_only_d1l.py:2148-2334 | for a transitive comparison, checking each state against the one before checks the last against the first |
| StatePreservation.PreservedTransitive | scripts/core_reboot_persistence_d1l.py:1341-1386 | the check of a cycle against its baseline follows from baseline to pre and pre to post |
| StatePreservation.PreservedByNothing | scripts/core_reboot_persistence_d1l.py:1341-1386 | doing nothing preserves exactly the projections whose sections are objects and whose counters are integers |
| StatePreservation.PreservedAlongHistory | scripts/core_reboot_persistence_d1l.py:1341-1386 | checking each capture against the one before covers the whole history |
| CaptureMeaning.PreservedSpelledOut | scripts/core_reboot_persistence_d1l.py:1341-1386 | field by field: exactly which two captures count as preserved |
| PowerWindow.Bench.TakeSample | scripts/core_reboot_persistence_d1l.py:1821-1854 | one sample of the target, taken no earlier than it was asked for |
| PowerWindow.Bench.WaitForTargetState | scripts/core_reboot_persistence_d1l.py:1857-1884 | at most floor(timeout / poll) + 1 samples; success exactly when the last is the first in the desired state; one poll of sleep after every other sample; giving up only after the deadline |
| PowerWindow.Bench.ProvePowerOffWindow | scripts/core_reboot_persistence_d1l.py:1887-1921 | at most ceil(minimum / poll) + 1 samples, with no more than a poll of sleep between two; success means all are absent and the duration reaches the minimum; the first-to-last span never exceeds the duration |
| RunLog.ValidationRunsOk | scripts/autonomous_hardware_validate_d1l.py:2417-2453 | accepts exactly the logs that split into release-gate entries, single ok steps and bridge segments with distinct phases |
| RunLog.ScanIsAccepts | scripts/autonomous_hardware_validate_d1l.py:2417-2453 | the lookahead scan and the grammar describe the same logs |
| RunLog.AcceptedConcatenation | scripts/autonomous_hardware_validate_d1l.py:2417-2453 | a continuation is accepted exactly when it is accepted with the phases before it already used |
| RunLog.FreshRestoreDecides | scripts/autonomous_hardware_validate_d1l.py:2456-2485 | restoring under a fresh phase keeps an accepted log accepted exactly when the last attempt succeeded |
| RunLog.RepeatedPhaseRejected | scripts/autonomous_hardware_validate_d1l.py:2456-2485 | restoring again under a used phase is never accepted |
| RunLog.AcceptedEntryByEntry | scripts/autonomous_hardware_validate_d1l.py:2417-2453 | accepted exactly when every entry is a gate, a step that passed, or a try of a bridge restore that passed in the end, and no two restores share a phase |
| Orchestrator.Run.RunValidation | scripts/autonomous_hardware_validate_d1l.py:2640-2934 | log, run list and report of a run are those of interpreting the stage list, for every option combination, outcome and exception |
| Orchestrator.Run.RunStage | scripts/autonomous_hardware_validate_d1l.py:2640-2934 | one stage appends its entry, or lets its exception escape |
| Orchestrator.Run.RunBridgeRestoreWithRetry | scripts/autonomous_hardware_validate_d1l.py:2456-2485 | one attempt, or a failed one followed by exactly one retry |
| Orchestrator.Run.RunExactRecoveryBoundary | scripts/autonomous_hardware_validate_d1l.py:2535-2605 | restore, reflash, preflight and gate in this order, stopping at an escaping exception |
| Orchestrator.Run.FailAfterSdStage | scripts/autonomous_hardware_validate_d1l.py:2608-2637 | a failed SD stage fails the report, is audited, and recovered |
| Orchestrator.Run.RunChecked | scripts/autonomous_hardware_validate_d1l.py:2640-2934 | a checked stage continues, stops the run with its aftermath, or raises, as its policy says |
| Orchestrator.Run.RunUnchecked | scripts/autonomous_hardware_validate_d1l.py:2923-2927 | a stage whose failure only the final verdict sees |
| Orchestrator.Run.RunBridgeChecked | scripts/autonomous_hardware_validate_d1l.py:2708-2720 | the initial restore with its retry; its terminal failure stops a hardware run |
| Orchestrator.Run.StopWith | scripts/autonomous_hardware_validate_d1l.py:2608-2637 | an early return completes the prescribed aftermath and reports the first failed stage of its check |
| Orchestrator.Run.RunInputs | scripts/autonomous_hardware_validate_d1l.py:2651-2680 | inputs, ESP32 flash and access precheck, as the options ask |
| Orchestrator.Run.RunSmokeImage | scripts/autonomous_hardware_validate_d1l.py:2682-2704 | the official smoke image and the unavailable capture, as the options ask |
| Orchestrator.Run.RunInitialBridge | scripts/autonomous_hardware_validate_d1l.py:2706-2752 | the initial bridge restore and reflash, as the options ask |
| Orchestrator.Run.CheckDiagnostics | scripts/autonomous_hardware_validate_d1l.py:2806-2841 | the diagnostic's own failure is reported before one of its boundary |
| Orchestrator.Run.RunRecoverable | scripts/autonomous_hardware_validate_d1l.py:2843-2891 | SD stages in order; the first failed one is audited and recovered |
| Orchestrator.Run.RunSdSuite | scripts/autonomous_hardware_validate_d1l.py:2754-2891 | the SD suite in order, or nothing when it is skipped |
| Orchestrator.Run.RunUi | scripts/autonomous_hardware_validate_d1l.py:2914-2926 | onboarding, then the probes |
| Orchestrator.Run.RunDiagnostics | scripts/autonomous_hardware_validate_d1l.py:2793-2840 | the raw diagnostic is followed by the post_diag boundary before its common check |
| Orchestrator.Run.RunStages | scripts/autonomous_hardware_validate_d1l.py:2650-2925 | the body of the try block follows the stage list |
| RunSafety.FollowsStages | scripts/autonomous_hardware_validate_d1l.py:2640-2934 | whatever happens, the log follows the stage list and then holds only audits and recoveries |
| RunSafety.StagesArePlan | scripts/autonomous_hardware_validate_d1l.py:2314-2393 | the names of the stage list, with retries and the two smoke-image steps taken together, are the separately written plan |
| RunTheorems.RunFollowsPlan | scripts/autonomous_hardware_validate_d1l.py:2314-2934 | the log of every run is a prefix of the published plan followed only by audits and recoveries; a run that reaches its end went through the whole plan |
| RunTheorems.StopsAtFirstFailedCheck | scripts/autonomous_hardware_validate_d1l.py:2640-2934 | a run that returns early does so at its first failed check, with the prescribed aftermath completed |
| RunTheorems.OkExactlyWhenEveryStagePassed | scripts/autonomous_hardware_validate_d1l.py:2417-2934 | a report is ok exactly when the run reached its end and every entry counts as passed; then its log is the whole plan |
| RunTheorems.PhasesDistinct | scripts/autonomous_hardware_validate_d1l.py:2314-2393 | no plan restores the bridge twice under one phase |
| RunTheorems.DiagnosticsAreFollowedByRestoring | scripts/autonomous_hardware_validate_d1l.py:2793-2840 | after the raw diagnostic nothing happens but bridge restore, reflash, preflight and gate, unless an exception ends the run |
| RunStops.RunStopsAsTabled | scripts/autonomous_hardware_validate_d1l.py:2608-2934 | by stage: the first entry that stops a hardware run ends it, with the audits and the recovery that follow that stage, its error and its recovery verdict; otherwise only an exception does. Inputs stop silently, flashing, precheck, initial restore and reflash, gates, diagnostics and onboarding stop with one audit, failed SD stages are recovered, the smoke image, unavailable capture and probes never stop |
| RunStops.FailedSuiteStageRecovers | scripts/autonomous_hardware_validate_d1l.py:2608-2637 | a failed SD stage behind the diagnostics, or a failed smoke test after the suite: audit, restore, reflash, preflight, gate, audit, the error names it, and recovery is whether the four stages passed |
| RunStops.EntriesAreAnswers | scripts/autonomous_hardware_validate_d1l.py:2640-2934 | each entry says what its calls answered, by stage whose exceptions become entries, and which stage was due when an exception escaped |
| RunStops.ItemsFit | scripts/autonomous_hardware_validate_d1l.py:2640-2934 | the stage list agrees with these tables |
| JsonPointer.UnescapeEscape | scripts/compare_release_reproducibility_d1l.py:342-343 | unescaping (section 4 of RFC 6901) undoes the escaping of section 3, for every token |
| JsonPointer.PointerInjective | scripts/compare_release_reproducibility_d1l.py:342-367 | distinct key sequences have distinct pointers |
| JsonPointer.ShowCollision | scripts/compare_release_reproducibility_d1l.py:346-367 | reported strings collide only for the root and the key "" |
| JsonDiff.JsonDifferencePaths | scripts/compare_release_reproducibility_d1l.py:346-367 | the list computed is the rendering of the structural differences, in order |
| JsonDiff.DictDifferences | scripts/compare_release_reproducibility_d1l.py:350-358 | the part for objects: keys sorted, missing keys reported at the key |
| JsonDiff.ListDifferences | scripts/compare_release_reproducibility_d1l.py:359-365 | the part for lists of equal length |
| JsonDiff.ReportedExactly | scripts/compare_release_reproducibility_d1l.py:346-367 | a place is reported exactly when the two values stop having the same shape there |
| JsonDiff.EmptyExactlyWhenEqual | scripts/compare_release_reproducibility_d1l.py:346-367 | nothing is reported exactly when the values are equal with the same types |
| JsonDiff.Symmetric | scripts/compare_release_reproducibility_d1l.py:346-367 | both directions report the same places |
| JsonDiff.ReportedOnce | scripts/compare_release_reproducibility_d1l.py:346-367 | no place is reported twice |
| JsonDiff.ReportedInOrder | scripts/compare_release_reproducibility_d1l.py:346-367 | differences are reported by growing key and by item, at every level |
| JsonDiff.PathsReportedOnce | scripts/compare_release_reproducibility_d1l.py:346-367 | no path string is reported twice |
| JsonDiff.RootLooksLikeEmptyKey | scripts/compare_release_reproducibility_d1l.py:346-367 | a changed root and a changed key "" give the same report |
| ManifestMask.OverwrittenDifferencesVanish | scripts/compare_release_reproducibility_d1l.py:307-339 | differences only at overwritten places disappear under the normaliser |
| ManifestMask.EqualMasksConfineDifferences | scripts/compare_release_reproducibility_d1l.py:307-339 | equal normal forms leave differences only at or below overwritten places |
| ManifestMask.MaskMatchesPermittedList | scripts/compare_release_reproducibility_d1l.py:116-132 | the places the normaliser overwrites are exactly the permitted list |
| ManifestMask.ReleaseTablesAgree | scripts/compare_release_reproducibility_d1l.py:116-132 | the two hand-written tables agree |
| ReleaseComparison.NormalizeManifest | scripts/compare_release_reproducibility_d1l.py:307-339 | overwriting the copy field by field is the mask; it raises exactly when workflow is not an object |
| ReleaseComparison.OverwriteRunIdentity | scripts/compare_release_reproducibility_d1l.py:308-312 | the run identity fields of the copy are overwritten and nothing else |
| ReleaseComparison.OverwriteSection | scripts/compare_release_reproducibility_d1l.py:317-338 | of a proof section only the four run receipt fields are overwritten |
| ReleaseComparison.OverwriteWorkflow | scripts/compare_release_reproducibility_d1l.py:313-316 | of the workflow only its three run fields are overwritten |
| PermittedDifferences.PermittedPathsGiveEqualNormals | scripts/compare_release_reproducibility_d1l.py:307-367 | if every reported path is permitted the normalised manifests are equal |
| PermittedDifferences.EqualNormalsConfinePaths | scripts/compare_release_reproducibility_d1l.py:307-367 | equal normalised manifests leave differences only at or below permitted places |
| PermittedDifferences.PermittedPathsExactly | scripts/compare_release_reproducibility_d1l.py:1104-1112 | the path check is equality of normal forms plus: nothing differs strictly inside a permitted field |
| PermittedDifferences.StructuredFieldSplitsTheChecks | scripts/compare_release_reproducibility_d1l.py:1104-1112 | every manifest the normaliser accepts has two variants, alike outside actions_run or actions_run_attempt, which no other check reads, and both normalised to the same value, on which the path check fails |
| PermittedDifferences.UntouchedFieldsAgree | scripts/compare_release_reproducibility_d1l.py:1104-1112 | permitted differences leave every other top-level field as it was |
| ChecksumList.ParsePrint | scripts/compare_release_reproducibility_d1l.py:236-260 | reading a printed row gives the row back |
| ChecksumList.ReadRow | scripts/compare_release_reproducibility_d1l.py:251-263 | one line is read exactly when it is a well-formed row of a listed file not seen before |
| ChecksumList.ReadRows | scripts/compare_release_reproducibility_d1l.py:249-263 | the rows of all lines, in order |
| ChecksumList.ChecksumManifest | scripts/compare_release_reproducibility_d1l.py:236-285 | accepts exactly the list of an inventory, and returns the inventory without the list itself |
| ChecksumList.OneTextPerInventory | scripts/compare_release_reproducibility_d1l.py:236-285 | only one line sequence is accepted for an inventory |
| ChecksumList.PrintedRowsListTheirFiles | scripts/compare_release_reproducibility_d1l.py:236-285 | the printed sorted rows of an inventory are accepted |
| ReleaseMeaning.ListSpelledOut | scripts/compare_release_reproducibility_d1l.py:236-285 | accepted exactly when the lines are the digests and paths of all files but the list itself, in path order, every path staying below the package |
| ReleaseComparison.LoadSnapshot | scripts/compare_release_reproducibility_d1l.py:856-975 | a package is loaded exactly when its list lists its inventory, the required files are there, the manifest can be normalised and all other checks pass; it carries that inventory and the normal form |
| ReleaseComparison.Partition | scripts/compare_release_reproducibility_d1l.py:939-948 | stable inventory and comparable checksums, filtered from different sources, are the same map |
| ReleaseComparison.CompareSnapshots | scripts/compare_release_reproducibility_d1l.py:1023-1165 | payload_sha256_match and checksum_payload_map_match always agree, and five of the eight checks decide the verdict |
| ReleaseComparison.ManifestsMatch | scripts/compare_release_reproducibility_d1l.py:1104-1112 | the manifest check is the permitted-path check |
| ReleaseComparison.ReleaseTablesFit | scripts/compare_release_reproducibility_d1l.py:116-139 | the tool's own tables meet what the comparison needs of them |
| ContactRetention.ContactRetentionProjection | scripts/core_flash_only_d1l.py:2066-2145 | the contacts by fingerprint, or a refusal |
| ContactRetention.OneContactPerRow | scripts/core_flash_only_d1l.py:2084-2145 | one contact for every row, each stored under its own fingerprint |
| RetainedStore.ProjectStore | scripts/core_flash_only_d1l.py:1756-1963 | the two-page checks accept exactly the acceptable stores, and give their rows sorted by text |
| RetainedStore.AddRows | scripts/core_flash_only_d1l.py:1846-1857 | one page's rows are accepted exactly when valid with sequence numbers not seen before |
| RetainedStore.SortKeeps | scripts/core_flash_only_d1l.py:1565-1576 | sorting by text keeps the rows and their distinct sequence numbers |
| RetainedStore.StoreSize | scripts/core_flash_only_d1l.py:1756-1963 | the two pages hold as many rows as the store counts, at most its capacity |
| RetainedState.ProjectContacts | scripts/core_flash_only_d1l.py:1578-1641 | the contact store is projected, sorted by text, exactly when it is valid and its contacts can be told apart |
| RetainedState.ContactStoreSize | scripts/core_flash_only_d1l.py:1592-1600 | a valid contact store has as many rows as it counts, within its capacity |
| RetainedState.ThreadsDistinct | scripts/core_flash_only_d1l.py:1710-1737 | the threads are accepted exactly when all are valid and no two share a fingerprint |
| RetainedState.ProjectCursors | scripts/core_flash_only_d1l.py:1738-1754 | the cursors by fingerprint, or a refusal |
| RetainedState.CursorsKept | scripts/core_flash_only_d1l.py:1738-1754 | every accepted cursor is kept under its own fingerprint, as an integer |
| RetainedState.ProjectRetainedState | scripts/core_flash_only_d1l.py:1578-2054 | exactly which snapshots are projected, given that of the settings, and what to |
| RetainedState.ProjectedIsValid | scripts/core_flash_only_d1l.py:1181-2054 | whatever is projected has the shape the comparison relies on |
| RetainedState.ProjectReads | scripts/core_flash_only_d1l.py:1643-1754 | the cursors of the read state, exactly when counters, persistence, threads and cursors are valid |
| SnapshotMeaning.ProjectableSpelledOut | scripts/core_flash_only_d1l.py:1310-1993 | field by field: exactly which snapshots are projected, given that of the settings |
| ProjectionMeaning.StateSpelledOut | scripts/core_flash_only_d1l.py:1965-2054 | every counter of the projection, the contact persistence and the read state included, comes from the field of its own name |
| ProjectionMeaning.RowsSpelledOut | scripts/core_flash_only_d1l.py:1846-1963 | messages and contacts are exactly the rows of their pages, sorted by text |
| ProjectionMeaning.ReadCursorsSpelledOut | scripts/core_flash_only_d1l.py:1738-1754 | every persisted cursor is there under the lower-case form of its fingerprint, and no other |
| ProjectionMeaning.ChannelsSpelledOut | scripts/core_flash_only_d1l.py:1350-1417 | every channel has its row, by growing id, and its counters under its id, and there are no others |
| RetainedChannels.ChannelsProjection | scripts/core_flash_only_d1l.py:1310-1417 | the channel part: accepted exactly when the result is valid and free of secret fields, the channels valid and distinct, and the active one and no other selected |
| RetainedChannels.ProjectChannels | scripts/core_flash_only_d1l.py:1350-1414 | the loop over the channels: rows, cursors and selected ids, or a refusal |
| RetainedChannels.AcceptedExactly | scripts/core_flash_only_d1l.py:1354-1414 | the loop accepts exactly valid channels with distinct ids |
| RetainedChannels.CursorOf | scripts/core_flash_only_d1l.py:1404-1414 | every accepted channel keeps its counters under its own id |
| RetainedChannels.ActiveExactly | scripts/core_flash_only_d1l.py:1415-1416 | selected_ids equals the active id alone exactly when the active channel is selected and no other is |
| RetainedRelation.RetainedStatePreserved | scripts/core_flash_only_d1l.py:2148-2334 | the comparison as one relation between two snapshots |
| RetainedMeaning.PreservedExactly | scripts/core_flash_only_d1l.py:2148-2334 | on the JSON rows: exactly what must stay, what may only grow, and that no message and no contact is lost |
| RetainedMeaning.ContactRowExactly | scripts/core_flash_only_d1l.py:2080-2135 | exactly which rows are contacts |
| RetainedMeaning.ContactsKeptByRows | scripts/core_flash_only_d1l.py:2308-2334 | every contact row before has a row after with the same folded fingerprint, alias, favorite, muted and created_ms and, if it had a key, that key |
| RetainedMeaning.ContactStays | scripts/core_flash_only_d1l.py:2148-2334 | the same from a preserved state |
| RetainedMeaning.KeyStays | scripts/core_flash_only_d1l.py:2148-2334 | a contact whose key is known has that key in every later state of a chain of preserved states |
| RetainedRelation.ContactsAreKept | scripts/core_flash_only_d1l.py:2308-2334 | the loop over the contacts; RetainedMeaning.ContactsKeptByRows says what it decides of the rows |
| RetainedRelation.PreservedTransitive | scripts/core_flash_only_d1l.py:2148-2334 | preservation over two reflashes is preservation end to end, on all snapshots |
| RetainedRelation.ContactsTransitive | scripts/core_flash_only_d1l.py:2308-2334 | keeping contacts twice is keeping them |
| RetainedRelation.PreservedAlongReflashes | scripts/core_flash_only_d1l.py:2148-2334 | any chain of reflashes checked step by step is checked end to end |
| RetainedRelation.ReflexiveExactly | scripts/core_flash_only_d1l.py:2148-2334 | a projected state is preserved by an unchanged state exactly when its count of retained Public rows is an integer |
| SnapshotExample.CountMayBeBoolean | scripts/core_flash_only_d1l.py:1756-2054 | a whole snapshot whose Public store counts its one retained row as true is projected, and the result is not preserved by itself |
| SnapshotExample.AssumptionsAreMet | scripts/core_flash_only_d1l.py:1181-2235 | the same snapshot with the count 1 is preserved by itself and meets the assumptions of RetainedRelation.DirectMessagesIdentical |
| SnapshotExample.Fitting | scripts/core_flash_only_d1l.py:1232-1262 | some tools and some key meet what the two rows above ask of them |
| RetainedRelation.KeptAndNotGrownIsSame | scripts/core_flash_only_d1l.py:2225-2235 | sorted rows with distinct sequence numbers that lose nothing and do not grow are the same rows, if their texts tell them apart |
| RetainedRelation.DirectMessagesIdentical | scripts/core_flash_only_d1l.py:2148-2235 | a preserved direct-message store is the same list, if the texts tell its rows apart |
| RetainedRelation.FullPublicStoreIdentical | scripts/core_flash_only_d1l.py:2198-2235 | a preserved Public store that was full is the same list, if the texts tell its rows apart |
| RetainedRelation.FullContactStoreSameFingerprints | scripts/core_flash_only_d1l.py:2277-2334 | a preserved contact store that was full has the same fingerprints |
| DefectPages.CollectIds | scripts/capture_core_github_defects_d1l.py:300-311 | the ids of a page, none if one is invalid or repeats |
| DefectPages.CapturePages | scripts/capture_core_github_defects_d1l.py:283-326 | what is captured is complete: consecutive pages, unique ids, one empty page, the last |
| DefectPages.WritePageSet | scripts/capture_core_github_defects_d1l.py:934-967 | every page is created once, nothing else changes, and the summary describes the pages |
| DefectPages.StoredOnly | scripts/capture_core_github_defects_d1l.py:934-967 | writing a page set leaves every other file as it was |
| DefectPages.StoredOnDisk | scripts/capture_core_github_defects_d1l.py:934-967 | every page is on disk with its raw bytes |
| DefectPages.RecomputeRawPageSet | scripts/capture_core_github_defects_d1l.py:1012-1100 | the items and the summary recomputed from the files |
| DefectPages.RecomputeOnePage | scripts/capture_core_github_defects_d1l.py:1035-1084 | one page of the recomputation: in place, intact, counted, with new ids |
| DefectPages.WrittenPagesAreReadBack | scripts/capture_core_github_defects_d1l.py:934-1100 | untouched pages are read back to the same items and summary exactly when the directory's path has no backslash |
| DefectPages.BackslashRefused | scripts/capture_core_github_defects_d1l.py:934-1100 | a complete listing written under a directory with a backslash, which is refused |
| DefectPages.AcceptedSetIsComplete | scripts/capture_core_github_defects_d1l.py:1012-1100 | whatever set is accepted, its files hold a complete listing and the items are theirs |
| PagesMeaning.CapturedExactly | scripts/capture_core_github_defects_d1l.py:283-326 | these pages are captured exactly when they are the replies and form a listing: at most 10000 pages of at most 100 objects, positive ids that differ, the last page empty and no other |
| PagesMeaning.ReadBackExactly | scripts/capture_core_github_defects_d1l.py:970-1100 | a page set is read back exactly when its rows stand for intact files directly inside the directory, none used twice, that hold such a listing, and its totals are right |
| DefectPages.ListingsApart | scripts/capture_core_github_defects_d1l.py:934-950 | the three listings of one capture never write the same file |
| DefectVerdict.MixedDeferralComment | scripts/capture_core_github_defects_d1l.py:449-484 | the last privileged comment that carries the marker, the commit and the label and names the run and its attempt |
| DefectVerdict.ClassifiedExactly | scripts/capture_core_github_defects_d1l.py:426-433 | a classification is found exactly when it is the only classification label |
| DefectRows.ValidateIssueRows | scripts/capture_core_github_defects_d1l.py:344-374 | the typed rows, exactly when every row is well formed and no number repeats |
| DefectRows.NumberOfUrl | scripts/capture_core_github_defects_d1l.py:333-341 | the address of an issue names that issue |
| DefectVerdict.ValidateCommentRows | scripts/capture_core_github_defects_d1l.py:377-416 | the comments by issue, exactly when every row is well formed and names a known issue and the counts reconcile |
| DefectVerdict.AnalyzeIssues | scripts/capture_core_github_defects_d1l.py:487-656 | the analysis of the issues in the order of their numbers; invalid rows raise |
| DefectVerdict.PendingTagException | scripts/capture_core_github_defects_d1l.py:870-917 | when issue 71 may stay open before the tag |
| DefectVerdict.VerdictExactly | scripts/capture_core_github_defects_d1l.py:487-656 | the verdict is ok exactly when every open P1 is solely deferred and every open P0 is solely deferred, with a comment that names this commit, run and attempt where one is needed, or is issue 71 under the exception |
| DefectVerdict.Verdict | scripts/capture_core_github_defects_d1l.py:1594-1611 | the verdict of a capture is that condition on its JSON rows; malformed rows raise |
| VerdictMeaning.VerdictSpelledOut | scripts/capture_core_github_defects_d1l.py:449-656 | on the JSON rows: ok exactly when every open P1 is solely full-feature-deferred, and every open P0 is too, with a confirming comment for issues 8, 63, 67, 68, 69, 74 and 76, or is issue 71 under the exception. A comment confirms when it is on the issue, by an OWNER, MEMBER or COLLABORATOR, and carries the marker, the commit and the label and names the run and its attempt |
| VerdictMeaning.AnalysedExactly | scripts/capture_core_github_defects_d1l.py:329-416 | exactly which issue and comment rows are analysed; all others raise |
| VerdictMeaning.NumberedExactly | scripts/capture_core_github_defects_d1l.py:333-341 | a comment belongs to the issue its address ends in |
| VerdictMeaning.JudgedExactly | scripts/capture_core_github_defects_d1l.py:509-593 | flags, classification, blocking and critical marks of an issue, from its rows |
| VerdictMeaning.ReasonExactly | scripts/capture_core_github_defects_d1l.py:514-559 | which classification error is recorded of an issue, from its rows |
| VerdictMeaning.TransitionExactly | scripts/capture_core_github_defects_d1l.py:522-561 | which transition status is recorded of a mixed issue, from its rows |
| VerdictMeaning.BlockingExactly | scripts/capture_core_github_defects_d1l.py:563-575 | exactly which issues are listed as blocking |
| VerdictMeaning.CriticalExactly | scripts/capture_core_github_defects_d1l.py:577-590 | exactly which issues are listed as critical |
| VerdictMeaning.ErrorsExactly | scripts/capture_core_github_defects_d1l.py:514-559 | exactly which issues are listed as wrongly classified, and why |
| DefectVerdict.OpenP0sPartitioned | scripts/capture_core_github_defects_d1l.py:574-584 | blocking and deferred P0s partition the open P0s |
| DefectVerdict.VerdictIgnoresOrder | scripts/capture_core_github_defects_d1l.py:487-656 | reordering issue or comment rows changes neither their validity nor the verdict |
| Archive.ScanEntries | scripts/capture_core_actions_run_d1l.py:178-199 | the entries are safe, readable and differently named, also case-insensitively |
| Archive.ZipInventory | scripts/capture_core_actions_run_d1l.py:166-201 | an archive is inventoried exactly when it is within the limits, safe, and holds a file; rows are sorted by path |
| ArchiveMeaning.AcceptableSpelledOut | scripts/capture_core_actions_run_d1l.py:142-201 | exactly which archives are accepted: limits, a file member, and entries that are safe and differently named, also without regard to case |
| ArchiveMeaning.InventorySpelledOut | scripts/capture_core_actions_run_d1l.py:178-201 | the rows are exactly those of the file members, by growing path |
| Archive.SortedRows | scripts/capture_core_actions_run_d1l.py:189-201 | the rows of the members, sorted by path |
| Archive.SafeExtract | scripts/capture_core_actions_run_d1l.py:204-227 | the file store an extraction leaves behind, and whether it came to its end, exceptions half way included |
| ArchiveMeaning.ExtractsExactly | scripts/capture_core_actions_run_d1l.py:204-227 | an extraction comes to its end exactly when the archive is accepted, the destination is free, every file member has a name below it, and no file member lies on the way to another entry |
| ArchiveMeaning.MakeDirsExactly | scripts/capture_core_actions_run_d1l.py:210-221 | directories can be made exactly when no file is in the way, and then all of them are there |
| Archive.AcceptedEntriesStayBelow | scripts/capture_core_actions_run_d1l.py:142-163 | no entry of an accepted archive resolves outside the destination, so the extraction's own check never fires |
| Archive.MakeDirsAdds | scripts/capture_core_actions_run_d1l.py:218-221 | making directories changes nothing that is there and adds only directories on the way |
| Archive.TreeInventory | scripts/capture_core_actions_run_d1l.py:110-139 | the rows of the files below a directory, sorted by relative path |
| Archive.ExtractOneAdds | scripts/capture_core_actions_run_d1l.py:211-227 | one entry leaves everything there as it is, adds only below the destination or directories above it, and adds exactly one new file for a file member; none when it fails |
| Archive.NothingOutsideChanges | scripts/capture_core_actions_run_d1l.py:204-227 | whether it comes to its end or not, nothing there changes; what is added outside the destination are directories above it |
| Archive.ExtractedFiles | scripts/capture_core_actions_run_d1l.py:204-227 | the files below the destination are exactly the file members among the entries extracted, with their bytes: all when the call comes to its end, those before the failing entry otherwise |
| Archive.TreeMatchesArchive | scripts/capture_core_actions_run_d1l.py:110-227 | the tree's inventory has the archive's paths, order and digests, and is the same inventory exactly when no header misstates a size |
| Archive.HeaderMisstatesSize | scripts/capture_core_actions_run_d1l.py:110-227 | an accepted and extracted archive whose tree has another inventory |
| Ledger.ValidateLedger | scripts/completion_ledger.py:424-654 | no error exactly when the ledger is valid in names, references, blockers, dependencies, priority and posture and the other checks find none |
| Ledger.CheckPackageNames | scripts/completion_ledger.py:441-452 | package ids are non-empty and distinct |
| Ledger.CheckBlockers | scripts/completion_ledger.py:454-481 | blocker ids are distinct and their packages known |
| Ledger.CheckReferences | scripts/completion_ledger.py:494-587 | dependencies and blocker references resolve |
| Ledger.CheckConsistent | scripts/completion_ledger.py:589-614 | a status agrees with the evidence and with what was merged |
| Ledger.RunnableWorkPackages | scripts/completion_ledger.py:401-421 | the runnable packages in the order of the priority list |
| LedgerMeaning.RunnableInOrder | scripts/completion_ledger.py:401-421 | the answer stands at increasing positions of the priority list, and exactly the ready packages of the list are picked: not complete, not blocked, no open blocker, all dependencies satisfied |
| LedgerMeaning.PendingInOrder | scripts/completion_ledger.py:137-147 | the same for the packages that are not complete |
| LedgerMeaning.CompleteExactly | scripts/completion_ledger.py:92-134 | which packages are complete, and which satisfy their dependents |
| LedgerMeaning.ReadyToRelease | scripts/completion_ledger.py:150-154 | on any ledger: the posture says so and nothing in the list is incomplete |
| LedgerMeaning.ValidSpelledOut | scripts/completion_ledger.py:424-654 | row by row: exactly which ledgers are valid in what the model covers |
| Ledger.CompleteSatisfiesDependents | scripts/completion_ledger.py:104-134 | in a valid ledger a complete package satisfies its dependents, for all three gates |
| Ledger.UnblockedExactly | scripts/completion_ledger.py:389-413 | a package references no open blocker exactly when it owns none |
| Ledger.RunnableExactly | scripts/completion_ledger.py:401-421 | runnable are exactly the unfinished packages that are neither blocked nor own an open package blocker; the dependency test decides nothing |
| Ledger.PendingWorkCanProceed | scripts/completion_ledger.py:137-147 | without a dependency cycle, pending work includes a package whose dependencies are all satisfied |
| Ledger.CycleIsValid | scripts/completion_ledger.py:424-654 | a valid ledger may hold a cycle in which no package ever has its dependencies satisfied |
| Ledger.ReleaseReadyExactly | scripts/completion_ledger.py:150-154 | the release is ready exactly when the posture says so |

## Left out

- Serial ports, esptool, subprocesses, git, the GitHub API and real files: parameters and small stores.
- The firmware and its headers, `core_smoke_d1l.py`, `core_ui_corruption_probe_d1l.py`, the install review and
  the other receipt checkers: conjunctions of field comparisons that would only add easy members.
- RebootMatrix.Producer.VerifyRebootMatrix: models the receipts by what the chain and the verdict need (place,
  digests, ok, stage, errors), not by their descriptive fields; an asynchronous interrupt between two statements
  is not modelled, an exception in any call is.
- RebootMatrix: that every cold cycle the producer accepts also passes the validator is not claimed: the
  validator measures between samples, the producer from before the first one.
- HashChain.ValidateChain: the report's other checks (identity, git, live capture, seed and flash receipts) are
  one error count; an escaping exception is not an acceptance.
- RawConsole.ReadRawCommand: the start and end times and `write_attempted` in the receipt; `decode` refuses text that is
  not padded base 64.
- PageProjection.Project: an exception raised on malformed values counts as an error; the order of entries
  without integer sequence numbers, which are already in error, is not modelled.
- StateCapture: boot lines, crash markers, and the recomputation of settings, contacts and read state.
- Orchestrator.Run.RunValidation: error strings, the release-gate summary and output paths; stage kinds and bridge
  phases are datatypes; `main`, which refuses hardware mode, is not modelled.
- ReleaseComparison.LoadSnapshot: the checks of the manifest's shape, the SBOM, the provenance and the toolchain lock
  are one parameter.
- ReleaseComparison.CompareSnapshots: a failure is its code alone; the detail texts and the final order of failures are
  not modelled.
- RetainedState.ProjectRetainedState: the projection of settings and WiFi profiles, with its field checks, is one
  parameter, and the results are already sorted out by command.
- DefectPages.RecomputeRawPageSet: page-set objects of the wrong shape, links, and path normalisation beyond the
  directory test; the empty-directory precondition of `WritePageSet` is the freshly made staging directory.
- DefectVerdict: the two regular expressions, the audit recomputation behind the exception, and the descriptive
  fields of the analysis; which comment is quoted as evidence does depend on the order of comments.
- Archive.SafeExtract: symbolic links in the store, case-insensitive stores, and a file cut short because reading its
  member, which was read once already, fails half way.
- Ledger.ValidateLedger: rows of the wrong shape or with unknown states or gates, evidence rows, commit hashes, port
  policy, capabilities, release gates and progress reporting are one error count; percentages and Markdown.
