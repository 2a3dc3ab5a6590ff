/** The hardware validation run: straight-line code over a growing run log, with early returns
    and exceptions. Every stage call is answered by an arbitrary outcome of the world. */
module Orchestrator {
  import opened Results
  import opened RunLog
  import opened RunPlan

  /** `report["ok"]`, `report["error"]` and `report["recovery"]["ok"]`. */
  datatype Report = Report(ok: bool, error: Option<RunError>, recovery: Option<bool>)

  /** How a piece of the run ends: it falls through, returns the report, or an exception escapes. */
  datatype Signal = Go | Returned | Escaped

  class Run {
    const opts: Options
    const world: World
    var calls: nat
    var runs: seq<Step<Stage, Phase>>
    var report: Report
    ghost var log: seq<Logged>

    constructor (opts: Options, world: World)
      ensures this.opts == opts && this.world == world && calls == 0 && runs == [] && log == []
    {
      this.opts, this.world := opts, world;
      calls, runs, log := 0, [], [];
      report := Report(false, None, None);
    }

    /** The object stands at `st`, an exception being on its way exactly when `raised`. */
    ghost predicate At(st: State, raised: bool)
      reads this
    {
      log == st.log && runs == st.runs && calls == st.calls && raised == st.raised
    }

    ghost function Here(): (st: State)
      reads this
      ensures At(st, false)
    {
      State(log, runs, calls, false)
    }

    method Append(l: Logged)
      modifies this`runs, this`log
      ensures log == old(log) + [l] && runs == old(runs) + EntriesOf(l)
    {
      runs := runs + EntriesOf(l);
      log := log + [l];
    }

    method Call() returns (r: Outcome)
      modifies this`calls
      ensures r == world(old(calls)) && calls == old(calls) + 1
    {
      r := world(calls);
      calls := calls + 1;
    }

    /** A stage run directly (`caught` false) or through one of the wrappers that turn an
        exception into a failed entry. */
    method RunStage(stage: Stage, caught: bool) returns (raised: bool, ok: bool)
      requires !stage.RestoreBridge?
      modifies this`calls, this`runs, this`log
      ensures At(RunItem(world, Item(stage, caught, Continue), old(Here())), raised)
      ensures !raised ==> log == old(log) + [Plain(stage, ok)]
    {
      var r := Call();
      raised, ok := false, r == Done(true);
      if r.Raised? && !(caught && r.recorded) {
        raised := true;
      } else {
        Append(Plain(stage, ok));
      }
    }

    /** `run_bridge_restore_with_retry`: at most two attempts, each appended as it is made. */
    method RunBridgeRestoreWithRetry(phase: Phase) returns (raised: bool, ok: bool, ghost l: Logged)
      modifies this`calls, this`runs, this`log
      ensures At(RunRestore(world, phase, old(Here())), raised)
      ensures !raised ==> log == old(log) + [l] && ok == Passed(l) && StageOf(l) == RestoreBridge(phase)
    {
      ok, raised, l := false, false, Interrupted(phase);
      ghost var attempts: seq<Step<Stage, Phase>> := [];
      var attempt := 0;
      while attempt < 2 && !ok
        invariant 0 <= attempt <= 2 && calls == old(calls) + attempt && log == old(log)
        invariant runs == old(runs) + attempts
        invariant attempt == 0 ==> attempts == [] && !ok
        invariant attempt == 1 ==> attempts == [AttemptEntry(phase, 1.0, ok)]
        invariant attempt == 2 ==> attempts == [AttemptEntry(phase, 1.0, false), AttemptEntry(phase, 2.0, ok)]
        invariant attempt == 1 ==> world(old(calls)) != Outcome.Raised(false) && ok == (world(old(calls)) == Done(true))
        invariant attempt == 2 ==> world(old(calls)) in {Done(false), Outcome.Raised(true)}
        invariant attempt == 2 ==> world(old(calls) + 1) != Outcome.Raised(false) && ok == (world(old(calls) + 1) == Done(true))
        decreases 2 - attempt
      {
        var r := Call();
        if r == Outcome.Raised(false) {
          log := log + if attempt == 0 then [] else [l];
          return true, false, l;
        }
        ok := r == Done(true);
        var report := AttemptEntry(phase, if attempt == 0 then 1.0 else 2.0, ok);
        runs, attempts := runs + [report], attempts + [report];
        attempt := attempt + 1;
      }
      l := if attempt == 1 then Restored(phase, true, false) else Restored(phase, false, ok);
      log := log + [l];
    }

    /** `run_exact_recovery_boundary`: bridge, ESP32 image, preflight and clean gate, each attempted
        whatever the one before it gave. */
    method RunExactRecoveryBoundary(phase: Phase) returns (raised: bool, ok: bool, failed: Stage, ghost four: seq<Logged>)
      modifies this`calls, this`runs, this`log
      ensures At(RunAll(world, Boundary(phase, Continue), old(Here())), raised)
      ensures !raised ==> |four| == 4 && log == old(log) + four && ok == AllPassed(four)
      ensures !raised && !ok ==> failed == FirstFailed(four)
    {
      RunBoundary(world, phase, Here());
      failed, four := RestoreBridge(phase), [];
      var bridge, esp32, preflight, gate;
      ghost var l;
      raised, bridge, l := RunBridgeRestoreWithRetry(phase);
      if raised { return true, false, failed, four; }
      raised, esp32 := RunStage(ReflashEsp32(phase), true);
      if raised { return true, false, failed, four; }
      raised, preflight := RunStage(BridgePreflight(phase), true);
      if raised { return true, false, failed, four; }
      raised, gate := RunStage(CleanPreflightGate(phase), true);
      if raised { return true, false, failed, four; }
      ok := bridge && esp32 && preflight && gate;
      failed := if !bridge then RestoreBridge(phase) else if !esp32 then ReflashEsp32(phase)
                else if !preflight then BridgePreflight(phase) else CleanPreflightGate(phase);
      ghost var e, p := Plain(ReflashEsp32(phase), esp32), Plain(BridgePreflight(phase), preflight);
      ghost var g := Plain(CleanPreflightGate(phase), gate);
      four := [l, e, p, g];
      assert log == old(log) + four;
      FourPassed(l, e, p, g);
    }

    /** The object stands where the interpretation `p` ended, `s` saying how. */
    ghost predicate Reached(p: Progress, s: Signal)
      reads this
    {
      match p
      case Running(st) => s == Go && At(st, false)
      case Ended(st, _, error, recovery) =>
        if error.ExceptionText? then s == Escaped && At(st, true)
        else s == Returned && At(st, false) && report == Report(false, Some(error), recovery)
    }

    ghost function Follow(items: seq<Item>): Progress
      reads this
    {
      Interpret(world, opts.dryRun, items, Here())
    }

    /** `fail_after_sd_stage`: audit, recover the device, audit again, then report. */
    method FailAfterSdStage(failed: Stage) returns (s: Signal)
      modifies this
      ensures var st := RunAll(world, AftermathItems(Recover(failed)), old(Here()));
              && (st.raised ==> s == Escaped && At(st, true))
              && (!st.raised ==> s == Returned && At(st, false))
      ensures s == Returned ==> report == Report(false, Some(StageFailed(failed)), Some(AllPassed(BoundaryBeforeAudit(log))))
    {
      ghost var boundary, audit := Boundary(RecoveryAfter(failed), Continue), AuditItem(true);
      RunAllStep(world, audit, boundary + [audit], Here());
      var raised, ok := RunStage(ReleaseGate, true);
      if raised { return Escaped; }
      RunAllConcat(world, boundary, [audit], Here());
      var recovered, first;
      ghost var four, log1 := [], log;
      raised, recovered, first, four := RunExactRecoveryBoundary(RecoveryAfter(failed));
      if raised { return Escaped; }
      assert [audit] == [audit] + [];
      RunAllStep(world, audit, [], Here());
      raised, ok := RunStage(ReleaseGate, true);
      if raised { return Escaped; }
      BoundaryLast(log1, Plain(ReleaseGate, ok), four);
      report := Report(false, Some(StageFailed(failed)), Some(recovered));
      s := Returned;
    }

    /** The early return after a failed check: what the aftermath asks for, then the report. */
    method StopWith(aftermath: Aftermath, failed: Stage, boundary: Option<bool>, ghost window: nat) returns (s: Signal)
      requires !AllPassed(Last(log, window)) && failed == FirstFailed(Last(log, window))
      requires aftermath.Recover? ==> aftermath.failed == failed
      requires !aftermath.Recover? ==> boundary == RecoveryVerdict(Stop(window, aftermath), Last(log, window), log)
      modifies this
      ensures Reached(Stopped(world, Stop(window, aftermath), old(Here())), s)
    {
      match aftermath {
        case Quiet =>
        case Audit(caught) =>
          assert [AuditItem(caught)] == [AuditItem(caught)] + [];
          RunAllStep(world, AuditItem(caught), [], Here());
          var raised, ok := RunStage(ReleaseGate, caught);
          if raised { return Escaped; }
        case Recover(_) =>
          s := FailAfterSdStage(failed);
          return;
      }
      report := Report(false, Some(StageFailed(failed)), boundary);
      s := Returned;
    }

    /** A stage whose own failure stops a hardware run. */
    method RunChecked(stage: Stage, caught: bool, aftermath: Aftermath) returns (s: Signal)
      requires !stage.RestoreBridge? && (aftermath.Recover? ==> aftermath.failed == stage)
      modifies this
      ensures Reached(old(Follow([Item(stage, caught, Stop(1, aftermath))])), s)
    {
      InterpretOne(world, opts.dryRun, Item(stage, caught, Stop(1, aftermath)), Here());
      var raised, ok := RunStage(stage, caught);
      if raised { return Escaped; }
      assert Last(log, 1) == [Plain(stage, ok)];
      OnePassed(Plain(stage, ok));
      if !ok && !opts.dryRun {
        s := StopWith(aftermath, stage, None, 1);
        return;
      }
      s := Go;
    }

    /** A stage whose failure is only seen by the final verdict. */
    method RunUnchecked(stage: Stage, caught: bool) returns (s: Signal)
      requires !stage.RestoreBridge?
      modifies this
      ensures Reached(old(Follow([Item(stage, caught, Continue)])), s)
    {
      InterpretOne(world, opts.dryRun, Item(stage, caught, Continue), Here());
      var raised, ok := RunStage(stage, caught);
      s := if raised then Escaped else Go;
    }

    /** The initial bridge restore: its terminal failure stops a hardware run. */
    method RunBridgeChecked(phase: Phase) returns (s: Signal)
      modifies this
      ensures Reached(old(Follow([Item(RestoreBridge(phase), true, Stop(1, Audit(false)))])), s)
    {
      InterpretOne(world, opts.dryRun, Item(RestoreBridge(phase), true, Stop(1, Audit(false))), Here());
      var raised, ok, l := RunBridgeRestoreWithRetry(phase);
      if raised { return Escaped; }
      assert Last(log, 1) == [l];
      OnePassed(l);
      if !ok && !opts.dryRun {
        s := StopWith(Audit(false), RestoreBridge(phase), None, 1);
        return;
      }
      s := Go;
    }

    /** Pieces run one after the other: the second starts where the first fell through. */
    lemma Split(a: seq<Item>, b: seq<Item>)
      ensures Follow(a + b) == (var p := Follow(a); if p.Running? then Interpret(world, opts.dryRun, b, p.st) else p)
    {
      InterpretConcat(world, opts.dryRun, a, b, Here());
    }

    method RunInputs() returns (s: Signal)
      modifies this
      ensures Reached(old(Follow(InputItems(opts))), s)
    {
      ghost var v := [Item(VerifyInputs, false, Stop(1, Quiet))];
      ghost var f := When(!opts.skipEsp32Flash, [Item(FlashEsp32, false, Stop(1, Audit(false)))]);
      ghost var a := When(opts.refresh || !opts.skipSdSuite, [Item(AccessPrecheck, false, Stop(1, Audit(false)))]);
      Split(v, f + a);
      s := RunChecked(VerifyInputs, false, Quiet);
      if s != Go { return; }
      Split(f, a);
      if !opts.skipEsp32Flash {
        s := RunChecked(FlashEsp32, false, Audit(false));
        if s != Go { return; }
      }
      if opts.refresh || !opts.skipSdSuite {
        s := RunChecked(AccessPrecheck, false, Audit(false));
      }
    }

    method RunSmokeImage() returns (s: Signal)
      modifies this
      ensures Reached(old(Follow(SmokeImageItems(opts))), s)
    {
      s := Go;
      ghost var o, b := When(opts.refresh, [Item(OfficialSmoke, true, Continue)]),
        When(opts.refresh && !opts.skipUnavailableCapture, [Item(BootPrepare("rp2040-unavailable"), false, Continue)]);
      Split(o, b);
      if opts.refresh {
        s := RunUnchecked(OfficialSmoke, true);
        if s != Go { return; }
        if !opts.skipUnavailableCapture {
          s := RunUnchecked(BootPrepare("rp2040-unavailable"), false);
        }
      }
    }

    method RunInitialBridge() returns (s: Signal)
      modifies this
      ensures Reached(old(Follow(BridgeItems(opts))), s)
    {
      s := Go;
      var phase := BridgePhase(opts);
      ghost var b, r := When(opts.refresh || !opts.skipSdSuite, [Item(RestoreBridge(phase), true, Stop(1, Audit(false)))]),
        When(opts.refresh, [Item(ReflashEsp32(phase), true, Stop(1, Audit(true)))]);
      Split(b, r);
      if opts.refresh || !opts.skipSdSuite {
        s := RunBridgeChecked(phase);
        if s != Go { return; }
        if opts.refresh {
          s := RunChecked(ReflashEsp32(phase), true, Audit(true));
        }
      }
    }

    /** Raw diagnostics and the boundary that follows whatever they gave. */
    method RunDiagnostics() returns (s: Signal)
      modifies this
      ensures Reached(old(Follow(DiagnosticItems())), s)
    {
      InterpretDiagnostics(world, opts.dryRun, Here());
      ghost var log0, four := log, [];
      var raised, ok := RunStage(SdRawDiag, true);
      if raised { return Escaped; }
      var recovered, first;
      raised, recovered, first, four := RunExactRecoveryBoundary(PostDiag);
      if raised { return Escaped; }
      BoundaryLast(log0, Plain(SdRawDiag, ok), four);
      s := CheckDiagnostics(ok, recovered, first, four);
    }

    /** The diagnostic's own failure is reported before a failure of the boundary. */
    method CheckDiagnostics(ok: bool, recovered: bool, first: Stage, ghost four: seq<Logged>) returns (s: Signal)
      requires |four| == 4 && Last(log, 5) == [Plain(SdRawDiag, ok)] + four
      requires recovered == AllPassed(four) && (!recovered ==> first == FirstFailed(four))
      modifies this
      ensures !opts.dryRun && !AllPassed(old(Last(log, 5))) ==> Reached(Stopped(world, Stop(5, Audit(true)), old(Here())), s)
      ensures opts.dryRun || AllPassed(old(Last(log, 5))) ==> s == Go && log == old(log) && runs == old(runs) && calls == old(calls)
    {
      ghost var window := Last(log, 5);
      assert window[0] == Plain(SdRawDiag, ok) && window[1..] == four;
      WindowPassed(window);
      if !ok && !opts.dryRun {
        s := StopWith(Audit(true), SdRawDiag, Some(recovered), 5);
        return;
      }
      if !recovered && !opts.dryRun {
        s := StopWith(Audit(true), first, Some(false), 5);
        return;
      }
      s := Go;
    }

    /** The stages of the SD suite whose failure leaves a device to be recovered, in one loop. */
    method RunRecoverable(stages: seq<Stage>) returns (s: Signal)
      requires forall i :: 0 <= i < |stages| ==> !stages[i].RestoreBridge?
      modifies this
      ensures Reached(old(Follow(RecoverableItems(stages))), s)
    {
      s := Go;
      ghost var total := Follow(RecoverableItems(stages));
      for i := 0 to |stages|
        invariant total == Follow(RecoverableItems(stages[i..])) && s == Go
      {
        assert stages[i..][0] == stages[i] && stages[i..][1..] == stages[i + 1..];
        Split([Recoverable(stages[i])], RecoverableItems(stages[i + 1..]));
        s := RunChecked(stages[i], true, Recover(stages[i]));
        if s != Go { return; }
      }
    }

    lemma {:induction false} ScenariosDoNotRestore(scenarios: seq<string>)
      ensures forall s :: s in ScenarioStages(scenarios) ==> !s.RestoreBridge?
    {
      if scenarios != [] { ScenariosDoNotRestore(scenarios[1..]); }
    }

    lemma CanariesDoNotRestore(o: Options)
      ensures forall i :: 0 <= i < |CanaryStages(o)| ==> !CanaryStages(o)[i].RestoreBridge?
    {
      ScenariosDoNotRestore(o.sdScenarios);
      forall i | 0 <= i < |CanaryStages(o)| ensures !CanaryStages(o)[i].RestoreBridge? {
        assert CanaryStages(o)[i] in CanaryStages(o);
      }
    }

    method RunSdSuite() returns (s: Signal)
      modifies this
      ensures Reached(old(Follow(SdItems(opts))), s)
    {
      s := Go;
      if opts.skipSdSuite { return; }
      ghost var p := [Item(BridgePreflight(PreDiag), true, Continue)];
      ghost var g := [Item(CleanPreflightGate(PreDiag), false, Stop(1, Audit(true)))];
      ghost var later := RecoverableItems(CanaryStages(opts));
      Split(PreflightItems(), DiagnosticItems() + later);
      assert PreflightItems() == p + g;
      Split(p, g);
      s := RunUnchecked(BridgePreflight(PreDiag), true);
      if s != Go { return; }
      s := RunChecked(CleanPreflightGate(PreDiag), false, Audit(true));
      if s != Go { return; }
      Split(DiagnosticItems(), later);
      s := RunDiagnostics();
      if s != Go { return; }
      CanariesDoNotRestore(opts);
      s := RunRecoverable(CanaryStages(opts));
    }

    method RunProbes(stages: seq<Stage>) returns (s: Signal)
      requires forall i :: 0 <= i < |stages| ==> !stages[i].RestoreBridge?
      modifies this
      ensures Reached(old(Follow(ProbeItems(stages))), s)
    {
      s := Go;
      ghost var total := Follow(ProbeItems(stages));
      for i := 0 to |stages|
        invariant total == Follow(ProbeItems(stages[i..])) && s == Go
      {
        assert stages[i..][0] == stages[i] && stages[i..][1..] == stages[i + 1..];
        Split([Item(stages[i], false, Continue)], ProbeItems(stages[i + 1..]));
        s := RunUnchecked(stages[i], false);
        if s != Go { return; }
      }
    }

    method RunUi() returns (s: Signal)
      modifies this
      ensures Reached(old(Follow(UiItems(opts))), s)
    {
      s := Go;
      if !opts.includeUiProbes { return; }
      Split([Item(Onboarding, false, Stop(1, Audit(false)))], ProbeItems(PROBES));
      s := RunChecked(Onboarding, false, Audit(false));
      if s != Go { return; }
      s := RunProbes(PROBES);
    }

    method RunPreparation() returns (s: Signal)
      modifies this
      ensures Reached(old(Follow(PreparationItems(opts))), s)
    {
      Split(InputItems(opts), SmokeImageItems(opts) + BridgeItems(opts));
      s := RunInputs();
      if s != Go { return; }
      Split(SmokeImageItems(opts), BridgeItems(opts));
      s := RunSmokeImage();
      if s != Go { return; }
      s := RunInitialBridge();
    }

    method RunSuites() returns (s: Signal)
      modifies this
      ensures Reached(old(Follow(SuiteItems(opts))), s)
    {
      ghost var a := [AuditItem(false)];
      Split(SdItems(opts), [SmokeItem(opts)] + (UiItems(opts) + a));
      s := RunSdSuite();
      if s != Go { return; }
      Split([SmokeItem(opts)], UiItems(opts) + a);
      s := RunChecked(D1lSmoke, true, if opts.skipSdSuite then Audit(true) else Recover(D1lSmoke));
      if s != Go { return; }
      Split(UiItems(opts), a);
      s := RunUi();
      if s != Go { return; }
      s := RunUnchecked(ReleaseGate, false);
    }

    /** The body of the `try` block. */
    method RunStages() returns (s: Signal)
      modifies this
      ensures Reached(old(Follow(Items(opts))), s)
    {
      Split(PreparationItems(opts), SuiteItems(opts));
      s := RunPreparation();
      if s != Go { return; }
      s := RunSuites();
    }

    /** `run_validation`: an escaping exception fails the report; a run that reaches its end is
        judged by its log. The log is the interpretation of the stage list. */
    method RunValidation()
      requires calls == 0 && runs == [] && log == []
      modifies this
      ensures var p := Interpret(world, opts.dryRun, Items(opts), State([], [], 0, false));
              && log == p.st.log && runs == p.st.runs && calls == p.st.calls
              && (p.Running? ==> report == Report(Accepts(runs), None, None))
              && (p.Ended? ==> report == Report(false, Some(p.error), if p.error.ExceptionText? then None else p.recovery))
    {
      hide Interpret, Items, Accepts;
      var s := RunStages();
      match s {
        case Escaped => report := Report(false, Some(ExceptionText), None);
        case Returned =>
        case Go =>
          var ok := ValidationRunsOk(runs);
          report := Report(ok, None, None);
      }
    }
  }
}
