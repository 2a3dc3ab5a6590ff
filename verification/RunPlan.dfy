/** What a hardware validation run may do: its stages, the published plan, the policy of each
    stage, and the interpretation of a stage list against arbitrary stage outcomes. */
module RunPlan {
  import opened Results
  import opened RunLog

  /** The command-line choices a run depends on. `refresh` is `rp2040_refresh_requested`. */
  datatype Options = Options(
    dryRun: bool, skipEsp32Flash: bool, refresh: bool, skipUnavailableCapture: bool,
    skipSdSuite: bool, sdScenarios: seq<string>, includeUiProbes: bool)

  /** The `phase` of a restore boundary. */
  datatype Phase = PreDiag | PostOfficialSmoke | PostDiag | RecoveryAfter(failed: Stage)

  datatype Stage =
    | VerifyInputs
    | FlashEsp32
    | AccessPrecheck
    | OfficialSmoke
    | BootPrepare(scenario: string)
    | RestoreBridge(phase: Phase)
    | ReflashEsp32(phase: Phase)
    | BridgePreflight(phase: Phase)
    | CleanPreflightGate(phase: Phase)
    | SdRawDiag
    | SdFileCanary
    | SdMapTileCanary
    | SdExportCanary
    | SdDiagnosticExport
    | SdDataExport
    | SdRetainedHistory
    | SdRebootRemount
    | D1lSmoke
    | Onboarding
    | UiCorruptionProbe
    | ScrollProbe
    | UiPixelCapture
    | UiComposeCapture
    | ReleaseGate

  // ----- the plan, as the report publishes it before anything runs

  /** The step names of the plan; each constructor stands for one of the strings in the list. */
  datatype PlanStep =
    | VerifyInputArtifacts
    | FlashEsp32Step
    | Rp2040AutonomousAccessPrecheck
    | FlashOfficialRp2040SdSmoke
    | CaptureOfficialRp2040SdSmoke
    | SdBootPrepare(scenario: string)
    | RestoreExactRp2040Bridge(phase: Phase)
    | RestoreRp2040Bridge
    | ReflashExactEsp32(phase: Phase)
    | Rp2040BridgePreflight(phase: Phase)
    | CleanPreflightGateStep(phase: Phase)
    | SdStep(stage: Stage)
    | D1lSmokeStep
    | D1lOnboardingCompleteForUiProbes
    | D1lUiCorruptionProbe
    | D1lScrollProbe
    | D1lUiPixelCapture
    | D1lUiComposeKeyboardCapture
    | ReleaseGateAuditStep

  function If(condition: bool, names: seq<PlanStep>): seq<PlanStep> {
    if condition then names else []
  }

  /** `plan_report(...)["steps"]` */
  function PlanSteps(o: Options): seq<PlanStep> {
    PreparationSteps(o) + SuiteSteps(o)
  }

  function PreparationSteps(o: Options): seq<PlanStep> {
    ([VerifyInputArtifacts]
     + (If(!o.skipEsp32Flash, [FlashEsp32Step])
     + If(o.refresh || !o.skipSdSuite, [Rp2040AutonomousAccessPrecheck])))
    + ((If(o.refresh, [FlashOfficialRp2040SdSmoke, CaptureOfficialRp2040SdSmoke])
        + If(o.refresh && !o.skipUnavailableCapture, [SdBootPrepare("rp2040-unavailable")]))
    + (If(o.refresh || !o.skipSdSuite, [if o.skipSdSuite then RestoreRp2040Bridge else RestoreExactRp2040Bridge(PreDiag)])
       + If(o.refresh, [ReflashExactEsp32(if o.skipSdSuite then PostOfficialSmoke else PreDiag)])))
  }

  function SuiteSteps(o: Options): seq<PlanStep> {
    If(!o.skipSdSuite, SdPlanSteps(o))
    + ([D1lSmokeStep]
    + (If(o.includeUiProbes, [D1lOnboardingCompleteForUiProbes] + UiProbeSteps())
    + [ReleaseGateAuditStep]))
  }

  function UiProbeSteps(): seq<PlanStep> {
    [D1lUiCorruptionProbe, D1lScrollProbe, D1lUiPixelCapture, D1lUiComposeKeyboardCapture]
  }

  function SdPlanSteps(o: Options): seq<PlanStep> {
    [Rp2040BridgePreflight(PreDiag), CleanPreflightGateStep(PreDiag)]
    + ([SdStep(SdRawDiag), RestoreExactRp2040Bridge(PostDiag), ReflashExactEsp32(PostDiag),
        Rp2040BridgePreflight(PostDiag), CleanPreflightGateStep(PostDiag)]
    + ([SdStep(SdFileCanary)]
    + (ScenarioSteps(o.sdScenarios)
    + [SdStep(SdMapTileCanary), SdStep(SdExportCanary), SdStep(SdDiagnosticExport), SdStep(SdDataExport),
       SdStep(SdRetainedHistory), SdStep(SdRebootRemount)])))
  }

  function ScenarioSteps(scenarios: seq<string>): seq<PlanStep> {
    if scenarios == [] then [] else [SdBootPrepare(scenarios[0])] + ScenarioSteps(scenarios[1..])
  }

  /** The plan steps a stage answers for; the official smoke is flashed and captured in one call. */
  function PlanNames(s: Stage): seq<PlanStep> {
    match s
    case VerifyInputs => [VerifyInputArtifacts]
    case FlashEsp32 => [FlashEsp32Step]
    case AccessPrecheck => [Rp2040AutonomousAccessPrecheck]
    case OfficialSmoke => [FlashOfficialRp2040SdSmoke, CaptureOfficialRp2040SdSmoke]
    case BootPrepare(scenario) => [SdBootPrepare(scenario)]
    case RestoreBridge(p) => [if p == PostOfficialSmoke then RestoreRp2040Bridge else RestoreExactRp2040Bridge(p)]
    case ReflashEsp32(p) => [ReflashExactEsp32(p)]
    case BridgePreflight(p) => [Rp2040BridgePreflight(p)]
    case CleanPreflightGate(p) => [CleanPreflightGateStep(p)]
    case D1lSmoke => [D1lSmokeStep]
    case Onboarding => [D1lOnboardingCompleteForUiProbes]
    case UiCorruptionProbe => [D1lUiCorruptionProbe]
    case ScrollProbe => [D1lScrollProbe]
    case UiPixelCapture => [D1lUiPixelCapture]
    case UiComposeCapture => [D1lUiComposeKeyboardCapture]
    case ReleaseGate => [ReleaseGateAuditStep]
    case _ => [SdStep(s)]
  }

  function NamesOf(stages: seq<Stage>): seq<PlanStep> {
    if stages == [] then [] else PlanNames(stages[0]) + NamesOf(stages[1..])
  }

  // ----- what a run does about each stage

  /** What follows a stage whose check fails: stop quietly, audit the release gate (with or
      without catching its exceptions), or audit, recover the device and audit again. */
  datatype Aftermath = Quiet | Audit(caught: bool) | Recover(failed: Stage)

  /** `caught`: an exception in the stage becomes a failed entry. `Stop` looks at the last
      `window` stages together. */
  datatype Policy = Continue | Stop(window: nat, aftermath: Aftermath)

  datatype Item = Item(stage: Stage, caught: bool, policy: Policy)

  function Boundary(phase: Phase, last: Policy): seq<Item> {
    [Item(RestoreBridge(phase), true, Continue), Item(ReflashEsp32(phase), true, Continue),
     Item(BridgePreflight(phase), true, Continue), Item(CleanPreflightGate(phase), true, last)]
  }

  function When(condition: bool, items: seq<Item>): seq<Item> {
    if condition then items else []
  }

  function InputItems(o: Options): seq<Item> {
    [Item(VerifyInputs, false, Stop(1, Quiet))]
    + (When(!o.skipEsp32Flash, [Item(FlashEsp32, false, Stop(1, Audit(false)))])
    + When(o.refresh || !o.skipSdSuite, [Item(AccessPrecheck, false, Stop(1, Audit(false)))]))
  }

  function SmokeImageItems(o: Options): seq<Item> {
    When(o.refresh, [Item(OfficialSmoke, true, Continue)])
    + When(o.refresh && !o.skipUnavailableCapture, [Item(BootPrepare("rp2040-unavailable"), false, Continue)])
  }

  function BridgePhase(o: Options): Phase {
    if o.skipSdSuite then PostOfficialSmoke else PreDiag
  }

  function BridgeItems(o: Options): seq<Item> {
    When(o.refresh || !o.skipSdSuite, [Item(RestoreBridge(BridgePhase(o)), true, Stop(1, Audit(false)))])
    + When(o.refresh, [Item(ReflashEsp32(BridgePhase(o)), true, Stop(1, Audit(true)))])
  }

  function PreflightItems(): seq<Item> {
    [Item(BridgePreflight(PreDiag), true, Continue),
     Item(CleanPreflightGate(PreDiag), false, Stop(1, Audit(true)))]
  }

  /** The raw diagnostic and the boundary that always follows it, checked together. */
  function DiagnosticItems(): seq<Item> {
    [Item(SdRawDiag, true, Continue)] + Boundary(PostDiag, Stop(5, Audit(true)))
  }

  /** A stage of the SD suite after the diagnostics: its failure leaves the device to be recovered. */
  function Recoverable(s: Stage): Item {
    Item(s, true, Stop(1, Recover(s)))
  }

  const LATER_STAGES := [SdMapTileCanary, SdExportCanary, SdDiagnosticExport, SdDataExport, SdRetainedHistory, SdRebootRemount]

  function ScenarioStages(scenarios: seq<string>): seq<Stage> {
    if scenarios == [] then [] else [BootPrepare(scenarios[0])] + ScenarioStages(scenarios[1..])
  }

  function RecoverableItems(stages: seq<Stage>): seq<Item> {
    if stages == [] then [] else [Recoverable(stages[0])] + RecoverableItems(stages[1..])
  }

  function CanaryStages(o: Options): seq<Stage> {
    [SdFileCanary] + (ScenarioStages(o.sdScenarios) + LATER_STAGES)
  }

  function SdItems(o: Options): seq<Item> {
    When(!o.skipSdSuite, PreflightItems() + (DiagnosticItems() + RecoverableItems(CanaryStages(o))))
  }

  function SmokeItem(o: Options): Item {
    Item(D1lSmoke, true, Stop(1, if o.skipSdSuite then Audit(true) else Recover(D1lSmoke)))
  }

  const PROBES := [UiCorruptionProbe, ScrollProbe, UiPixelCapture, UiComposeCapture]

  function ProbeItems(stages: seq<Stage>): seq<Item> {
    if stages == [] then [] else [Item(stages[0], false, Continue)] + ProbeItems(stages[1..])
  }

  function UiItems(o: Options): seq<Item> {
    When(o.includeUiProbes, [Item(Onboarding, false, Stop(1, Audit(false)))] + ProbeItems(PROBES))
  }

  function PreparationItems(o: Options): seq<Item> {
    InputItems(o) + (SmokeImageItems(o) + BridgeItems(o))
  }

  function SuiteItems(o: Options): seq<Item> {
    SdItems(o) + ([SmokeItem(o)] + (UiItems(o) + [AuditItem(false)]))
  }

  /** The stages of a run, each with what happens when it fails. */
  function Items(o: Options): seq<Item> {
    PreparationItems(o) + SuiteItems(o)
  }

  // ----- interpreting a stage list

  /** One call of a stage: it returns with its verdict, or raises; `recorded` says whether the
      handler could write the exception entry when there is one. */
  datatype Outcome = Done(ok: bool) | Raised(recorded: bool)

  type World = nat -> Outcome

  /** What one stage leaves in the log. `Interrupted` is a failed first bridge attempt whose
      retry could not be recorded. */
  datatype Logged =
    | Plain(stage: Stage, ok: bool)
    | Restored(phase: Phase, firstOk: bool, secondOk: bool)
    | Interrupted(phase: Phase)

  function StageOf(l: Logged): Stage {
    match l
    case Plain(s, _) => s
    case Restored(p, _, _) => RestoreBridge(p)
    case Interrupted(p) => RestoreBridge(p)
  }

  /** The terminal outcome of a stage, a bounded retry counting by its last attempt. */
  predicate Passed(l: Logged) {
    match l
    case Plain(_, ok) => ok
    case Restored(_, first, second) => first || second
    case Interrupted(_) => false
  }

  /** The run entry of a stage that is not a bridge restore; the stage stands for the entry's
      `kind` and, where it has one, its `phase`. */
  function PlainEntry(s: Stage, ok: bool): Step<Stage, Phase> {
    Step(if s.ReleaseGate? then Kind.ReleaseGateAudit else Kind.Stage(s), None, Absent, ok)
  }

  function AttemptEntry(phase: Phase, number: real, ok: bool): Step<Stage, Phase> {
    Step(Kind.BridgeRestore, Some(phase), Number(number), ok)
  }

  /** The run entries of one logged stage. */
  function EntriesOf(l: Logged): seq<Step<Stage, Phase>> {
    match l
    case Plain(s, ok) => [PlainEntry(s, ok)]
    case Restored(p, first, second) => RestoreEntries(p, first, second)
    case Interrupted(p) => [AttemptEntry(p, 1.0, false)]
  }

  /** The logged stages, the run log behind them, the number of calls made so far, and whether an
      exception is on its way out. */
  datatype State = State(log: seq<Logged>, runs: seq<Step<Stage, Phase>>, calls: nat, raised: bool)

  function Add(st: State, l: Logged, calls: nat, raised: bool): State {
    State(st.log + [l], st.runs + EntriesOf(l), calls, raised)
  }

  function Escape(st: State, calls: nat): State {
    st.(calls := calls, raised := true)
  }

  /** One stage, against the outcomes of the calls it makes. */
  function RunItem(w: World, item: Item, st: State): State {
    if item.stage.RestoreBridge? then RunRestore(w, item.stage.phase, st)
    else
      match w(st.calls)
      case Done(ok) => Add(st, Plain(item.stage, ok), st.calls + 1, false)
      case Raised(recorded) =>
        if item.caught && recorded then Add(st, Plain(item.stage, false), st.calls + 1, false)
        else Escape(st, st.calls + 1)
  }

  function RunRestore(w: World, p: Phase, st: State): State {
    match w(st.calls)
    case Done(true) => Add(st, Restored(p, true, false), st.calls + 1, false)
    case Raised(false) => Escape(st, st.calls + 1)
    case _ =>
      match w(st.calls + 1)
      case Done(ok) => Add(st, Restored(p, false, ok), st.calls + 2, false)
      case Raised(true) => Add(st, Restored(p, false, false), st.calls + 2, false)
      case Raised(false) => Add(st, Interrupted(p), st.calls + 2, true)
  }

  /** A stage list without checks, up to the first exception that escapes. */
  function RunAll(w: World, items: seq<Item>, st: State): State
    decreases |items|
  {
    if items == [] || st.raised then st else RunAll(w, items[1..], RunItem(w, items[0], st))
  }

  function AuditItem(caught: bool): Item {
    Item(ReleaseGate, caught, Continue)
  }

  function AftermathItems(a: Aftermath): seq<Item> {
    match a
    case Quiet => []
    case Audit(caught) => [AuditItem(caught)]
    case Recover(failed) => [AuditItem(true)] + (Boundary(RecoveryAfter(failed), Continue) + [AuditItem(true)])
  }

  /** `report["error"]`: an exception, or the first failed stage of the check that stopped the run. */
  datatype RunError = ExceptionText | StageFailed(stage: Stage)

  /** Where an interpretation stands. The first `main` logged stages follow the stage list, the
      others are the aftermath; `recovery` is `report["recovery"]["ok"]`. */
  datatype Progress =
    | Running(st: State)
    | Ended(st: State, main: nat, error: RunError, recovery: Option<bool>)

  function Last<T>(q: seq<T>, n: nat): seq<T> {
    if n <= |q| then q[|q| - n..] else q
  }

  predicate AllPassed(log: seq<Logged>) {
    forall i :: 0 <= i < |log| ==> Passed(log[i])
  }

  function FirstFailed(log: seq<Logged>): Stage
    requires !AllPassed(log)
  {
    if !Passed(log[0]) then StageOf(log[0]) else FirstFailed(log[1..])
  }

  function BoundaryBeforeAudit(log: seq<Logged>): seq<Logged> {
    if |log| >= 5 then log[|log| - 5..|log| - 1] else []
  }

  /** The recovery verdict a stop reports: of the boundary it ran (before its second audit), or of
      the boundary it checked. */
  function RecoveryVerdict(policy: Policy, window: seq<Logged>, log: seq<Logged>): Option<bool>
    requires policy.Stop?
  {
    if policy.aftermath.Recover? then Some(AllPassed(BoundaryBeforeAudit(log)))
    else if policy.window > 1 then Some(AllPassed(Last(window, policy.window - 1)))
    else None
  }

  function Stopped(w: World, policy: Policy, st: State): Progress
    requires policy.Stop? && !AllPassed(Last(st.log, policy.window))
  {
    var window := Last(st.log, policy.window);
    var st' := RunAll(w, AftermathItems(policy.aftermath), st);
    if st'.raised then Ended(st', |st.log|, ExceptionText, None)
    else Ended(st', |st.log|, StageFailed(FirstFailed(window)), RecoveryVerdict(policy, window, st'.log))
  }

  /** The whole policy: run the stages in order; in hardware mode stop at the first failed check. */
  function Interpret(w: World, dryRun: bool, items: seq<Item>, st: State): Progress
    decreases |items|
  {
    if items == [] then Running(st)
    else
      var st' := RunItem(w, items[0], st);
      var policy := items[0].policy;
      if st'.raised then Ended(st', |st'.log|, ExceptionText, None)
      else if policy.Stop? && !dryRun && !AllPassed(Last(st'.log, policy.window)) then Stopped(w, policy, st')
      else Interpret(w, dryRun, items[1..], st')
  }

  // ----- running and interpreting lists piece by piece

  lemma {:induction false} RunAllConcat(w: World, a: seq<Item>, b: seq<Item>, st: State)
    ensures RunAll(w, a + b, st) == RunAll(w, b, RunAll(w, a, st))
    decreases |a|
  {
    if a == [] {
      assert a + b == b;
    } else if !st.raised {
      assert (a + b)[1..] == a[1..] + b;
      RunAllConcat(w, a[1..], b, RunItem(w, a[0], st));
    }
  }

  lemma OnePassed(l: Logged)
    ensures AllPassed([l]) <==> Passed(l)
    ensures !Passed(l) ==> FirstFailed([l]) == StageOf(l)
  {
    assert [l][0] == l;
  }

  lemma RunAllStep(w: World, item: Item, rest: seq<Item>, st: State)
    ensures RunAll(w, [item] + rest, st) == if st.raised then st else RunAll(w, rest, RunItem(w, item, st))
  {
    assert ([item] + rest)[1..] == rest;
  }

  /** The four stages of a boundary, one after the other. */
  lemma RunBoundary(w: World, phase: Phase, st: State)
    requires !st.raised
    ensures var s1 := RunRestore(w, phase, st);
            var s2 := RunItem(w, Item(ReflashEsp32(phase), true, Continue), s1);
            var s3 := RunItem(w, Item(BridgePreflight(phase), true, Continue), s2);
            var s4 := RunItem(w, Item(CleanPreflightGate(phase), true, Continue), s3);
            RunAll(w, Boundary(phase, Continue), st) ==
            if s1.raised then s1 else if s2.raised then s2 else if s3.raised then s3 else s4
  {
    var items := Boundary(phase, Continue);
    var b, e, p, g := items[0], items[1], items[2], items[3];
    assert items == [b] + [e, p, g] && [e, p, g] == [e] + [p, g] && [p, g] == [p] + [g] && [g] == [g] + [];
    var s1 := RunItem(w, b, st);
    var s2 := RunItem(w, e, s1);
    var s3 := RunItem(w, p, s2);
    RunAllStep(w, b, [e, p, g], st);
    RunAllStep(w, e, [p, g], s1);
    RunAllStep(w, p, [g], s2);
    RunAllStep(w, g, [], s3);
  }

  lemma {:induction false} InterpretConcat(w: World, dryRun: bool, a: seq<Item>, b: seq<Item>, st: State)
    ensures var p := Interpret(w, dryRun, a, st);
            Interpret(w, dryRun, a + b, st) == if p.Running? then Interpret(w, dryRun, b, p.st) else p
    decreases |a|
  {
    if a == [] {
      assert a + b == b;
    } else {
      assert (a + b)[1..] == a[1..] + b;
      InterpretConcat(w, dryRun, a[1..], b, RunItem(w, a[0], st));
    }
  }

  lemma InterpretOne(w: World, dryRun: bool, item: Item, st: State)
    ensures var st' := RunItem(w, item, st);
            var policy := item.policy;
            Interpret(w, dryRun, [item], st) ==
            if st'.raised then Ended(st', |st'.log|, ExceptionText, None)
            else if policy.Stop? && !dryRun && !AllPassed(Last(st'.log, policy.window)) then Stopped(w, policy, st')
            else Running(st')
  {
    assert [item][1..] == [];
  }

  /** A boundary whose last stage carries the check. */
  lemma InterpretBoundary(w: World, dryRun: bool, phase: Phase, last: Policy, st: State)
    requires !st.raised && last.Stop?
    ensures var s := RunAll(w, Boundary(phase, Continue), st);
            Interpret(w, dryRun, Boundary(phase, last), st) ==
            if s.raised then Ended(s, |s.log|, ExceptionText, None)
            else if !dryRun && !AllPassed(Last(s.log, last.window)) then Stopped(w, last, s)
            else Running(s)
  {
    var items := Boundary(phase, last);
    var b, e, p, g := items[0], items[1], items[2], items[3];
    assert items == [b] + ([e] + ([p] + [g]));
    RunBoundary(w, phase, st);
    SameRun(w, g, Item(CleanPreflightGate(phase), true, Continue));
    hide RunAll, Interpret, Stopped, AllPassed, Last;
    var t1 := RunItem(w, b, st);
    var t2 := RunItem(w, e, t1);
    var t3 := RunItem(w, p, t2);
    InterpretConcat(w, dryRun, [b], [e] + ([p] + [g]), st);
    InterpretOne(w, dryRun, b, st);
    InterpretConcat(w, dryRun, [e], [p] + [g], t1);
    InterpretOne(w, dryRun, e, t1);
    InterpretConcat(w, dryRun, [p], [g], t2);
    InterpretOne(w, dryRun, p, t2);
    InterpretOne(w, dryRun, g, t3);
  }

  /** Running an item does not depend on its policy. */
  lemma SameRun(w: World, a: Item, b: Item)
    requires a.stage == b.stage && a.caught == b.caught
    ensures forall st :: RunItem(w, a, st) == RunItem(w, b, st)
  {
  }

  /** The raw diagnostic and its boundary, with their common check. */
  lemma InterpretDiagnostics(w: World, dryRun: bool, st: State)
    ensures var s1 := RunItem(w, Item(SdRawDiag, true, Continue), st);
            var s2 := RunAll(w, Boundary(PostDiag, Continue), s1);
            Interpret(w, dryRun, DiagnosticItems(), st) ==
            if s1.raised then Ended(s1, |s1.log|, ExceptionText, None)
            else if s2.raised then Ended(s2, |s2.log|, ExceptionText, None)
            else if !dryRun && !AllPassed(Last(s2.log, 5)) then Stopped(w, Stop(5, Audit(true)), s2)
            else Running(s2)
  {
    hide RunItem, Interpret, RunAll, Stopped, AllPassed, Boundary, Last;
    var raw := Item(SdRawDiag, true, Continue);
    var s1 := RunItem(w, raw, st);
    InterpretConcat(w, dryRun, [raw], Boundary(PostDiag, Stop(5, Audit(true))), st);
    InterpretOne(w, dryRun, raw, st);
    if !s1.raised {
      InterpretBoundary(w, dryRun, PostDiag, Stop(5, Audit(true)), s1);
    }
  }

  lemma WindowPassed(window: seq<Logged>)
    requires |window| == 5
    ensures AllPassed(window) <==> Passed(window[0]) && AllPassed(window[1..])
    ensures Last(window, 4) == window[1..]
  {
    forall i | 1 <= i < 5 ensures window[i] == window[1..][i - 1] {}
  }

  lemma FourPassed(a: Logged, b: Logged, c: Logged, d: Logged)
    ensures AllPassed([a, b, c, d]) <==> Passed(a) && Passed(b) && Passed(c) && Passed(d)
    ensures !AllPassed([a, b, c, d]) ==>
              FirstFailed([a, b, c, d]) == StageOf(if !Passed(a) then a else if !Passed(b) then b else if !Passed(c) then c else d)
  {
    var q := [a, b, c, d];
    assert q[0] == a && q[1] == b && q[2] == c && q[3] == d;
    assert q[1..] == [b, c, d] && [b, c, d][1..] == [c, d] && [c, d][1..] == [d];
    if !AllPassed(q) {
      assert Passed(a) ==> FirstFailed(q) == FirstFailed([b, c, d]);
      assert Passed(a) && Passed(b) ==> FirstFailed([b, c, d]) == FirstFailed([c, d]);
      assert Passed(a) && Passed(b) && Passed(c) ==> FirstFailed([c, d]) == FirstFailed([d]);
    }
  }

  lemma BoundaryLast(log: seq<Logged>, l: Logged, four: seq<Logged>)
    requires |four| == 4
    ensures Last(log + [l] + four, 5) == [l] + four
    ensures BoundaryBeforeAudit(log + four + [l]) == four
  {
  }
}
