/** What every hardware validation run keeps, whatever its stages answer: it follows the published
    plan, it ends well exactly when every stage did, and raw diagnostics are never left without
    the boundary that restores the device. */
module RunSafety {
  import opened RunLog
  import opened RunPlan

  function StagesOf(items: seq<Item>): seq<Stage> {
    if items == [] then [] else [items[0].stage] + StagesOf(items[1..])
  }

  lemma {:induction false} StagesLength(items: seq<Item>)
    ensures |StagesOf(items)| == |items|
  {
    if items != [] { StagesLength(items[1..]); }
  }

  const START := State([], [], 0, false)

  ghost function Validate(w: World, o: Options): Progress {
    Interpret(w, o.dryRun, Items(o), START)
  }

  /** The part of the log that follows the stage list. */
  function Main(p: Progress): seq<Logged> {
    match p
    case Running(st) => st.log
    case Ended(st, main, _, _) => if main <= |st.log| then st.log[..main] else st.log
  }

  function Tail(p: Progress): seq<Logged> {
    match p
    case Running(st) => []
    case Ended(st, main, _, _) => if main <= |st.log| then st.log[main..] else []
  }

  /** A release-gate audit, or a stage of a recovery boundary. */
  predicate AftermathStage(s: Stage) {
    s.ReleaseGate?
    || ((s.RestoreBridge? || s.ReflashEsp32? || s.BridgePreflight? || s.CleanPreflightGate?) && s.phase.RecoveryAfter?)
  }

  // ----- the log grows by the stages that were due

  lemma ItemLogged(w: World, item: Item, st: State)
    ensures var st' := RunItem(w, item, st);
            && (st'.log == st.log || (|st'.log| == |st.log| + 1 && st'.log[..|st.log|] == st.log
                                      && StageOf(st'.log[|st.log|]) == item.stage))
            && (!st'.raised ==> |st'.log| == |st.log| + 1 && !st'.log[|st.log|].Interrupted?)
            && st'.runs == st.runs + if st'.log == st.log then [] else EntriesOf(st'.log[|st.log|])
  {
  }

  /** The entries of a log are those of its stages, one after the other. */
  ghost predicate Reflects(st: State) {
    st.runs == RunsOf(st.log)
  }

  function RunsOf(log: seq<Logged>): seq<Step<Stage, Phase>> {
    if log == [] then [] else EntriesOf(log[0]) + RunsOf(log[1..])
  }

  lemma {:induction false} RunsOfSnoc(log: seq<Logged>, l: Logged)
    ensures RunsOf(log + [l]) == RunsOf(log) + EntriesOf(l)
  {
    if log == [] {
      assert [l][1..] == [];
    } else {
      assert (log + [l])[1..] == log[1..] + [l];
      RunsOfSnoc(log[1..], l);
    }
  }

  lemma ItemReflects(w: World, item: Item, st: State)
    requires Reflects(st)
    ensures Reflects(RunItem(w, item, st))
  {
    var st' := RunItem(w, item, st);
    ItemLogged(w, item, st);
    if st'.log != st.log {
      RunsOfSnoc(st.log, st'.log[|st.log|]);
      assert st'.log == st.log + [st'.log[|st.log|]];
    }
  }

  /** `log'` extends `log` by the first of the given stages. */
  ghost predicate Extends(log: seq<Logged>, log': seq<Logged>, stages: seq<Stage>) {
    && log <= log' && |log'| <= |log| + |stages|
    && forall i :: |log| <= i < |log'| ==> StageOf(log'[i]) == stages[i - |log|]
  }

  lemma ExtendsStep(log: seq<Logged>, mid: seq<Logged>, log': seq<Logged>, stages: seq<Stage>)
    requires stages != [] && |mid| == |log| + 1 && mid[..|log|] == log && StageOf(mid[|log|]) == stages[0]
    requires Extends(mid, log', stages[1..])
    ensures Extends(log, log', stages)
  {
    forall i | |log| <= i < |log'| ensures StageOf(log'[i]) == stages[i - |log|] {
      if i == |log| { assert log'[i] == mid[i]; } else { assert stages[1..][i - |mid|] == stages[i - |log|]; }
    }
  }

  lemma {:induction false} AllLogged(w: World, items: seq<Item>, st: State)
    ensures var st' := RunAll(w, items, st);
            && Extends(st.log, st'.log, StagesOf(items))
            && (!st'.raised ==> |st'.log| == |st.log| + |items|)
            && (Reflects(st) ==> Reflects(st'))
    decreases |items|
  {
    if items != [] && !st.raised {
      var mid := RunItem(w, items[0], st);
      ItemLogged(w, items[0], st);
      if Reflects(st) { ItemReflects(w, items[0], st); }
      AllLogged(w, items[1..], mid);
      assert StagesOf(items)[1..] == StagesOf(items[1..]);
      if mid.log != st.log {
        ExtendsStep(st.log, mid.log, RunAll(w, items, st).log, StagesOf(items));
      }
    }
  }

  lemma {:induction false} AllAftermath(items: seq<Item>)
    requires forall i :: 0 <= i < |items| ==> AftermathStage(items[i].stage)
    ensures forall s :: s in StagesOf(items) ==> AftermathStage(s)
  {
    if items != [] { AllAftermath(items[1..]); }
  }

  lemma AftermathStages(a: Aftermath)
    ensures forall s :: s in StagesOf(AftermathItems(a)) ==> AftermathStage(s)
  {
    var items := AftermathItems(a);
    forall i | 0 <= i < |items| ensures AftermathStage(items[i].stage) {
    }
    AllAftermath(items);
  }

  ghost predicate OnlyAftermath(log: seq<Logged>) {
    forall i :: 0 <= i < |log| ==> AftermathStage(StageOf(log[i]))
  }

  lemma StoppedTail(w: World, policy: Policy, st: State)
    requires !st.raised && policy.Stop? && !AllPassed(Last(st.log, policy.window))
    ensures var p := Stopped(w, policy, st);
            && Main(p) == st.log && p.main <= |p.st.log| && (p.error.ExceptionText? <==> p.st.raised)
            && OnlyAftermath(Tail(p)) && (Reflects(st) ==> Reflects(p.st))
  {
    var p := Stopped(w, policy, st);
    var after := AftermathItems(policy.aftermath);
    AllLogged(w, after, st);
    AftermathStages(policy.aftermath);
    forall i | 0 <= i < |Tail(p)| ensures AftermathStage(StageOf(Tail(p)[i])) {
      assert Tail(p)[i] == p.st.log[|st.log| + i];
      assert StagesOf(after)[i] in StagesOf(after);
    }
  }

  /** Whatever happens, the log follows the stage list and then only audits and recovers. */
  lemma {:induction false} FollowsStages(w: World, dryRun: bool, items: seq<Item>, st: State)
    requires !st.raised
    ensures var p := Interpret(w, dryRun, items, st);
            && Extends(st.log, Main(p), StagesOf(items))
            && (p.Running? ==> !p.st.raised && |p.st.log| == |st.log| + |items|)
            && (p.Ended? ==> p.main <= |p.st.log| && (p.error.ExceptionText? <==> p.st.raised))
            && OnlyAftermath(Tail(p)) && (Reflects(st) ==> Reflects(p.st))
    decreases |items|
  {
    hide RunItem;
    if items != [] {
      var p := Interpret(w, dryRun, items, st);
      var mid := RunItem(w, items[0], st);
      var policy := items[0].policy;
      ItemLogged(w, items[0], st);
      if Reflects(st) { ItemReflects(w, items[0], st); }
      if mid.raised {
        assert Main(p) == mid.log;
      } else if policy.Stop? && !dryRun && !AllPassed(Last(mid.log, policy.window)) {
        StoppedTail(w, policy, mid);
      } else {
        FollowsStages(w, dryRun, items[1..], mid);
        assert StagesOf(items)[1..] == StagesOf(items[1..]);
        ExtendsStep(st.log, mid.log, Main(p), StagesOf(items));
      }
    }
  }

  // ----- the stage list is the published plan

  lemma {:induction false} NamesConcat(a: seq<Stage>, b: seq<Stage>)
    ensures NamesOf(a + b) == NamesOf(a) + NamesOf(b)
    decreases |a|
  {
    if a == [] {
      assert a + b == b;
    } else {
      assert (a + b)[1..] == a[1..] + b;
      NamesConcat(a[1..], b);
    }
  }

  lemma {:induction false} StagesConcat(a: seq<Item>, b: seq<Item>)
    ensures StagesOf(a + b) == StagesOf(a) + StagesOf(b)
    decreases |a|
  {
    if a == [] {
      assert a + b == b;
    } else {
      assert (a + b)[1..] == a[1..] + b;
      StagesConcat(a[1..], b);
    }
  }

  function Names(items: seq<Item>): seq<PlanStep> {
    NamesOf(StagesOf(items))
  }

  lemma NamesOfConcat(a: seq<Item>, b: seq<Item>)
    ensures Names(a + b) == Names(a) + Names(b)
  {
    StagesConcat(a, b);
    NamesConcat(StagesOf(a), StagesOf(b));
  }

  lemma OneName(condition: bool, item: Item)
    ensures Names(When(condition, [item])) == If(condition, PlanNames(item.stage))
  {
    if condition {
      assert [item][1..] == [] && StagesOf([item]) == [item.stage] && [item.stage][1..] == [];
      assert NamesOf([]) == [] && PlanNames(item.stage) + [] == PlanNames(item.stage);
    }
  }

  lemma {:induction false} RecoverableStages(stages: seq<Stage>)
    ensures StagesOf(RecoverableItems(stages)) == stages
  {
    if stages != [] { RecoverableStages(stages[1..]); }
  }

  lemma {:induction false} ProbeStages(stages: seq<Stage>)
    ensures StagesOf(ProbeItems(stages)) == stages
  {
    if stages != [] { ProbeStages(stages[1..]); }
  }

  lemma {:induction false} ScenarioNames(scenarios: seq<string>)
    ensures NamesOf(ScenarioStages(scenarios)) == ScenarioSteps(scenarios)
  {
    if scenarios != [] { ScenarioNames(scenarios[1..]); }
  }

  lemma {:induction false} FewNames(stages: seq<Stage>, names: seq<PlanStep>)
    requires |stages| == |names| && forall i :: 0 <= i < |stages| ==> PlanNames(stages[i]) == [names[i]]
    ensures NamesOf(stages) == names
  {
    if stages != [] {
      FewNames(stages[1..], names[1..]);
      assert names == [names[0]] + names[1..];
    }
  }

  lemma InputNames(o: Options)
    ensures Names(InputItems(o)) == [VerifyInputArtifacts]
      + (If(!o.skipEsp32Flash, [FlashEsp32Step]) + If(o.refresh || !o.skipSdSuite, [Rp2040AutonomousAccessPrecheck]))
  {
    var v, f := Item(VerifyInputs, false, Stop(1, Quiet)), Item(FlashEsp32, false, Stop(1, Audit(false)));
    var a := Item(AccessPrecheck, false, Stop(1, Audit(false)));
    OneName(true, v);
    OneName(!o.skipEsp32Flash, f);
    OneName(o.refresh || !o.skipSdSuite, a);
    NamesOfConcat(When(!o.skipEsp32Flash, [f]), When(o.refresh || !o.skipSdSuite, [a]));
    NamesOfConcat([v], When(!o.skipEsp32Flash, [f]) + When(o.refresh || !o.skipSdSuite, [a]));
  }

  lemma SmokeImageNames(o: Options)
    ensures Names(SmokeImageItems(o)) ==
      If(o.refresh, [FlashOfficialRp2040SdSmoke, CaptureOfficialRp2040SdSmoke])
      + If(o.refresh && !o.skipUnavailableCapture, [SdBootPrepare("rp2040-unavailable")])
  {
    var s, b := Item(OfficialSmoke, true, Continue), Item(BootPrepare("rp2040-unavailable"), false, Continue);
    OneName(o.refresh, s);
    OneName(o.refresh && !o.skipUnavailableCapture, b);
    NamesOfConcat(When(o.refresh, [s]), When(o.refresh && !o.skipUnavailableCapture, [b]));
  }

  lemma BridgeNames(o: Options)
    ensures Names(BridgeItems(o)) ==
      If(o.refresh || !o.skipSdSuite, [if o.skipSdSuite then RestoreRp2040Bridge else RestoreExactRp2040Bridge(PreDiag)])
      + If(o.refresh, [ReflashExactEsp32(if o.skipSdSuite then PostOfficialSmoke else PreDiag)])
  {
    var b := Item(RestoreBridge(BridgePhase(o)), true, Stop(1, Audit(false)));
    var r := Item(ReflashEsp32(BridgePhase(o)), true, Stop(1, Audit(true)));
    OneName(o.refresh || !o.skipSdSuite, b);
    OneName(o.refresh, r);
    NamesOfConcat(When(o.refresh || !o.skipSdSuite, [b]), When(o.refresh, [r]));
  }

  lemma DiagnosticStages()
    ensures StagesOf(PreflightItems()) == [BridgePreflight(PreDiag), CleanPreflightGate(PreDiag)]
    ensures StagesOf(DiagnosticItems()) ==
      [SdRawDiag, RestoreBridge(PostDiag), ReflashEsp32(PostDiag), BridgePreflight(PostDiag), CleanPreflightGate(PostDiag)]
  {
    var items := DiagnosticItems();
    StagesLength(items);
    assert StagesOf(items[5..]) == [];
    assert items[4..][0] == items[4] && items[4..][1..] == items[5..];
    assert items[3..][0] == items[3] && items[3..][1..] == items[4..];
    assert items[2..][0] == items[2] && items[2..][1..] == items[3..];
    assert items[1..][0] == items[1] && items[1..][1..] == items[2..];
    var two := PreflightItems();
    assert two[1..][0] == two[1] && two[1..][1..] == [];
  }

  lemma SdNames(o: Options)
    ensures Names(SdItems(o)) == If(!o.skipSdSuite, SdPlanSteps(o))
  {
    if !o.skipSdSuite {
      var stages := CanaryStages(o);
      var later := RecoverableItems(stages);
      DiagnosticStages();
      FewNames(StagesOf(PreflightItems()), [Rp2040BridgePreflight(PreDiag), CleanPreflightGateStep(PreDiag)]);
      FewNames(StagesOf(DiagnosticItems()),
               [SdStep(SdRawDiag), RestoreExactRp2040Bridge(PostDiag), ReflashExactEsp32(PostDiag),
                Rp2040BridgePreflight(PostDiag), CleanPreflightGateStep(PostDiag)]);
      NamesOfConcat(DiagnosticItems(), later);
      NamesOfConcat(PreflightItems(), DiagnosticItems() + later);
      RecoverableStages(stages);
      CanaryNames(o);
    }
  }

  lemma CanaryNames(o: Options)
    ensures NamesOf(CanaryStages(o)) == [SdStep(SdFileCanary)] + (ScenarioSteps(o.sdScenarios)
      + [SdStep(SdMapTileCanary), SdStep(SdExportCanary), SdStep(SdDiagnosticExport), SdStep(SdDataExport),
         SdStep(SdRetainedHistory), SdStep(SdRebootRemount)])
  {
    ScenarioNames(o.sdScenarios);
    NamesConcat(ScenarioStages(o.sdScenarios), LATER_STAGES);
    NamesConcat([SdFileCanary], ScenarioStages(o.sdScenarios) + LATER_STAGES);
    FewNames([SdFileCanary], [SdStep(SdFileCanary)]);
    FewNames(LATER_STAGES, [SdStep(SdMapTileCanary), SdStep(SdExportCanary), SdStep(SdDiagnosticExport),
                            SdStep(SdDataExport), SdStep(SdRetainedHistory), SdStep(SdRebootRemount)]);
  }

  lemma ProbeNames()
    ensures Names(ProbeItems(PROBES)) == UiProbeSteps()
  {
    ProbeStages(PROBES);
    FewNames(PROBES, UiProbeSteps());
  }

  lemma UiNames(o: Options)
    ensures Names(UiItems(o)) == If(o.includeUiProbes, [D1lOnboardingCompleteForUiProbes] + UiProbeSteps())
  {
    var onboarding := Item(Onboarding, false, Stop(1, Audit(false)));
    OneName(true, onboarding);
    NamesOfConcat([onboarding], ProbeItems(PROBES));
    ProbeNames();
  }

  lemma PreparationNames(o: Options)
    ensures Names(PreparationItems(o)) == PreparationSteps(o)
  {
    NamesOfConcat(SmokeImageItems(o), BridgeItems(o));
    NamesOfConcat(InputItems(o), SmokeImageItems(o) + BridgeItems(o));
    InputNames(o);
    SmokeImageNames(o);
    BridgeNames(o);
  }

  lemma SuiteNames(o: Options)
    ensures Names(SuiteItems(o)) == SuiteSteps(o)
  {
    var a := [AuditItem(false)];
    NamesOfConcat(UiItems(o), a);
    NamesOfConcat([SmokeItem(o)], UiItems(o) + a);
    NamesOfConcat(SdItems(o), [SmokeItem(o)] + (UiItems(o) + a));
    SdNames(o);
    UiNames(o);
    OneName(true, SmokeItem(o));
    OneName(true, AuditItem(false));
  }

  /** The stages a run goes through are the published plan, for every choice of options. */
  lemma StagesArePlan(o: Options)
    ensures Names(Items(o)) == PlanSteps(o)
  {
    NamesOfConcat(PreparationItems(o), SuiteItems(o));
    PreparationNames(o);
    SuiteNames(o);
  }
}
