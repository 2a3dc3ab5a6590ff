/** The theorems about whole hardware validation runs. */
module RunTheorems {
  import opened RunLog
  import opened RunPlan
  import opened RunSafety

  function LoggedStages(log: seq<Logged>): (stages: seq<Stage>)
    ensures |stages| == |log| && forall i :: 0 <= i < |log| ==> stages[i] == StageOf(log[i])
  {
    seq(|log|, i requires 0 <= i < |log| => StageOf(log[i]))
  }

  // ----- the log is a prefix of the plan

  lemma StagesPrefix(w: World, dryRun: bool, items: seq<Item>)
    ensures var p := Interpret(w, dryRun, items, START);
            && p.st.log == Main(p) + Tail(p) && Reflects(p.st) && OnlyAftermath(Tail(p))
            && |Main(p)| <= |StagesOf(items)| && LoggedStages(Main(p)) == StagesOf(items)[..|Main(p)|]
            && (p.Running? ==> |Main(p)| == |StagesOf(items)|)
  {
    hide Interpret, OnlyAftermath, StagesOf;
    FollowsStages(w, dryRun, items, START);
    StagesLength(items);
  }

  lemma NamesPrefix(stages: seq<Stage>, k: nat)
    requires k <= |stages|
    ensures NamesOf(stages[..k]) <= NamesOf(stages)
  {
    assert stages == stages[..k] + stages[k..];
    NamesConcat(stages[..k], stages[k..]);
  }

  /** For every choice of options and every pattern of outcomes and exceptions, the stages behind
      the log are a prefix of the published plan, followed only by audits and recoveries; a run
      that falls through to its end has gone through the whole plan. */
  lemma RunFollowsPlan(w: World, o: Options)
    ensures var p := Validate(w, o);
            && p.st.log == Main(p) + Tail(p) && p.st.runs == RunsOf(p.st.log)
            && NamesOf(LoggedStages(Main(p))) <= PlanSteps(o)
            && OnlyAftermath(Tail(p))
            && (p.Running? ==> NamesOf(LoggedStages(Main(p))) == PlanSteps(o))
  {
    var p, stages := Validate(w, o), StagesOf(Items(o));
    StagesPrefix(w, o.dryRun, Items(o));
    StagesArePlan(o);
    NamesPrefix(stages, |Main(p)|);
    assert p.Running? ==> stages[..|Main(p)|] == stages;
  }

  // ----- where a run stops

  ghost predicate CheckHolds(policy: Policy, log: seq<Logged>) {
    policy.Stop? ==> AllPassed(Last(log, policy.window))
  }

  /** Every check holds while `added` grows behind `base`, one stage of `items` at a time. */
  ghost predicate ChecksHold(items: seq<Item>, base: seq<Logged>, added: seq<Logged>)
    decreases |added|
  {
    added == [] ||
    (items != [] && CheckHolds(items[0].policy, base + [added[0]])
     && ChecksHold(items[1..], base + [added[0]], added[1..]))
  }

  /** The run behind `p` stopped at the check after `added`, its aftermath complete. */
  ghost predicate StoppedAt(items: seq<Item>, base: seq<Logged>, added: seq<Logged>, p: Progress) {
    && 0 < |added| <= |items|
    && ChecksHold(items, base, added[..|added| - 1])
    && !CheckHolds(items[|added| - 1].policy, Main(p))
    && items[|added| - 1].policy.Stop?
    && LoggedStages(Tail(p)) == StagesOf(AftermathItems(items[|added| - 1].policy.aftermath))
  }

  lemma StoppedAtStep(items: seq<Item>, base: seq<Logged>, l: Logged, later: seq<Logged>, p: Progress)
    requires items != [] && CheckHolds(items[0].policy, base + [l])
    requires StoppedAt(items[1..], base + [l], later, p)
    ensures StoppedAt(items, base, [l] + later, p)
  {
    GrowsBy(items, base, l, later);
    assert items[1..][|later| - 1] == items[|later|];
  }

  lemma ItemAdded(w: World, item: Item, st: State) returns (added: seq<Logged>)
    ensures RunItem(w, item, st).log == st.log + added
    ensures !RunItem(w, item, st).raised ==> |added| == 1
  {
    ItemLogged(w, item, st);
    added := RunItem(w, item, st).log[|st.log|..];
  }

  lemma StoppedAtOnce(w: World, items: seq<Item>, base: seq<Logged>, added: seq<Logged>, st: State)
    requires items != [] && !st.raised && st.log == base + added && |added| == 1
    requires items[0].policy.Stop? && !AllPassed(Last(st.log, items[0].policy.window))
    requires !Stopped(w, items[0].policy, st).error.ExceptionText?
    ensures StoppedAt(items, base, added, Stopped(w, items[0].policy, st))
  {
    StoppedTail(w, items[0].policy, st);
    CompletedAftermath(w, items[0].policy, st);
  }

  /** A hardware run that returns early does so at its first failed check, having completed the
      aftermath of that check; a run that reaches its end passed them all; a dry run never
      returns early. */
  lemma {:induction false} StopsAtFirstFailedCheck(w: World, dryRun: bool, items: seq<Item>, st: State)
      returns (added: seq<Logged>)
    requires !st.raised
    ensures var p := Interpret(w, dryRun, items, st);
            && Main(p) == st.log + added
            && (p.Running? && !dryRun ==> ChecksHold(items, st.log, added))
            && (p.Ended? && !p.error.ExceptionText? ==> !dryRun && StoppedAt(items, st.log, added, p))
    decreases |items|, 1
  {
    if items == [] {
      added := [];
      assert st.log + [] == st.log;
    } else {
      var mid := RunItem(w, items[0], st);
      var policy := items[0].policy;
      added := ItemAdded(w, items[0], st);
      if mid.raised {
      } else if policy.Stop? && !dryRun && !AllPassed(Last(mid.log, policy.window)) {
        StoppedTail(w, policy, mid);
        if !Stopped(w, policy, mid).error.ExceptionText? { StoppedAtOnce(w, items, st.log, added, mid); }
      } else {
        added := LaterChecks(w, dryRun, items, st, added[0]);
      }
    }
  }

  lemma {:induction false} LaterChecks(w: World, dryRun: bool, items: seq<Item>, st: State, l: Logged)
      returns (added: seq<Logged>)
    requires items != [] && !RunItem(w, items[0], st).raised && RunItem(w, items[0], st).log == st.log + [l]
    requires dryRun || CheckHolds(items[0].policy, st.log + [l])
    ensures var p := Interpret(w, dryRun, items[1..], RunItem(w, items[0], st));
            && Main(p) == st.log + added
            && (p.Running? && !dryRun ==> ChecksHold(items, st.log, added))
            && (p.Ended? && !p.error.ExceptionText? ==> !dryRun && StoppedAt(items, st.log, added, p))
    decreases |items|, 0
  {
    var mid := RunItem(w, items[0], st);
    var later := StopsAtFirstFailedCheck(w, dryRun, items[1..], mid);
    added := [l] + later;
    assert st.log + [l] + later == st.log + added;
    var p := Interpret(w, dryRun, items[1..], mid);
    if p.Running? { GrowsBy(items, st.log, l, later); }
    if p.Ended? && !p.error.ExceptionText? { StoppedAtStep(items, st.log, l, later, p); }
  }

  lemma GrowsBy(items: seq<Item>, base: seq<Logged>, l: Logged, later: seq<Logged>)
    requires items != []
    ensures ChecksHold(items, base, [l] + later) <==>
            CheckHolds(items[0].policy, base + [l]) && ChecksHold(items[1..], base + [l], later)
    ensures later != [] ==> (ChecksHold(items, base, ([l] + later)[..|later|]) <==>
            CheckHolds(items[0].policy, base + [l]) && ChecksHold(items[1..], base + [l], later[..|later| - 1]))
  {
    assert ([l] + later)[1..] == later;
    if later != [] {
      assert ([l] + later)[..|later|] == [l] + later[..|later| - 1];
      assert ([l] + later[..|later| - 1])[1..] == later[..|later| - 1];
    }
  }

  lemma CompletedAftermath(w: World, policy: Policy, st: State)
    requires !st.raised && policy.Stop? && !AllPassed(Last(st.log, policy.window))
    requires !Stopped(w, policy, st).error.ExceptionText?
    ensures LoggedStages(Tail(Stopped(w, policy, st))) == StagesOf(AftermathItems(policy.aftermath))
  {
    var after := AftermathItems(policy.aftermath);
    AllLogged(w, after, st);
    StagesLength(after);
  }

  // ----- the verdict of a run that reaches its end

  predicate CountsAsPassed(l: Logged) {
    StageOf(l).ReleaseGate? || Passed(l)
  }

  function RestorePhases(stages: seq<Stage>): seq<Phase> {
    if stages == [] then []
    else (if stages[0].RestoreBridge? then [stages[0].phase] else []) + RestorePhases(stages[1..])
  }

  predicate Distinct(phases: seq<Phase>, seen: set<Phase>) {
    phases == [] || (phases[0] !in seen && Distinct(phases[1..], seen + {phases[0]}))
  }

  /** On a log of completed stages with fresh phases, the scan is the conjunction of the terminal
      outcomes, audits apart. */
  lemma {:induction false} ScanIsConjunction(log: seq<Logged>, seen: set<Phase>)
    requires forall l :: l in log ==> !l.Interrupted? && (l.Plain? ==> !l.stage.RestoreBridge?)
    requires Distinct(RestorePhases(LoggedStages(log)), seen)
    ensures Scan(RunsOf(log), seen) <==> forall l :: l in log ==> CountsAsPassed(l)
    decreases |log|
  {
    if log != [] {
      var l, rest := log[0], log[1..];
      var runs, entries := RunsOf(log), EntriesOf(log[0]);
      assert l in log;
      assert LoggedStages(log)[1..] == LoggedStages(rest);
      var phases := RestorePhases(LoggedStages(log));
      assert forall x :: x in log <==> x == l || x in rest;
      if l.Restored? {
        assert phases[0] == l.phase && phases[1..] == RestorePhases(LoggedStages(rest));
        ScanIsConjunction(rest, seen + {l.phase});
        assert l.firstOk ==> runs[1..] == RunsOf(rest);
        assert !l.firstOk ==> runs[2..] == RunsOf(rest);
      } else {
        assert phases == RestorePhases(LoggedStages(rest));
        ScanIsConjunction(rest, seen);
        assert runs[1..] == RunsOf(rest);
      }
    }
  }

  lemma {:induction false} RestorePhasesConcat(a: seq<Stage>, b: seq<Stage>)
    ensures RestorePhases(a + b) == RestorePhases(a) + RestorePhases(b)
    decreases |a|
  {
    if a == [] {
      assert a + b == b;
    } else {
      assert (a + b)[1..] == a[1..] + b;
      RestorePhasesConcat(a[1..], b);
    }
  }

  lemma {:induction false} NoRestores(stages: seq<Stage>)
    requires forall s :: s in stages ==> !s.RestoreBridge?
    ensures RestorePhases(stages) == []
  {
    if stages != [] { NoRestores(stages[1..]); }
  }

  function Phases(items: seq<Item>): seq<Phase> {
    RestorePhases(StagesOf(items))
  }

  lemma PhasesConcat(a: seq<Item>, b: seq<Item>)
    ensures Phases(a + b) == Phases(a) + Phases(b)
  {
    StagesConcat(a, b);
    RestorePhasesConcat(StagesOf(a), StagesOf(b));
  }

  lemma OnePhase(condition: bool, item: Item)
    ensures Phases(When(condition, [item])) == if condition && item.stage.RestoreBridge? then [item.stage.phase] else []
  {
    if condition {
      assert [item][1..] == [] && StagesOf([item]) == [item.stage] && [item.stage][1..] == [];
      assert RestorePhases([]) == [];
    }
  }

  lemma TwoPhases(c: bool, a: Item, d: bool, b: Item)
    ensures Phases(When(c, [a]) + When(d, [b])) ==
            (if c && a.stage.RestoreBridge? then [a.stage.phase] else []) + if d && b.stage.RestoreBridge? then [b.stage.phase] else []
  {
    PhasesConcat(When(c, [a]), When(d, [b]));
    OnePhase(c, a);
    OnePhase(d, b);
  }

  lemma PreparationPhases(o: Options)
    ensures Phases(PreparationItems(o)) == if o.refresh || !o.skipSdSuite then [BridgePhase(o)] else []
  {
    var v, f := Item(VerifyInputs, false, Stop(1, Quiet)), Item(FlashEsp32, false, Stop(1, Audit(false)));
    var a := Item(AccessPrecheck, false, Stop(1, Audit(false)));
    OnePhase(true, v);
    TwoPhases(!o.skipEsp32Flash, f, o.refresh || !o.skipSdSuite, a);
    PhasesConcat([v], When(!o.skipEsp32Flash, [f]) + When(o.refresh || !o.skipSdSuite, [a]));
    assert Phases(InputItems(o)) == [];
    TwoPhases(o.refresh, Item(OfficialSmoke, true, Continue),
              o.refresh && !o.skipUnavailableCapture, Item(BootPrepare("rp2040-unavailable"), false, Continue));
    assert Phases(SmokeImageItems(o)) == [];
    TwoPhases(o.refresh || !o.skipSdSuite, Item(RestoreBridge(BridgePhase(o)), true, Stop(1, Audit(false))),
              o.refresh, Item(ReflashEsp32(BridgePhase(o)), true, Stop(1, Audit(true))));
    PhasesConcat(SmokeImageItems(o), BridgeItems(o));
    PhasesConcat(InputItems(o), SmokeImageItems(o) + BridgeItems(o));
  }

  lemma {:induction false} ScenarioRestores(scenarios: seq<string>)
    ensures RestorePhases(ScenarioStages(scenarios)) == []
  {
    if scenarios != [] { ScenarioRestores(scenarios[1..]); }
  }

  lemma CanaryPhases(o: Options)
    ensures Phases(RecoverableItems(CanaryStages(o))) == []
  {
    RecoverableStages(CanaryStages(o));
    ScenarioRestores(o.sdScenarios);
    RestorePhasesConcat(ScenarioStages(o.sdScenarios), LATER_STAGES);
    RestorePhasesConcat([SdFileCanary], ScenarioStages(o.sdScenarios) + LATER_STAGES);
    NoRestores(LATER_STAGES);
    NoRestores([SdFileCanary]);
  }

  lemma UiPhases(o: Options)
    ensures Phases(UiItems(o)) == []
  {
    var onboarding := Item(Onboarding, false, Stop(1, Audit(false)));
    OnePhase(true, onboarding);
    ProbeStages(PROBES);
    NoRestores(PROBES);
    PhasesConcat([onboarding], ProbeItems(PROBES));
  }

  lemma SdPhases(o: Options)
    ensures Phases(SdItems(o)) == if o.skipSdSuite then [] else [PostDiag]
  {
    if !o.skipSdSuite {
      var later := RecoverableItems(CanaryStages(o));
      DiagnosticStages();
      CanaryPhases(o);
      NoRestores(StagesOf(PreflightItems()));
      DiagnosticPhase(StagesOf(DiagnosticItems()));
      PhasesConcat(DiagnosticItems(), later);
      PhasesConcat(PreflightItems(), DiagnosticItems() + later);
    }
  }

  lemma DiagnosticPhase(five: seq<Stage>)
    requires five == [SdRawDiag, RestoreBridge(PostDiag), ReflashEsp32(PostDiag), BridgePreflight(PostDiag), CleanPreflightGate(PostDiag)]
    ensures RestorePhases(five) == [PostDiag]
  {
    NoRestores(five[2..]);
    assert five[1..][1..] == five[2..];
  }

  lemma SuitePhases(o: Options)
    ensures Phases(SuiteItems(o)) == if o.skipSdSuite then [] else [PostDiag]
  {
    var audit := [AuditItem(false)];
    OnePhase(true, AuditItem(false));
    OnePhase(true, SmokeItem(o));
    UiPhases(o);
    SdPhases(o);
    PhasesConcat(UiItems(o), audit);
    PhasesConcat([SmokeItem(o)], UiItems(o) + audit);
    PhasesConcat(SdItems(o), [SmokeItem(o)] + (UiItems(o) + audit));
  }

  /** The bridge is restored under distinct phases, so no log of a complete run repeats one. */
  lemma PhasesDistinct(o: Options)
    ensures Distinct(Phases(Items(o)), {})
  {
    PhasesConcat(PreparationItems(o), SuiteItems(o));
    PreparationPhases(o);
    SuitePhases(o);
  }

  predicate Completed(l: Logged) {
    !l.Interrupted? && (l.Plain? ==> !l.stage.RestoreBridge?)
  }

  lemma {:induction false} RunningCompletes(w: World, dryRun: bool, items: seq<Item>, st: State)
    requires forall l :: l in st.log ==> Completed(l)
    ensures var p := Interpret(w, dryRun, items, st); p.Running? ==> forall l :: l in p.st.log ==> Completed(l)
    decreases |items|
  {
    if items != [] {
      var mid := RunItem(w, items[0], st);
      if !mid.raised {
        assert forall l :: l in mid.log ==> Completed(l);
        RunningCompletes(w, dryRun, items[1..], mid);
      }
    }
  }

  /** `report["ok"]` of a run: it reached its end and its log is accepted. */
  ghost predicate ReportOk(p: Progress) {
    p.Running? && Accepts(p.st.runs)
  }

  /** A run is reported ok exactly when it executed the whole plan and every stage but the audits
      passed, bridge restores counting by their last attempt. */
  lemma OkExactlyWhenEveryStagePassed(w: World, o: Options)
    ensures var p := Validate(w, o);
            ReportOk(p) <==> p.Running? && forall l :: l in p.st.log ==> CountsAsPassed(l)
    ensures ReportOk(Validate(w, o)) ==> NamesOf(LoggedStages(Validate(w, o).st.log)) == PlanSteps(o)
  {
    var p := Validate(w, o);
    RunFollowsPlan(w, o);
    if p.Running? {
      StagesPrefix(w, o.dryRun, Items(o));
      assert LoggedStages(p.st.log) == StagesOf(Items(o));
      PhasesDistinct(o);
      RunningCompletes(w, o.dryRun, Items(o), START);
      ScanIsConjunction(p.st.log, {});
      ScanIsAccepts(p.st.runs);
    }
  }

  // ----- raw diagnostics and their boundary

  ghost predicate NoRaw(items: seq<Item>) {
    forall i :: 0 <= i < |items| ==> items[i].stage != SdRawDiag
  }

  lemma NoRawConcat(a: seq<Item>, b: seq<Item>)
    requires NoRaw(a) && NoRaw(b)
    ensures NoRaw(a + b)
  {
  }

  lemma ItemsAroundDiagnostics(o: Options) returns (before: seq<Item>, after: seq<Item>)
    requires !o.skipSdSuite
    ensures Items(o) == before + (DiagnosticItems() + after) && NoRaw(before) && NoRaw(after)
  {
    var later := RecoverableItems(CanaryStages(o));
    var closing := [SmokeItem(o)] + (UiItems(o) + [AuditItem(false)]);
    before, after := PreparationItems(o) + PreflightItems(), later + closing;
    Regroup(PreparationItems(o), PreflightItems(), DiagnosticItems(), later, closing);
    NoRawBefore(o);
    NoRawConcat(PreparationItems(o), PreflightItems());
    CanariesAreNotRaw(o);
    ProbesAreNotRaw(o);
    NoRawConcat(UiItems(o), [AuditItem(false)]);
    NoRawConcat([SmokeItem(o)], UiItems(o) + [AuditItem(false)]);
    NoRawConcat(later, closing);
  }

  lemma NoRawBefore(o: Options)
    ensures NoRaw(PreparationItems(o)) && NoRaw(PreflightItems())
  {
    NoRawConcat(SmokeImageItems(o), BridgeItems(o));
    NoRawConcat(InputItems(o), SmokeImageItems(o) + BridgeItems(o));
  }

  lemma Regroup(a: seq<Item>, b: seq<Item>, c: seq<Item>, d: seq<Item>, e: seq<Item>)
    ensures a + (b + (c + d) + e) == (a + b) + (c + (d + e))
  {
  }

  lemma {:induction false} RecoverableMember(stages: seq<Stage>, item: Item)
    requires item in RecoverableItems(stages)
    ensures item.stage in stages
  {
    if item != Recoverable(stages[0]) { RecoverableMember(stages[1..], item); }
  }

  lemma {:induction false} ScenarioMember(scenarios: seq<string>, s: Stage)
    requires s in ScenarioStages(scenarios)
    ensures s.BootPrepare?
  {
    if s != BootPrepare(scenarios[0]) { ScenarioMember(scenarios[1..], s); }
  }

  lemma CanariesAreNotRaw(o: Options)
    ensures NoRaw(RecoverableItems(CanaryStages(o)))
  {
    var items := RecoverableItems(CanaryStages(o));
    forall i | 0 <= i < |items| ensures items[i].stage != SdRawDiag {
      var item := items[i];
      RecoverableMember(CanaryStages(o), item);
      if item.stage in ScenarioStages(o.sdScenarios) { ScenarioMember(o.sdScenarios, item.stage); }
    }
  }

  lemma {:induction false} ProbeMember(stages: seq<Stage>, item: Item)
    requires item in ProbeItems(stages)
    ensures item.stage in stages
  {
    if item != Item(stages[0], false, Continue) { ProbeMember(stages[1..], item); }
  }

  lemma ProbesAreNotRaw(o: Options)
    ensures NoRaw(UiItems(o))
  {
    var items := UiItems(o);
    forall i | 0 <= i < |items| ensures items[i].stage != SdRawDiag {
      var item := items[i];
      if item in ProbeItems(PROBES) { ProbeMember(PROBES, item); }
    }
  }

  /** `stages[i]` is the raw diagnostic, so the four stages of its boundary come next. */
  lemma RawPosition(before: seq<Item>, after: seq<Item>, i: nat)
    requires NoRaw(before) && NoRaw(after)
    requires var items := before + (DiagnosticItems() + after); i < |items| && items[i].stage == SdRawDiag
    ensures i == |before|
    ensures var items := before + (DiagnosticItems() + after);
            i + 4 < |items| && forall j :: 0 <= j < 5 ==> items[i + j] == DiagnosticItems()[j]
  {
    var d := DiagnosticItems();
    var items := before + (d + after);
    assert |d| == 5;
    forall k | 0 <= k < |items| && k != |before| ensures items[k].stage != SdRawDiag {
      assert items[k] == if k < |before| then before[k] else if k < |before| + 5 then d[k - |before|] else after[k - |before| - 5];
    }
    forall j | 0 <= j < 5 ensures items[i + j] == d[j] {
      assert items[|before| + j] == (d + after)[j];
    }
  }

  const RESTORING := [RestoreBridge(PostDiag), ReflashEsp32(PostDiag), BridgePreflight(PostDiag), CleanPreflightGate(PostDiag)]

  lemma {:induction false} StageAt(items: seq<Item>, i: nat)
    requires i < |items|
    ensures i < |StagesOf(items)| && StagesOf(items)[i] == items[i].stage
  {
    StagesLength(items);
    if i > 0 { StageAt(items[1..], i - 1); }
  }

  lemma FromRaw(items: seq<Item>, i: nat)
    requires i + 4 < |items| && forall j :: 0 <= j < 5 ==> items[i + j] == DiagnosticItems()[j]
    ensures forall j :: 0 <= j < 4 ==> items[i + 1 + j].stage == RESTORING[j]
    ensures forall j :: i <= j < i + 4 ==> items[j].policy.Continue?
  {
    var d := DiagnosticItems();
    assert items[i + 0] == d[0] && items[i + 1] == d[1] && items[i + 2] == d[2] && items[i + 3] == d[3] && items[i + 4] == d[4];
  }

  lemma RestoringOrder(w: World, dryRun: bool, items: seq<Item>, i: nat)
    requires i + 4 < |items| && forall j :: 0 <= j < 4 ==> items[i + 1 + j].stage == RESTORING[j]
    ensures var main := Main(Interpret(w, dryRun, items, START));
            forall j :: 0 <= j < 4 && i + 1 + j < |main| ==> StageOf(main[i + 1 + j]) == RESTORING[j]
  {
    var main := Main(Interpret(w, dryRun, items, START));
    StagesPrefix(w, dryRun, items);
    StagesLength(items);
    forall j | 0 <= j < 4 && i + 1 + j < |main| ensures StageOf(main[i + 1 + j]) == RESTORING[j] {
      LoggedStageAt(main, items, i + 1 + j);
    }
  }

  lemma NoStopWithin(w: World, dryRun: bool, items: seq<Item>, i: nat)
    requires i + 4 < |items| && forall j :: i <= j < i + 4 ==> items[j].policy.Continue?
    requires i < |Main(Interpret(w, dryRun, items, START))| < i + 5
    ensures var p := Interpret(w, dryRun, items, START); p.Ended? && p.error.ExceptionText?
  {
    StagesPrefix(w, dryRun, items);
    StagesLength(items);
    var added := StopsAtFirstFailedCheck(w, dryRun, items, START);
    assert added == Main(Interpret(w, dryRun, items, START));
  }

  /** After the raw diagnostic the run does nothing but restore the device: the bridge, the ESP32
      image, the preflight and the clean gate come next, and only an exception that escapes can
      keep the run from going through all four, whatever each of them answers. */
  lemma DiagnosticsAreFollowedByRestoring(w: World, o: Options, i: nat)
    requires !o.skipSdSuite
    requires i < |Main(Validate(w, o))| && StageOf(Main(Validate(w, o))[i]) == SdRawDiag
    ensures var p := Validate(w, o);
            && (forall j :: 0 <= j < 4 && i + 1 + j < |Main(p)| ==> StageOf(Main(p)[i + 1 + j]) == RESTORING[j])
            && (|Main(p)| < i + 5 ==> p.Ended? && p.error.ExceptionText?)
  {
    var items := Items(o);
    StagesPrefix(w, o.dryRun, items);
    LoggedStageAt(Main(Validate(w, o)), items, i);
    var before, after := ItemsAroundDiagnostics(o);
    RawPosition(before, after, i);
    FromRaw(items, i);
    RestoringOrder(w, o.dryRun, items, i);
    if |Main(Validate(w, o))| < i + 5 { NoStopWithin(w, o.dryRun, items, i); }
  }

  lemma LoggedStageAt(main: seq<Logged>, items: seq<Item>, i: nat)
    requires i < |main| <= |StagesOf(items)| && LoggedStages(main) == StagesOf(items)[..|main|]
    ensures i < |items| && StageOf(main[i]) == items[i].stage
  {
    StagesLength(items);
    StageAt(items, i);
    assert LoggedStages(main)[i] == StagesOf(items)[i];
  }
}
