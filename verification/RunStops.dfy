/** What a hardware validation run does about each stage, read off its log: which stages stop the
    run, what follows, which error and recovery verdict are reported, and whose exceptions become
    entries. Nothing here speaks of the stage list a run is made from. */
module RunStops {
  import opened Results
  import opened RunPlan
  import opened RunSafety
  import opened RunTheorems

  // ----- by stage

  predicate Initial(p: Phase) {
    p == PreDiag || p == PostOfficialSmoke
  }

  /** The last entry stops a hardware run. The clean gate behind the raw diagnostic answers for the
      diagnostic and its whole boundary. */
  predicate StopsRun(main: seq<Logged>)
    requires main != []
  {
    var l := main[|main| - 1];
    match StageOf(l)
    case VerifyInputs => !Passed(l)
    case FlashEsp32 => !Passed(l)
    case AccessPrecheck => !Passed(l)
    case RestoreBridge(p) => Initial(p) && !Passed(l)
    case ReflashEsp32(p) => Initial(p) && !Passed(l)
    case CleanPreflightGate(p) => if p == PostDiag then !AllPassed(Last(main, 5)) else !Passed(l)
    case BootPrepare(_) => SdRawDiag in LoggedStages(main) && !Passed(l)
    case SdFileCanary => !Passed(l)
    case SdMapTileCanary => !Passed(l)
    case SdExportCanary => !Passed(l)
    case SdDiagnosticExport => !Passed(l)
    case SdDataExport => !Passed(l)
    case SdRetainedHistory => !Passed(l)
    case SdRebootRemount => !Passed(l)
    case D1lSmoke => !Passed(l)
    case Onboarding => !Passed(l)
    case _ => false
  }

  /** Stages of the SD suite behind the diagnostics; the smoke test counts when the suite is on. */
  predicate LeavesDeviceToRecover(o: Options, s: Stage) {
    s.BootPrepare? || (s == D1lSmoke && !o.skipSdSuite)
    || s in {SdFileCanary, SdMapTileCanary, SdExportCanary, SdDiagnosticExport, SdDataExport, SdRetainedHistory, SdRebootRemount}
  }

  /** What follows in the log when a run stops at `s`. */
  function StagesAfter(o: Options, s: Stage): seq<Stage> {
    if s == VerifyInputs then []
    else if LeavesDeviceToRecover(o, s) then
      [ReleaseGate, RestoreBridge(RecoveryAfter(s)), ReflashEsp32(RecoveryAfter(s)), BridgePreflight(RecoveryAfter(s)),
       CleanPreflightGate(RecoveryAfter(s)), ReleaseGate]
    else [ReleaseGate]
  }

  /** The stage a stop is blamed on. */
  function Blamed(main: seq<Logged>): Stage
    requires main != [] && StopsRun(main)
  {
    var l := main[|main| - 1];
    if StageOf(l) == CleanPreflightGate(PostDiag) then FirstFailed(Last(main, 5)) else StageOf(l)
  }

  /** The recovery verdict: of the boundary behind the failed stage, or of the one behind the raw
      diagnostic. */
  function Recovery(o: Options, main: seq<Logged>, tail: seq<Logged>): Option<bool>
    requires main != []
  {
    var s := StageOf(main[|main| - 1]);
    if s == CleanPreflightGate(PostDiag) then Some(AllPassed(Last(main, 4)))
    else if LeavesDeviceToRecover(o, s) && |tail| == 6 then Some(AllPassed(tail[1..5]))
    else None
  }

  /** A recorded exception of stage `s` becomes a failed entry instead of ending the run. */
  predicate Catches(s: Stage, behindDiagnostics: bool) {
    match s
    case OfficialSmoke => true
    case BootPrepare(_) => behindDiagnostics
    case RestoreBridge(_) => true
    case ReflashEsp32(_) => true
    case BridgePreflight(_) => true
    case CleanPreflightGate(p) => p != PreDiag
    case SdRawDiag => true
    case SdFileCanary => true
    case SdMapTileCanary => true
    case SdExportCanary => true
    case SdDiagnosticExport => true
    case SdDataExport => true
    case SdRetainedHistory => true
    case SdRebootRemount => true
    case D1lSmoke => true
    case _ => false
  }

  /** The same for the audits and the recovery that follow a stop at `s`. */
  predicate CatchesAfter(s: Stage, following: Stage) {
    following.ReleaseGate? ==> !(s == FlashEsp32 || s == AccessPrecheck || s.RestoreBridge? || s == Onboarding)
  }

  // ----- the stage list agrees with these tables

  function PolicyFor(o: Options, s: Stage, behind: bool): Policy {
    match s
    case VerifyInputs => Stop(1, Quiet)
    case FlashEsp32 => Stop(1, Audit(false))
    case AccessPrecheck => Stop(1, Audit(false))
    case Onboarding => Stop(1, Audit(false))
    case RestoreBridge(p) => if Initial(p) then Stop(1, Audit(false)) else Continue
    case ReflashEsp32(p) => if Initial(p) then Stop(1, Audit(true)) else Continue
    case CleanPreflightGate(p) => Stop(if p == PostDiag then 5 else 1, Audit(true))
    case BootPrepare(_) => if behind then Stop(1, Recover(s)) else Continue
    case D1lSmoke => Stop(1, if o.skipSdSuite then Audit(true) else Recover(s))
    case _ => if LeavesDeviceToRecover(o, s) then Stop(1, Recover(s)) else Continue
  }

  ghost predicate HasRaw(items: seq<Item>, n: nat)
    requires n <= |items|
  {
    exists j :: 0 <= j < n && items[j].stage == SdRawDiag
  }

  /** An item of stage `s` behind the raw diagnostic or not. */
  predicate Fits(o: Options, item: Item, behind: bool) {
    item.caught == Catches(item.stage, behind) && item.policy == PolicyFor(o, item.stage, behind)
  }

  ghost predicate AllFit(o: Options, items: seq<Item>, behind: bool) {
    forall i :: 0 <= i < |items| ==> Fits(o, items[i], behind || HasRaw(items, i))
  }

  lemma AllFitConcat(o: Options, a: seq<Item>, b: seq<Item>, behind: bool)
    requires AllFit(o, a, behind) && AllFit(o, b, behind || HasRaw(a, |a|))
    ensures AllFit(o, a + b, behind)
  {
    hide Fits;
    forall i | 0 <= i < |a + b| ensures Fits(o, (a + b)[i], behind || HasRaw(a + b, i)) {
      if i < |a| {
        assert HasRaw(a + b, i) <==> HasRaw(a, i) by {
          assert forall j :: 0 <= j < i ==> (a + b)[j] == a[j];
        }
        assert Fits(o, a[i], behind || HasRaw(a, i));
      } else {
        var k := i - |a|;
        assert HasRaw(a + b, i) <==> HasRaw(a, |a|) || HasRaw(b, k) by {
          assert forall j :: 0 <= j < |a| ==> (a + b)[j] == a[j];
          assert forall j :: 0 <= j < k ==> (a + b)[|a| + j] == b[j];
          assert forall j :: |a| <= j < i ==> (a + b)[j] == b[j - |a|];
        }
        assert Fits(o, b[k], (behind || HasRaw(a, |a|)) || HasRaw(b, k));
      }
    }
  }

  lemma NoRawFits(o: Options, items: seq<Item>, behind: bool)
    requires NoRaw(items) && forall i :: 0 <= i < |items| ==> Fits(o, items[i], behind)
    ensures AllFit(o, items, behind) && !HasRaw(items, |items|)
  {
    hide Fits;
  }

  lemma InputFits(o: Options, item: Item)
    requires item in InputItems(o)
    ensures Fits(o, item, false)
  {
  }

  lemma SmokeImageFits(o: Options, item: Item)
    requires item in SmokeImageItems(o)
    ensures Fits(o, item, false)
  {
  }

  lemma BridgeFits(o: Options, item: Item)
    requires item in BridgeItems(o)
    ensures Fits(o, item, false)
  {
  }

  lemma PreparationFits(o: Options)
    ensures AllFit(o, PreparationItems(o), false) && !HasRaw(PreparationItems(o), |PreparationItems(o)|)
  {
    NoRawBefore(o);
    var items := PreparationItems(o);
    hide Fits, InputItems, SmokeImageItems, BridgeItems;
    forall i | 0 <= i < |items| ensures Fits(o, items[i], false) {
      var item := items[i];
      assert item in InputItems(o) || item in SmokeImageItems(o) || item in BridgeItems(o);
      if item in InputItems(o) {
        InputFits(o, item);
      } else if item in SmokeImageItems(o) {
        SmokeImageFits(o, item);
      } else {
        BridgeFits(o, item);
      }
    }
    NoRawFits(o, items, false);
  }

  lemma DiagnosticsFit(o: Options)
    ensures AllFit(o, PreflightItems(), false) && !HasRaw(PreflightItems(), 2) && |PreflightItems()| == 2
    ensures AllFit(o, DiagnosticItems(), false) && HasRaw(DiagnosticItems(), 5) && |DiagnosticItems()| == 5
  {
    NoRawBefore(o);
    NoRawFits(o, PreflightItems(), false);
    var d := DiagnosticItems();
    assert d[0].stage == SdRawDiag;
    forall i | 1 <= i < 5 ensures HasRaw(d, i) {
    }
  }

  lemma {:induction false} RecoverableIs(stages: seq<Stage>, item: Item)
    requires item in RecoverableItems(stages)
    ensures item == Recoverable(item.stage)
  {
    if item != Recoverable(stages[0]) { RecoverableIs(stages[1..], item); }
  }

  lemma CanaryStage(o: Options, s: Stage)
    requires s in CanaryStages(o)
    ensures LeavesDeviceToRecover(o, s) && s != D1lSmoke
  {
    if s in ScenarioStages(o.sdScenarios) {
      ScenarioMember(o.sdScenarios, s);
    } else {
      assert s == SdFileCanary || s in LATER_STAGES;
    }
  }

  lemma CanaryFits(o: Options, s: Stage)
    requires LeavesDeviceToRecover(o, s) && s != D1lSmoke
    ensures Fits(o, Recoverable(s), true)
  {
  }

  lemma CanariesFit(o: Options)
    ensures AllFit(o, RecoverableItems(CanaryStages(o)), true)
  {
    var items := RecoverableItems(CanaryStages(o));
    CanariesAreNotRaw(o);
    hide CanaryStages, RecoverableItems, Fits, LeavesDeviceToRecover;
    forall i | 0 <= i < |items| ensures Fits(o, items[i], true) {
      var item := items[i];
      RecoverableMember(CanaryStages(o), item);
      RecoverableIs(CanaryStages(o), item);
      CanaryStage(o, item.stage);
      CanaryFits(o, item.stage);
    }
    NoRawFits(o, items, true);
  }

  lemma {:induction false} ProbeIs(stages: seq<Stage>, item: Item)
    requires item in ProbeItems(stages)
    ensures item == Item(item.stage, false, Continue)
  {
    if item != Item(stages[0], false, Continue) { ProbeIs(stages[1..], item); }
  }

  lemma UiFits(o: Options, behind: bool)
    ensures AllFit(o, UiItems(o), behind) && !HasRaw(UiItems(o), |UiItems(o)|)
  {
    var items := UiItems(o);
    ProbesAreNotRaw(o);
    forall i | 0 <= i < |items| ensures Fits(o, items[i], behind) {
      if items[i] in ProbeItems(PROBES) {
        ProbeMember(PROBES, items[i]);
        ProbeIs(PROBES, items[i]);
      }
    }
    NoRawFits(o, items, behind);
  }

  lemma ClosingFits(o: Options, behind: bool)
    ensures AllFit(o, [SmokeItem(o)] + (UiItems(o) + [AuditItem(false)]), behind)
  {
    UiFits(o, behind);
    NoRawFits(o, [SmokeItem(o)], behind);
    NoRawFits(o, [AuditItem(false)], behind);
    AllFitConcat(o, UiItems(o), [AuditItem(false)], behind);
    AllFitConcat(o, [SmokeItem(o)], UiItems(o) + [AuditItem(false)], behind);
  }

  lemma SuiteFits(o: Options, a: seq<Item>, b: seq<Item>, c: seq<Item>, d: seq<Item>, e: seq<Item>)
    requires AllFit(o, a, false) && !HasRaw(a, |a|) && AllFit(o, b, false) && !HasRaw(b, |b|)
    requires AllFit(o, c, false) && HasRaw(c, |c|) && AllFit(o, d, true) && AllFit(o, e, true)
    ensures AllFit(o, a + ((b + (c + d)) + e), false)
  {
    hide AllFit, HasRaw;
    AllFitConcat(o, d, e, true);
    AllFitConcat(o, c, d + e, false);
    AllFitConcat(o, b, c + (d + e), false);
    AllFitConcat(o, a, b + (c + (d + e)), false);
    assert a + ((b + (c + d)) + e) == a + (b + (c + (d + e)));
  }

  /** Every stage of a run is caught, checked and followed up as the tables say. */
  lemma ItemsFit(o: Options)
    ensures AllFit(o, Items(o), false)
  {
    PreparationFits(o);
    ClosingFits(o, !o.skipSdSuite);
    DiagnosticsFit(o);
    CanariesFit(o);
    assert o.skipSdSuite ==> SdItems(o) == [];
    hide AllFit, HasRaw, PreparationItems, PreflightItems, DiagnosticItems, RecoverableItems, CanaryStages, SmokeItem, UiItems;
    var closing := [SmokeItem(o)] + (UiItems(o) + [AuditItem(false)]);
    if o.skipSdSuite {
      assert [] + closing == closing;
      AllFitConcat(o, PreparationItems(o), closing, false);
    } else {
      SuiteFits(o, PreparationItems(o), PreflightItems(), DiagnosticItems(), RecoverableItems(CanaryStages(o)), closing);
    }
  }

  // ----- the log against the answers of the calls

  function CallsIn(l: Logged): nat {
    if l.Interrupted? || (l.Restored? && !l.firstOk) then 2 else 1
  }

  function CallsOf(log: seq<Logged>): nat {
    if log == [] then 0 else CallsOf(log[..|log| - 1]) + CallsIn(log[|log| - 1])
  }

  /** What the entry says is what the calls from `c` on answered; a failed first bridge attempt is
      followed by one retry. */
  predicate Answers(w: World, c: nat, l: Logged, caught: bool) {
    match l
    case Plain(_, ok) => w(c) == Done(ok) || (!ok && caught && w(c) == Raised(true))
    case Restored(_, first, second) =>
      if first then w(c) == Done(true) && !second
      else w(c) in {Done(false), Raised(true)} && (w(c + 1) == Done(second) || (!second && w(c + 1) == Raised(true)))
    case Interrupted(_) => w(c) in {Done(false), Raised(true)} && w(c + 1) == Raised(false)
  }

  /** A call that ends the run without leaving an entry. */
  predicate Escapes(w: World, c: nat, caught: bool) {
    w(c).Raised? && !(caught && w(c).recorded)
  }

  predicate EndsInterrupted(log: seq<Logged>) {
    log != [] && log[|log| - 1].Interrupted?
  }

  /** The log holds one entry for each stage that answered; `caught[i]` is whether the stage due at
      `i` catches exceptions. */
  ghost predicate Faithful(w: World, st: State, caught: seq<bool>) {
    && |st.log| <= |caught|
    && (forall i :: 0 <= i < |st.log| ==> Answers(w, CallsOf(st.log[..i]), st.log[i], caught[i]))
    && (st.raised && !EndsInterrupted(st.log) ==>
          |st.log| < |caught| && Escapes(w, CallsOf(st.log), caught[|st.log|]) && st.calls == CallsOf(st.log) + 1)
    && (!st.raised || EndsInterrupted(st.log) ==> st.calls == CallsOf(st.log))
    && (EndsInterrupted(st.log) ==> st.raised)
  }

  function Caughts(items: seq<Item>): (r: seq<bool>)
    ensures |r| == |items| && forall i :: 0 <= i < |items| ==> r[i] == items[i].caught
  {
    seq(|items|, i requires 0 <= i < |items| => items[i].caught)
  }

  ghost predicate RestoresCaught(items: seq<Item>) {
    forall i :: 0 <= i < |items| && items[i].stage.RestoreBridge? ==> items[i].caught
  }

  lemma ItemAnswers(w: World, item: Item, st: State)
    requires !st.raised && (item.stage.RestoreBridge? ==> item.caught)
    ensures var st' := RunItem(w, item, st);
      if |st'.log| == |st.log| then
        st'.log == st.log && st'.raised && st'.calls == st.calls + 1 && Escapes(w, st.calls, item.caught)
      else
        && |st'.log| == |st.log| + 1 && st'.log[..|st.log|] == st.log && StageOf(st'.log[|st.log|]) == item.stage
        && Answers(w, st.calls, st'.log[|st.log|], item.caught)
        && st'.calls == st.calls + CallsIn(st'.log[|st.log|])
        && (st'.raised <==> st'.log[|st.log|].Interrupted?)
  {
  }

  lemma FaithfulStep(w: World, item: Item, st: State, caught: seq<bool>)
    requires !st.raised && (item.stage.RestoreBridge? ==> item.caught)
    requires Faithful(w, st, caught) && |st.log| < |caught| && caught[|st.log|] == item.caught
    ensures Faithful(w, RunItem(w, item, st), caught)
  {
    var st' := RunItem(w, item, st);
    ItemAnswers(w, item, st);
    hide RunItem, Answers, Escapes;
    if |st'.log| == |st.log| + 1 {
      assert CallsOf(st'.log) == CallsOf(st.log) + CallsIn(st'.log[|st.log|]);
      forall i | 0 <= i < |st'.log| ensures Answers(w, CallsOf(st'.log[..i]), st'.log[i], caught[i]) {
        assert st'.log[..i] == st.log[..i];
        if i == |st.log| { assert st.log[..i] == st.log; }
      }
    }
  }

  lemma {:induction false} FaithfulAll(w: World, items: seq<Item>, st: State, caught: seq<bool>)
    requires Faithful(w, st, caught) && RestoresCaught(items)
    requires !st.raised ==> |st.log| + |items| <= |caught| && caught[|st.log|..|st.log| + |items|] == Caughts(items)
    ensures Faithful(w, RunAll(w, items, st), caught)
    decreases |items|
  {
    hide RunItem, Faithful;
    if items != [] && !st.raised {
      var mid := RunItem(w, items[0], st);
      assert caught[|st.log|..|st.log| + |items|][0] == Caughts(items)[0];
      ItemLogged(w, items[0], st);
      FaithfulLength(w, st, caught);
      FaithfulStep(w, items[0], st, caught);
      if !mid.raised {
        assert caught[|mid.log|..|mid.log| + |items| - 1] == caught[|st.log|..|st.log| + |items|][1..];
        assert Caughts(items)[1..] == Caughts(items[1..]);
      }
      FaithfulAll(w, items[1..], mid, caught);
    }
  }

  lemma FaithfulLength(w: World, st: State, caught: seq<bool>)
    requires Faithful(w, st, caught)
    ensures |st.log| <= |caught|
  {
  }

  // ----- where a run ends

  /** The checks that were passed while the log grew from `n` entries. */
  ghost predicate ChecksPassed(dryRun: bool, all: seq<Item>, p: Progress, at: State, n: nat)
    requires |at.log| <= |all|
  {
    forall k :: n < k <= |at.log| && (k < |at.log| || p.Running? || (at.raised && !EndsInterrupted(at.log))) ==>
      dryRun || CheckHolds(all[k - 1].policy, at.log[..k])
  }

  /** `at` is the state in which the run behind `p` left the stage list. */
  ghost predicate LeftAt(w: World, dryRun: bool, all: seq<Item>, p: Progress, at: State, n: nat) {
    && at.log == Main(p) && |at.log| <= |all| && Faithful(w, at, Caughts(all))
    && (forall i :: 0 <= i < |at.log| ==> StageOf(at.log[i]) == all[i].stage)
    && ChecksPassed(dryRun, all, p, at, n)
    && (p.Running? ==> at == p.st && !at.raised && |at.log| == |all|)
    && (p.Ended? && at.raised ==> p == Ended(at, |at.log|, ExceptionText, None))
    && (p.Ended? && !at.raised ==>
          && !dryRun && |at.log| > n && all[|at.log| - 1].policy.Stop?
          && !CheckHolds(all[|at.log| - 1].policy, at.log) && p == Stopped(w, all[|at.log| - 1].policy, at))
  }

  /** One more stage of the list ran. */
  ghost predicate Advanced(w: World, all: seq<Item>, st: State, mid: State) {
    && !st.raised && |st.log| < |all| && mid == RunItem(w, all[|st.log|], st) && st.log <= mid.log
    && Faithful(w, mid, Caughts(all)) && |mid.log| <= |st.log| + 1
    && (forall i :: 0 <= i < |mid.log| ==> StageOf(mid.log[i]) == all[i].stage)
    && (|mid.log| == |st.log| ==> mid.raised) && (|mid.log| == |st.log| + 1 ==> mid.raised == EndsInterrupted(mid.log))
  }

  lemma Advances(w: World, all: seq<Item>, st: State)
    requires !st.raised && |st.log| < |all| && Faithful(w, st, Caughts(all)) && RestoresCaught(all)
    requires forall i :: 0 <= i < |st.log| ==> StageOf(st.log[i]) == all[i].stage
    ensures Advanced(w, all, st, RunItem(w, all[|st.log|], st))
  {
    var n, mid := |st.log|, RunItem(w, all[|st.log|], st);
    ItemAnswers(w, all[n], st);
    FaithfulStep(w, all[n], st, Caughts(all));
    hide RunItem, Faithful, Answers, Escapes;
    assert mid.log[..n] == st.log;
  }

  lemma EscapesHere(w: World, dryRun: bool, all: seq<Item>, st: State, mid: State)
    requires Advanced(w, all, st, mid) && mid.raised
    ensures LeftAt(w, dryRun, all, Ended(mid, |mid.log|, ExceptionText, None), mid, |st.log|)
  {
    hide RunItem, Faithful, CheckHolds, StageOf;
    assert mid.log[..|mid.log|] == mid.log;
  }

  lemma StopsHere(w: World, all: seq<Item>, st: State, mid: State)
    requires Advanced(w, all, st, mid) && !mid.raised
    requires all[|st.log|].policy.Stop? && !AllPassed(Last(mid.log, all[|st.log|].policy.window))
    ensures LeftAt(w, false, all, Stopped(w, all[|st.log|].policy, mid), mid, |st.log|)
  {
    StoppedTail(w, all[|st.log|].policy, mid);
    StoppedIsEnded(w, all[|st.log|].policy, mid);
    hide RunItem, Faithful, StageOf, Stopped, AllPassed, Last;
  }

  lemma StoppedIsEnded(w: World, policy: Policy, st: State)
    requires policy.Stop? && !AllPassed(Last(st.log, policy.window))
    ensures Stopped(w, policy, st).Ended?
  {
  }

  lemma {:induction false} RunLeaves(w: World, dryRun: bool, all: seq<Item>, st: State) returns (at: State)
    requires !st.raised && |st.log| <= |all| && Faithful(w, st, Caughts(all)) && RestoresCaught(all)
    requires forall i :: 0 <= i < |st.log| ==> StageOf(st.log[i]) == all[i].stage
    ensures LeftAt(w, dryRun, all, Interpret(w, dryRun, all[|st.log|..], st), at, |st.log|) && st.log <= at.log
    decreases |all| - |st.log|
  {
    hide RunItem, Faithful, Stopped, AllPassed, Last, StageOf, RestoresCaught;
    var n := |st.log|;
    if n == |all| {
      at := st;
    } else {
      var mid := RunItem(w, all[n], st);
      var policy := all[n].policy;
      assert all[n..][0] == all[n] && all[n..][1..] == all[n + 1..];
      Advances(w, all, st);
      if mid.raised {
        at := mid;
        EscapesHere(w, dryRun, all, st, mid);
      } else if policy.Stop? && !dryRun && !AllPassed(Last(mid.log, policy.window)) {
        at := mid;
        StopsHere(w, all, st, mid);
      } else {
        at := RunLeaves(w, dryRun, all, mid);
        LaterLeaves(w, dryRun, all, Interpret(w, dryRun, all[n + 1..], mid), at, mid);
        hide LeftAt;
      }
    }
  }

  lemma OneCheckMore(dryRun: bool, all: seq<Item>, p: Progress, at: State, mid: seq<Logged>)
    requires 0 < |mid| <= |at.log| <= |all| && mid <= at.log && ChecksPassed(dryRun, all, p, at, |mid|)
    requires dryRun || CheckHolds(all[|mid| - 1].policy, mid)
    ensures ChecksPassed(dryRun, all, p, at, |mid| - 1)
  {
    assert at.log[..|mid|] == mid;
    hide CheckHolds, EndsInterrupted;
  }

  lemma LaterLeaves(w: World, dryRun: bool, all: seq<Item>, p: Progress, at: State, mid: State)
    requires 0 < |mid.log| <= |all| && mid.log <= at.log && LeftAt(w, dryRun, all, p, at, |mid.log|)
    requires dryRun || CheckHolds(all[|mid.log| - 1].policy, mid.log)
    ensures LeftAt(w, dryRun, all, p, at, |mid.log| - 1)
  {
    hide Stopped, CheckHolds, Faithful, ChecksPassed, StageOf, Caughts, Main;
    OneCheckMore(dryRun, all, p, at, mid.log);
  }

  // ----- the tables decide

  lemma BehindRaw(all: seq<Item>, log: seq<Logged>, k: nat)
    requires 0 < k <= |log| <= |all| && forall i :: 0 <= i < |log| ==> StageOf(log[i]) == all[i].stage
    requires all[k - 1].stage != SdRawDiag
    ensures HasRaw(all, k - 1) <==> SdRawDiag in LoggedStages(log[..k])
  {
    var stages := LoggedStages(log[..k]);
    if HasRaw(all, k - 1) {
      var j :| 0 <= j < k - 1 && all[j].stage == SdRawDiag;
      assert stages[j] == SdRawDiag;
    }
    if SdRawDiag in stages {
      var j :| 0 <= j < |stages| && stages[j] == SdRawDiag;
      assert all[j].stage == SdRawDiag;
    }
  }

  lemma LastOne(log: seq<Logged>)
    requires log != []
    ensures AllPassed(Last(log, 1)) <==> Passed(log[|log| - 1])
    ensures !Passed(log[|log| - 1]) ==> FirstFailed(Last(log, 1)) == StageOf(log[|log| - 1])
  {
    assert Last(log, 1) == [log[|log| - 1]];
    OnePassed(log[|log| - 1]);
  }

  lemma CheckIsTable(o: Options, all: seq<Item>, log: seq<Logged>, k: nat)
    requires AllFit(o, all, false)
    requires 0 < k <= |log| <= |all| && forall i :: 0 <= i < |log| ==> StageOf(log[i]) == all[i].stage
    ensures CheckHolds(all[k - 1].policy, log[..k]) <==> !StopsRun(log[..k])
    ensures all[k - 1].policy == PolicyFor(o, all[k - 1].stage, HasRaw(all, k - 1))
    ensures all[k - 1].caught == Catches(all[k - 1].stage, HasRaw(all, k - 1))
    ensures all[k - 1].stage != SdRawDiag ==> (HasRaw(all, k - 1) <==> SdRawDiag in LoggedStages(log[..k]))
  {
    assert Fits(o, all[k - 1], HasRaw(all, k - 1));
    LastOne(log[..k]);
    if all[k - 1].stage != SdRawDiag { BehindRaw(all, log, k); }
    assert log[..k][k - 1] == log[k - 1];
    hide HasRaw, AllFit, Catches, Last, AllPassed, Passed, StageOf;
  }

  lemma RecoveringStages(s: Stage)
    ensures var items, phase := AftermathItems(Recover(s)), RecoveryAfter(s);
      && StagesOf(items) == [ReleaseGate, RestoreBridge(phase), ReflashEsp32(phase), BridgePreflight(phase),
                             CleanPreflightGate(phase), ReleaseGate]
      && forall i :: 0 <= i < |items| ==> items[i].caught
  {
    var items, phase := AftermathItems(Recover(s)), RecoveryAfter(s);
    assert items == [
      AuditItem(true), Item(RestoreBridge(phase), true, Continue), Item(ReflashEsp32(phase), true, Continue),
      Item(BridgePreflight(phase), true, Continue), Item(CleanPreflightGate(phase), true, Continue), AuditItem(true)];
    hide AftermathItems, StagesOf;
    StagesLength(items);
    forall i | 0 <= i < 6 ensures StagesOf(items)[i] == items[i].stage {
      StageAt(items, i);
    }
  }

  lemma AuditStages(caught: bool)
    ensures StagesOf(AftermathItems(Audit(caught))) == [ReleaseGate] && AftermathItems(Audit(caught))[0].caught == caught
    ensures |AftermathItems(Audit(caught))| == 1
  {
    var items := AftermathItems(Audit(caught));
    assert items == [AuditItem(caught)] && items[1..] == [];
    assert StagesOf(items[1..]) == [];
  }

  /** The table of policies against that of aftermaths. */
  lemma PolicyIsTable(o: Options, s: Stage, behind: bool)
    requires PolicyFor(o, s, behind).Stop?
    ensures PolicyFor(o, s, behind).window == if s == CleanPreflightGate(PostDiag) then 5 else 1
    ensures PolicyFor(o, s, behind).aftermath == if s == VerifyInputs then Quiet
      else if LeavesDeviceToRecover(o, s) then Recover(s) else Audit(CatchesAfter(s, ReleaseGate))
  {
  }

  lemma TableStages(o: Options, s: Stage, items: seq<Item>)
    requires items == AftermathItems(
      if s == VerifyInputs then Quiet else if LeavesDeviceToRecover(o, s) then Recover(s) else Audit(CatchesAfter(s, ReleaseGate)))
    ensures |items| == |StagesAfter(o, s)| && StagesOf(items) == StagesAfter(o, s)
    ensures forall i :: 0 <= i < |items| ==> items[i].caught == CatchesAfter(s, StagesAfter(o, s)[i])
  {
    StagesLength(items);
    if s == VerifyInputs {
      assert items == [];
    } else if LeavesDeviceToRecover(o, s) {
      RecoveringStages(s);
      hide AftermathItems, StagesOf;
    } else {
      AuditStages(CatchesAfter(s, ReleaseGate));
      hide AftermathItems, StagesOf;
    }
  }

  lemma StagesRestore(items: seq<Item>)
    requires |StagesOf(items)| == |items|
    requires forall i :: 0 <= i < |items| && StagesOf(items)[i].RestoreBridge? ==> items[i].caught
    ensures RestoresCaught(items)
  {
    hide StagesOf;
    forall i | 0 <= i < |items| && items[i].stage.RestoreBridge? ensures items[i].caught {
      StageAt(items, i);
    }
  }

  lemma AftermathIsTable(o: Options, s: Stage, behind: bool)
    requires PolicyFor(o, s, behind).Stop?
    ensures var items := AftermathItems(PolicyFor(o, s, behind).aftermath);
      && StagesOf(items) == StagesAfter(o, s) && RestoresCaught(items)
      && Caughts(items) == seq(|StagesAfter(o, s)|, i requires 0 <= i < |StagesAfter(o, s)| => CatchesAfter(s, StagesAfter(o, s)[i]))
    ensures PolicyFor(o, s, behind).window == if s == CleanPreflightGate(PostDiag) then 5 else 1
    ensures LeavesDeviceToRecover(o, s) <==> PolicyFor(o, s, behind).aftermath.Recover?
  {
    var items := AftermathItems(PolicyFor(o, s, behind).aftermath);
    PolicyIsTable(o, s, behind);
    assert LeavesDeviceToRecover(o, s) ==> s != VerifyInputs;
    hide PolicyFor, AftermathItems, LeavesDeviceToRecover, StagesOf, StagesAfter, RestoresCaught;
    TableStages(o, s, items);
    assert forall following: Stage :: following.RestoreBridge? ==> CatchesAfter(s, following);
    hide CatchesAfter;
    StagesRestore(items);
  }

  lemma LastOfLast<T>(q: seq<T>, m: nat, n: nat)
    requires m <= n
    ensures Last(Last(q, n), m) == Last(q, m)
  {
  }

  /** How a run that stopped at a check ended. */
  ghost predicate EndsAsTabled(o: Options, main: seq<Logged>, tail: seq<Logged>, p: Progress)
    requires main != [] && StopsRun(main) && p.Ended?
  {
    var stages := StagesAfter(o, StageOf(main[|main| - 1]));
    if p.st.raised then
      && p.error == ExceptionText && p.recovery == None && LoggedStages(tail) <= stages
      && (LoggedStages(tail) == stages ==> EndsInterrupted(tail))
    else
      && LoggedStages(tail) == stages && p.error == StageFailed(Blamed(main)) && p.recovery == Recovery(o, main, tail)
  }

  /** The report of a run that stopped, apart from its log. */
  lemma StoppedReport(w: World, policy: Policy, at: State)
    requires !at.raised && policy.Stop? && !AllPassed(Last(at.log, policy.window))
    ensures var p := Stopped(w, policy, at);
      && p.Ended? && Main(p) == at.log && p.st.log == at.log + Tail(p)
      && (if p.st.raised then p.error == ExceptionText && p.recovery == None
          else p.error == StageFailed(FirstFailed(Last(at.log, policy.window)))
               && p.recovery == RecoveryVerdict(policy, Last(at.log, policy.window), p.st.log))
  {
    StoppedTail(w, policy, at);
    AllLogged(w, AftermathItems(policy.aftermath), at);
    hide RunAll, AftermathItems, AllPassed, Last, FirstFailed, RecoveryVerdict;
  }

  /** The recovery verdict is that of the table. */
  lemma RecoveryIsTable(o: Options, s: Stage, behind: bool, main: seq<Logged>, tail: seq<Logged>)
    requires main != [] && StageOf(main[|main| - 1]) == s && PolicyFor(o, s, behind).Stop?
    requires LoggedStages(tail) == StagesAfter(o, s)
    requires StopsRun(main) && !AllPassed(Last(main, PolicyFor(o, s, behind).window))
    ensures var policy := PolicyFor(o, s, behind);
      && FirstFailed(Last(main, policy.window)) == Blamed(main)
      && RecoveryVerdict(policy, Last(main, policy.window), main + tail) == Recovery(o, main, tail)
  {
    var policy := PolicyFor(o, s, behind);
    PolicyIsTable(o, s, behind);
    hide PolicyFor, StopsRun, StageOf, Passed, AllPassed, FirstFailed, Last, LeavesDeviceToRecover, BoundaryBeforeAudit;
    if s == CleanPreflightGate(PostDiag) {
      GateRecovers(o, s);
      LastOfLast(main, 4, 5);
    } else if LeavesDeviceToRecover(o, s) {
      LastOne(main);
      BoundaryOfTail(o, s, main, tail);
    } else {
      LastOne(main);
    }
  }

  lemma GateRecovers(o: Options, s: Stage)
    requires s.CleanPreflightGate?
    ensures !LeavesDeviceToRecover(o, s) && s != VerifyInputs
  {
  }

  lemma BoundaryOfTail(o: Options, s: Stage, main: seq<Logged>, tail: seq<Logged>)
    requires LeavesDeviceToRecover(o, s) && LoggedStages(tail) == StagesAfter(o, s)
    ensures |tail| == 6 && BoundaryBeforeAudit(main + tail) == tail[1..5] && s != VerifyInputs
  {
    assert |LoggedStages(tail)| == |tail|;
  }

  lemma StoppedAsTabled(w: World, o: Options, s: Stage, behind: bool, at: State)
    requires at.log != [] && !at.raised && StageOf(at.log[|at.log| - 1]) == s && StopsRun(at.log)
    requires PolicyFor(o, s, behind).Stop? && !CheckHolds(PolicyFor(o, s, behind), at.log)
    ensures var p := Stopped(w, PolicyFor(o, s, behind), at);
      p.Ended? && EndsAsTabled(o, at.log, Tail(p), p) && Main(p) == at.log
  {
    var policy := PolicyFor(o, s, behind);
    var p := Stopped(w, policy, at);
    AftermathIsTable(o, s, behind);
    TailStages(w, policy, at);
    StoppedReport(w, policy, at);
    if !p.st.raised {
      RecoveryIsTable(o, s, behind, at.log, Tail(p));
    }
    hide Stopped, PolicyFor, AftermathItems, LeavesDeviceToRecover, StopsRun, Passed, AllPassed, FirstFailed, Last, StagesOf,
      StagesAfter, Recovery, RecoveryVerdict, Blamed, StageOf, LoggedStages, Caughts, RestoresCaught;
  }

  lemma {:induction false} EscapesWithin(w: World, items: seq<Item>, st: State)
    requires !st.raised
    ensures var r := RunAll(w, items, st);
      r.raised ==> |r.log| < |st.log| + |items| || (|r.log| > |st.log| && EndsInterrupted(r.log))
    decreases |items|
  {
    if items != [] {
      var mid := RunItem(w, items[0], st);
      ItemLogged(w, items[0], st);
      ItemInterrupted(w, items[0], st);
      hide RunItem;
      if !mid.raised {
        EscapesWithin(w, items[1..], mid);
      }
    }
  }

  lemma ItemInterrupted(w: World, item: Item, st: State)
    ensures var r := RunItem(w, item, st); r.raised && |r.log| == |st.log| + 1 ==> EndsInterrupted(r.log)
  {
  }

  lemma TailStages(w: World, policy: Policy, at: State)
    requires !at.raised && policy.Stop? && !AllPassed(Last(at.log, policy.window))
    ensures var p := Stopped(w, policy, at);
      var stages := StagesOf(AftermathItems(policy.aftermath));
      && LoggedStages(Tail(p)) <= stages && (!p.st.raised ==> LoggedStages(Tail(p)) == stages)
      && (p.st.raised && LoggedStages(Tail(p)) == stages ==> EndsInterrupted(Tail(p)))
  {
    var p, items := Stopped(w, policy, at), AftermathItems(policy.aftermath);
    AllLogged(w, items, at);
    StagesLength(items);
    EscapesWithin(w, items, at);
    var tail := Tail(p);
    assert |p.st.log| == |at.log| + |tail|;
    forall i | 0 <= i < |tail| ensures StageOf(tail[i]) == StagesOf(items)[i] {
      assert tail[i] == p.st.log[|at.log| + i];
    }
    hide RunAll, AftermathItems, StageOf, AllPassed, Last;
  }

  // ----- whole runs

  /** A hardware run stops at the first entry the table names, and ends as the table says; without
      such an entry only an exception keeps it from its end. A dry run is never stopped. */
  lemma RunStopsAsTabled(w: World, o: Options)
    ensures var p := Validate(w, o);
      var main, tail := Main(p), Tail(p);
      && (!o.dryRun ==> forall k :: 0 < k < |main| ==> !StopsRun(main[..k]))
      && (if !o.dryRun && main != [] && StopsRun(main) && !EndsInterrupted(main)
          then p.Ended? && EndsAsTabled(o, main, tail, p)
          else tail == [] && (p.Ended? ==> p.st.raised && p.error == ExceptionText && p.recovery == None))
  {
    var at := RunOf(w, o);
    var p, all, main := Validate(w, o), Items(o), at.log;
    hide Items, Validate, AllFit, StopsRun, CheckHolds, EndsAsTabled, Stopped, Faithful, StageOf, PolicyFor, Catches, HasRaw;
    forall k | 0 < k <= |main| ensures CheckHolds(all[k - 1].policy, main[..k]) <==> !StopsRun(main[..k]) {
      CheckIsTable(o, all, main, k);
    }
    assert main[..|main|] == main;
    if p.Ended? && !at.raised {
      var k := |main|;
      CheckIsTable(o, all, main, k);
      StoppedAsTabled(w, o, all[k - 1].stage, HasRaw(all, k - 1), at);
      NotInterrupted(w, at, Caughts(all));
    }
  }

  lemma RunOf(w: World, o: Options) returns (at: State)
    ensures LeftAt(w, o.dryRun, Items(o), Validate(w, o), at, 0) && AllFit(o, Items(o), false) && RestoresCaught(Items(o))
  {
    ItemsFit(o);
    var all := Items(o);
    forall i | 0 <= i < |all| && all[i].stage.RestoreBridge? ensures all[i].caught {
      assert Fits(o, all[i], HasRaw(all, i));
    }
    assert all[0..] == all;
    hide Items, AllFit, HasRaw;
    at := RunLeaves(w, o.dryRun, all, START);
  }

  lemma NotInterrupted(w: World, st: State, caught: seq<bool>)
    requires Faithful(w, st, caught)
    ensures !st.raised ==> !EndsInterrupted(st.log)
  {
  }

  /** A failed stage of the SD suite behind the diagnostics, or a failed smoke test after the suite,
      ends a hardware run in an audit, the recovery of the device, and a second audit. */
  lemma FailedSuiteStageRecovers(w: World, o: Options, s: Stage)
    requires !o.dryRun && Main(Validate(w, o)) != []
    requires Main(Validate(w, o))[|Main(Validate(w, o))| - 1] == Plain(s, false) && !Validate(w, o).st.raised
    requires
      || (s == D1lSmoke && !o.skipSdSuite) || (s.BootPrepare? && SdRawDiag in LoggedStages(Main(Validate(w, o))))
      || s in {SdFileCanary, SdMapTileCanary, SdExportCanary, SdDiagnosticExport, SdDataExport, SdRetainedHistory, SdRebootRemount}
    ensures var p := Validate(w, o);
      && LoggedStages(Tail(p)) == [
        ReleaseGate, RestoreBridge(RecoveryAfter(s)), ReflashEsp32(RecoveryAfter(s)), BridgePreflight(RecoveryAfter(s)),
        CleanPreflightGate(RecoveryAfter(s)), ReleaseGate]
      && p.Ended? && p.error == StageFailed(s) && p.recovery == Some(AllPassed(Tail(p)[1..5]))
  {
    hide Validate;
    RunStopsAsTabled(w, o);
    assert StopsRun(Main(Validate(w, o)));
  }

  // ----- whose exceptions become entries

  /** Whether an exception of the stage at `i` in the log is caught. */
  predicate CaughtAt(main: seq<Logged>, log: seq<Logged>, i: nat)
    requires i < |log| && |main| <= |log|
  {
    if i < |main| then Catches(StageOf(main[i]), SdRawDiag in LoggedStages(main[..i]))
    else main != [] && CatchesAfter(StageOf(main[|main| - 1]), StageOf(log[i]))
  }

  /** `s` is the next stage of the run: of the aftermath once a check failed, of the plan before. */
  predicate Due(o: Options, main: seq<Logged>, tail: seq<Logged>, s: Stage) {
    if !o.dryRun && main != [] && StopsRun(main) then
      |tail| < |StagesAfter(o, StageOf(main[|main| - 1]))| && s == StagesAfter(o, StageOf(main[|main| - 1]))[|tail|]
    else NamesOf(LoggedStages(main) + [s]) <= PlanSteps(o)
  }

  predicate DueCaught(o: Options, main: seq<Logged>, s: Stage) {
    if !o.dryRun && main != [] && StopsRun(main) then CatchesAfter(StageOf(main[|main| - 1]), s)
    else Catches(s, SdRawDiag in LoggedStages(main))
  }

  /** Each entry of the log says what its calls answered; if a call ended the run without an entry, it
      was that of the stage due next, which does not catch exceptions or could not record this one. */
  ghost predicate Explained(w: World, o: Options, main: seq<Logged>, tail: seq<Logged>, st: State, due: Stage) {
    && st.log == main + tail
    && (forall i :: 0 <= i < |st.log| ==> Answers(w, CallsOf(st.log[..i]), st.log[i], CaughtAt(main, st.log, i)))
    && (if st.raised && !EndsInterrupted(st.log)
        then Due(o, main, tail, due) && Escapes(w, CallsOf(st.log), DueCaught(o, main, due)) && st.calls == CallsOf(st.log) + 1
        else st.calls == CallsOf(st.log))
  }

  lemma Explains(
      w: World, o: Options, main: seq<Logged>, tail: seq<Logged>, st: State, caught: seq<bool>, due: Stage)
    requires st.log == main + tail && Faithful(w, st, caught)
    requires forall i :: 0 <= i < |st.log| ==> caught[i] == CaughtAt(main, st.log, i)
    requires st.raised && !EndsInterrupted(st.log) ==> Due(o, main, tail, due) && caught[|st.log|] == DueCaught(o, main, due)
    ensures Explained(w, o, main, tail, st, due)
  {
    hide Answers, Escapes, CaughtAt, Due, DueCaught, CallsOf;
  }

  /** The calls of a whole run. */
  lemma EntriesAreAnswers(w: World, o: Options) returns (due: Stage)
    ensures Explained(w, o, Main(Validate(w, o)), Tail(Validate(w, o)), Validate(w, o).st, due)
  {
    hide Validate, Items, AllFit, Explained;
    var at := RunOf(w, o);
    if Validate(w, o).Ended? && !at.raised {
      due := StoppedExplained(w, o, at);
    } else {
      due := ReachedExplained(w, o, at);
    }
    hide LeftAt;
  }

  lemma RawLogged(all: seq<Item>, log: seq<Logged>, k: nat)
    requires k <= |log| <= |all| && forall i :: 0 <= i < |log| ==> StageOf(log[i]) == all[i].stage
    ensures HasRaw(all, k) <==> SdRawDiag in LoggedStages(log[..k])
  {
    var stages := LoggedStages(log[..k]);
    if HasRaw(all, k) {
      var j :| 0 <= j < k && all[j].stage == SdRawDiag;
      assert stages[j] == SdRawDiag;
    }
    if SdRawDiag in stages {
      var j :| 0 <= j < |stages| && stages[j] == SdRawDiag;
      assert all[j].stage == SdRawDiag;
    }
  }

  lemma MainCaught(o: Options, all: seq<Item>, log: seq<Logged>, k: nat)
    requires AllFit(o, all, false)
    requires k <= |log| <= |all| && k < |all| && forall i :: 0 <= i < |log| ==> StageOf(log[i]) == all[i].stage
    ensures all[k].caught == Catches(all[k].stage, SdRawDiag in LoggedStages(log[..k]))
  {
    assert Fits(o, all[k], HasRaw(all, k));
    RawLogged(all, log, k);
    hide HasRaw, PolicyFor, Catches, AllFit;
  }

  lemma LoggedAndNext(all: seq<Item>, main: seq<Logged>)
    requires |main| < |all| && forall i :: 0 <= i < |main| ==> StageOf(main[i]) == all[i].stage
    ensures |StagesOf(all)| == |all| && LoggedStages(main) + [all[|main|].stage] == StagesOf(all)[..|main| + 1]
  {
    hide StageOf, StagesOf;
    var n := |main|;
    StagesLength(all);
    forall i | 0 <= i <= n ensures StagesOf(all)[i] == all[i].stage {
      StageAt(all, i);
    }
  }

  lemma DueInPlan(o: Options, main: seq<Logged>)
    requires |main| < |Items(o)| && forall i :: 0 <= i < |main| ==> StageOf(main[i]) == Items(o)[i].stage
    ensures NamesOf(LoggedStages(main) + [Items(o)[|main|].stage]) <= PlanSteps(o)
  {
    hide Items, NamesOf, PlanSteps, StagesOf, LoggedStages, StageOf;
    StagesArePlan(o);
    StagesLength(Items(o));
    LoggedAndNext(Items(o), main);
    NamesPrefix(StagesOf(Items(o)), |main| + 1);
  }

  lemma ReachedExplained(w: World, o: Options, at: State) returns (due: Stage)
    requires LeftAt(w, o.dryRun, Items(o), Validate(w, o), at, 0) && AllFit(o, Items(o), false)
    requires Validate(w, o).Running? || at.raised
    ensures Explained(w, o, Main(Validate(w, o)), Tail(Validate(w, o)), Validate(w, o).st, due)
  {
    hide Items, Validate, AllFit, CheckHolds, Stopped, StageOf, Catches, CatchesAfter, Answers, StagesAfter, Escapes, Explained,
      StopsRun, NamesOf, PlanSteps, PolicyFor, Faithful, CaughtAt, Due, DueCaught, HasRaw, ChecksPassed, Passed;
    var p, all, log := Validate(w, o), Items(o), at.log;
    due := ReleaseGate;
    assert p.st == at && Main(p) == log && Tail(p) == [] && Faithful(w, at, Caughts(all)) && |log| <= |all|;
    assert forall i :: 0 <= i < |log| ==> StageOf(log[i]) == all[i].stage;
    if at.raised && !EndsInterrupted(log) {
      NotStopped(w, o, at);
      FaithfulDue(w, at, Caughts(all));
      due := all[|log|].stage;
      DueInPlan(o, log);
      MainCaught(o, all, log, |log|);
      assert log[..|log|] == log;
    }
    hide LeftAt;
    forall i | 0 <= i < |log| ensures all[i].caught == CaughtAt(log, log, i) {
      MainCaught(o, all, log, i);
      CaughtInMain(log, i);
    }
    if at.raised && !EndsInterrupted(log) {
      DueBeforeStop(o, log, due);
    }
    assert log + [] == log;
    Explains(w, o, log, [], at, Caughts(all), due);
  }

  lemma CaughtInMain(log: seq<Logged>, i: nat)
    requires i < |log|
    ensures CaughtAt(log, log, i) == Catches(StageOf(log[i]), SdRawDiag in LoggedStages(log[..i]))
  {
  }

  lemma DueBeforeStop(o: Options, main: seq<Logged>, s: Stage)
    requires o.dryRun || main == [] || !StopsRun(main)
    requires NamesOf(LoggedStages(main) + [s]) <= PlanSteps(o)
    ensures Due(o, main, [], s) && DueCaught(o, main, s) == Catches(s, SdRawDiag in LoggedStages(main))
  {
    hide NamesOf, PlanSteps, Catches;
  }

  lemma FaithfulDue(w: World, st: State, caught: seq<bool>)
    requires Faithful(w, st, caught) && st.raised && !EndsInterrupted(st.log)
    ensures |st.log| < |caught|
  {
  }

  /** An exception outside the aftermath comes before any check fails. */
  lemma NotStopped(w: World, o: Options, at: State)
    requires LeftAt(w, o.dryRun, Items(o), Validate(w, o), at, 0) && AllFit(o, Items(o), false)
    requires at.raised && !EndsInterrupted(at.log)
    ensures o.dryRun || at.log == [] || !StopsRun(at.log)
  {
    hide Items, Validate, AllFit, CheckHolds, Stopped, StageOf, StopsRun, Faithful;
    if at.log != [] {
      CheckIsTable(o, Items(o), at.log, |at.log|);
      assert at.log[..|at.log|] == at.log;
    }
  }

  lemma StoppedFaithful(w: World, policy: Policy, at: State, all: seq<Item>) returns (caught: seq<bool>)
    requires Faithful(w, at, Caughts(all)) && !at.raised && |at.log| <= |all|
    requires policy.Stop? && !AllPassed(Last(at.log, policy.window)) && RestoresCaught(AftermathItems(policy.aftermath))
    ensures caught == Caughts(all)[..|at.log|] + Caughts(AftermathItems(policy.aftermath))
    ensures Faithful(w, Stopped(w, policy, at).st, caught)
  {
    var items := AftermathItems(policy.aftermath);
    caught := Caughts(all)[..|at.log|] + Caughts(items);
    assert Faithful(w, at, caught) by {
      hide Answers, Escapes, CallsOf;
    }
    assert caught[|at.log|..|at.log| + |items|] == Caughts(items);
    hide Faithful, AftermathItems, AllPassed, Last;
    FaithfulAll(w, items, at, caught);
  }

  /** In the aftermath exceptions are caught as the table says. */
  lemma TailCaught(o: Options, main: seq<Logged>, tail: seq<Logged>, s: Stage, k: nat)
    requires main != [] && StageOf(main[|main| - 1]) == s && k < |tail| && LoggedStages(tail) <= StagesAfter(o, s)
    ensures CaughtAt(main, main + tail, |main| + k) == CatchesAfter(s, StagesAfter(o, s)[k])
  {
    assert LoggedStages(tail)[k] == StagesAfter(o, s)[k];
    assert (main + tail)[|main| + k] == tail[k];
    hide StagesAfter, CatchesAfter, Catches;
  }

  lemma MainCaughtAt(o: Options, all: seq<Item>, main: seq<Logged>, tail: seq<Logged>, i: nat)
    requires AllFit(o, all, false) && i < |main| <= |all| && forall j :: 0 <= j < |main| ==> StageOf(main[j]) == all[j].stage
    ensures CaughtAt(main, main + tail, i) == all[i].caught
  {
    MainCaught(o, all, main, i);
    hide AllFit, Catches, CatchesAfter, LoggedStages, StageOf;
  }

  lemma TailDue(o: Options, main: seq<Logged>, tail: seq<Logged>, s: Stage)
    requires !o.dryRun && main != [] && StopsRun(main) && StageOf(main[|main| - 1]) == s && |tail| < |StagesAfter(o, s)|
    ensures Due(o, main, tail, StagesAfter(o, s)[|tail|])
    ensures DueCaught(o, main, StagesAfter(o, s)[|tail|]) == CatchesAfter(s, StagesAfter(o, s)[|tail|])
  {
    hide StagesAfter, CatchesAfter, StopsRun, StageOf;
  }

  /** What is caught, up to the last entry and for the stage that would be next. */
  lemma CaughtsAgree(o: Options, all: seq<Item>, main: seq<Logged>, tail: seq<Logged>, s: Stage, caught: seq<bool>)
    requires AllFit(o, all, false) && main != [] && |main| <= |all| && StageOf(main[|main| - 1]) == s
    requires forall j :: 0 <= j < |main| ==> StageOf(main[j]) == all[j].stage
    requires LoggedStages(tail) <= StagesAfter(o, s) && |caught| == |main| + |StagesAfter(o, s)|
    requires forall i :: 0 <= i < |main| ==> caught[i] == all[i].caught
    requires forall i :: 0 <= i < |StagesAfter(o, s)| ==> caught[|main| + i] == CatchesAfter(s, StagesAfter(o, s)[i])
    ensures |tail| <= |StagesAfter(o, s)|
    ensures forall i :: 0 <= i < |main + tail| ==> caught[i] == CaughtAt(main, main + tail, i)
  {
    hide AllFit, StageOf, StagesAfter, CatchesAfter, CaughtAt;
    assert |tail| == |LoggedStages(tail)|;
    forall i | 0 <= i < |main + tail| ensures caught[i] == CaughtAt(main, main + tail, i) {
      if i < |main| {
        MainCaughtAt(o, all, main, tail, i);
      } else {
        TailCaught(o, main, tail, s, i - |main|);
        assert caught[|main| + (i - |main|)] == CatchesAfter(s, StagesAfter(o, s)[i - |main|]);
      }
    }
  }

  /** The same behind a check that stopped the run. */
  lemma StoppedExplained(w: World, o: Options, at: State) returns (due: Stage)
    requires LeftAt(w, o.dryRun, Items(o), Validate(w, o), at, 0) && AllFit(o, Items(o), false)
    requires Validate(w, o).Ended? && !at.raised
    ensures Explained(w, o, Main(Validate(w, o)), Tail(Validate(w, o)), Validate(w, o).st, due)
  {
    hide Items, Validate, AllFit, Stopped, StageOf, Catches, CatchesAfter, Answers, Escapes, Explained, StopsRun, StagesAfter,
      AftermathItems, PolicyFor, HasRaw, AllPassed, Last, Faithful, CaughtAt, Due, DueCaught, NamesOf, PlanSteps;
    var p, all, log := Validate(w, o), Items(o), at.log;
    var n := |log|;
    var s, policy := all[n - 1].stage, all[n - 1].policy;
    CheckIsTable(o, all, log, n);
    assert log[..n] == log;
    StoppedAsTabled(w, o, s, HasRaw(all, n - 1), at);
    AftermathIsTable(o, s, HasRaw(all, n - 1));
    var caught := StoppedFaithful(w, policy, at, all);
    TailStages(w, policy, at);
    StoppedReport(w, policy, at);
    hide LeftAt, EndsAsTabled, CheckHolds, ChecksPassed, RestoresCaught, Main, Tail, LoggedStages;
    var tail, stages := Tail(p), StagesAfter(o, s);
    CaughtsAgree(o, all, log, tail, s, caught);
    due := ReleaseGate;
    if |tail| < |stages| {
      due := stages[|tail|];
      TailDue(o, log, tail, s);
    }
    FaithfulDueTail(w, p.st, caught);
    Explains(w, o, log, tail, p.st, caught, due);
  }

  lemma FaithfulDueTail(w: World, st: State, caught: seq<bool>)
    requires Faithful(w, st, caught)
    ensures st.raised && !EndsInterrupted(st.log) ==> |st.log| < |caught|
  {
  }
}
