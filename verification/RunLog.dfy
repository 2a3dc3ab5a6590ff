/** The final verdict over the run log of the hardware orchestrator, and the grammar of the
    logs it accepts. */
module RunLog {
  import opened Results

  /** The `attempt` member of a run entry; a JSON true is not the number one. */
  datatype Attempt = Absent | Number(x: real) | Boolean(b: bool) | Other

  /** The `kind` of a run entry: the two kinds the verdict looks for, or any other, named by `S`. */
  datatype Kind<S> = ReleaseGateAudit | BridgeRestore | Stage(what: S)

  /** One run entry. `phase` is None when the member is missing, empty or not a string; `ok` is
      `get("ok") is True`. */
  datatype Step<S, P> = Step(kind: Kind<S>, phase: Option<P>, attempt: Attempt, ok: bool)

  predicate IsAttempt<S, P>(s: Step<S, P>) {
    s.kind.BridgeRestore? && !s.attempt.Absent?
  }

  predicate IsRetryOf<S, P(==)>(retry: Step<S, P>, first: Step<S, P>) {
    retry.kind.BridgeRestore? && retry.phase == first.phase && retry.attempt == Number(2.0) && retry.ok
  }

  // ----- the grammar

  datatype Segment<S, P> =
    | Gate(gate: Step<S, P>)
    | Single(step: Step<S, P>)
    | OneTry(first: Step<S, P>)
    | TwoTries(first: Step<S, P>, second: Step<S, P>)

  predicate Proper<S, P(==)>(g: Segment<S, P>) {
    match g
    case Gate(s) => s.kind.ReleaseGateAudit?
    case Single(s) => !s.kind.ReleaseGateAudit? && !IsAttempt(s) && s.ok
    case OneTry(s) => IsAttempt(s) && s.attempt == Number(1.0) && s.phase.Some? && s.ok
    case TwoTries(s, t) => IsAttempt(s) && s.attempt == Number(1.0) && s.phase.Some? && !s.ok && IsRetryOf(t, s)
  }

  function Entries<S, P>(g: Segment<S, P>): seq<Step<S, P>> {
    match g
    case Gate(s) => [s]
    case Single(s) => [s]
    case OneTry(s) => [s]
    case TwoTries(s, t) => [s, t]
  }

  function Flatten<S, P>(gs: seq<Segment<S, P>>): seq<Step<S, P>> {
    if gs == [] then [] else Entries(gs[0]) + Flatten(gs[1..])
  }

  /** Proper segments whose bridge phases are pairwise distinct and avoid `seen`. */
  predicate WellFormed<S, P(==)>(gs: seq<Segment<S, P>>, seen: set<P>) {
    gs == [] ||
    (Proper(gs[0]) &&
     if gs[0].OneTry? || gs[0].TwoTries?
     then gs[0].first.phase.value !in seen && WellFormed(gs[1..], seen + {gs[0].first.phase.value})
     else WellFormed(gs[1..], seen))
  }

  ghost predicate Accepts<S(!new), P(!new)>(runs: seq<Step<S, P>>) {
    exists gs :: WellFormed(gs, {}) && Flatten(gs) == runs
  }

  // ----- the scan with its lookahead and seen-set

  predicate Scan<S, P(==)>(runs: seq<Step<S, P>>, seen: set<P>)
    decreases |runs|
  {
    if runs == [] then true
    else
      var s := runs[0];
      if s.kind.ReleaseGateAudit? then Scan(runs[1..], seen)
      else if IsAttempt(s) then
        s.phase.Some? && s.phase.value !in seen && s.attempt == Number(1.0) &&
        if s.ok then Scan(runs[1..], seen + {s.phase.value})
        else |runs| > 1 && IsRetryOf(runs[1], s) && Scan(runs[2..], seen + {s.phase.value})
      else s.ok && Scan(runs[1..], seen)
  }

  lemma {:induction false} ScanFindsSegments<S, P>(runs: seq<Step<S, P>>, seen: set<P>) returns (gs: seq<Segment<S, P>>)
    requires Scan(runs, seen)
    ensures WellFormed(gs, seen) && Flatten(gs) == runs
    decreases |runs|
  {
    if runs == [] {
      gs := [];
    } else {
      var s := runs[0];
      var g, rest;
      if s.kind.ReleaseGateAudit? {
        g := Gate(s);
        rest := ScanFindsSegments(runs[1..], seen);
      } else if !IsAttempt(s) {
        g := Single(s);
        rest := ScanFindsSegments(runs[1..], seen);
      } else if s.ok {
        g := OneTry(s);
        rest := ScanFindsSegments(runs[1..], seen + {s.phase.value});
      } else {
        g := TwoTries(s, runs[1]);
        rest := ScanFindsSegments(runs[2..], seen + {s.phase.value});
        assert runs == [s, runs[1]] + runs[2..];
      }
      gs := [g] + rest;
      assert gs[1..] == rest;
    }
  }

  lemma {:induction false} SegmentsAreScanned<S, P>(gs: seq<Segment<S, P>>, seen: set<P>)
    requires WellFormed(gs, seen)
    ensures Scan(Flatten(gs), seen)
    decreases |gs|
  {
    if gs != [] {
      var g, runs := gs[0], Flatten(gs);
      var seen' := if g.OneTry? || g.TwoTries? then seen + {g.first.phase.value} else seen;
      SegmentsAreScanned(gs[1..], seen');
      assert runs[|Entries(g)|..] == Flatten(gs[1..]);
    }
  }

  /** `validation_runs_ok` accepts exactly the logs of the grammar. */
  method ValidationRunsOk<S(==,!new), P(==,!new)>(runs: seq<Step<S, P>>) returns (ok: bool)
    ensures ok <==> Accepts(runs)
    ensures ok <==> Scan(runs, {})
  {
    ScanIsAccepts(runs);
    var seen: set<P> := {};
    var index := 0;
    while index < |runs|
      invariant 0 <= index <= |runs|
      invariant Scan(runs, {}) <==> Scan(runs[index..], seen)
    {
      var step := runs[index];
      assert runs[index..][1..] == runs[index + 1..];
      if step.kind.ReleaseGateAudit? {
        index := index + 1;
        continue;
      }
      if step.kind.BridgeRestore? && !step.attempt.Absent? {
        if step.phase.None? || step.phase.value in seen {
          return false;
        }
        if step.attempt != Number(1.0) {
          return false;
        }
        seen := seen + {step.phase.value};
        if step.ok {
          index := index + 1;
          continue;
        }
        if index + 1 >= |runs| {
          return false;
        }
        var retry := runs[index + 1];
        if !retry.kind.BridgeRestore? || retry.phase != step.phase || retry.attempt != Number(2.0) || !retry.ok {
          return false;
        }
        assert runs[index..][2..] == runs[index + 2..];
        index := index + 2;
        continue;
      }
      if !step.ok {
        return false;
      }
      index := index + 1;
    }
    ok := true;
  }

  lemma ScanIsAccepts<S(!new), P(!new)>(runs: seq<Step<S, P>>)
    ensures Scan(runs, {}) <==> Accepts(runs)
  {
    if Scan(runs, {}) {
      var gs := ScanFindsSegments(runs, {});
      assert WellFormed(gs, {}) && Flatten(gs) == runs;
    }
    if Accepts(runs) {
      var gs :| WellFormed(gs, {}) && Flatten(gs) == runs;
      SegmentsAreScanned(gs, {});
    }
  }

  // ----- appending to an accepted log

  /** The bridge phases a scan has passed. */
  function PhasesOf<S, P(==)>(runs: seq<Step<S, P>>): set<P> {
    if runs == [] then {}
    else PhasesOf(runs[1..]) + if IsAttempt(runs[0]) && runs[0].phase.Some? then {runs[0].phase.value} else {}
  }

  /** A log may be continued after an accepted one exactly when it is accepted by itself and
      repeats no phase. */
  lemma {:induction false} AcceptedConcatenation<S, P>(a: seq<Step<S, P>>, b: seq<Step<S, P>>, seen: set<P>)
    requires Scan(a, seen)
    ensures Scan(a + b, seen) <==> Scan(b, seen + PhasesOf(a))
    decreases |a|
  {
    if a == [] {
      assert a + b == b;
      assert seen + PhasesOf(a) == seen;
    } else {
      var s := a[0];
      assert (a + b)[1..] == a[1..] + b;
      if IsAttempt(s) && !s.ok && !s.kind.ReleaseGateAudit? {
        assert (a + b)[2..] == a[2..] + b && a[1..][1..] == a[2..];
        AcceptedConcatenation(a[2..], b, seen + {s.phase.value});
        assert seen + PhasesOf(a) == seen + {s.phase.value} + PhasesOf(a[2..]);
      } else if IsAttempt(s) && !s.kind.ReleaseGateAudit? {
        AcceptedConcatenation(a[1..], b, seen + {s.phase.value});
        assert seen + PhasesOf(a) == seen + {s.phase.value} + PhasesOf(a[1..]);
      } else {
        AcceptedConcatenation(a[1..], b, seen);
        assert seen + PhasesOf(a) == seen + PhasesOf(a[1..]);
      }
    }
  }

  /** The entries a bounded bridge restore appends: one attempt, or a failed one and its retry. */
  function RestoreEntries<S, P>(phase: P, firstOk: bool, secondOk: bool): seq<Step<S, P>> {
    var first := Step(BridgeRestore, Some(phase), Number(1.0), firstOk);
    if firstOk then [first] else [first, Step(BridgeRestore, Some(phase), Number(2.0), secondOk)]
  }

  /** Restoring under a fresh phase keeps the log accepted exactly when the last attempt succeeded. */
  lemma FreshRestoreDecides<S(!new), P(!new)>(runs: seq<Step<S, P>>, phase: P, firstOk: bool, secondOk: bool)
    requires Accepts(runs) && phase !in PhasesOf(runs)
    ensures var appended := RestoreEntries(phase, firstOk, secondOk);
            Accepts(runs + appended) <==> appended[|appended| - 1].ok
  {
    var appended := RestoreEntries(phase, firstOk, secondOk);
    ScanIsAccepts(runs);
    ScanIsAccepts(runs + appended);
    AcceptedConcatenation(runs, appended, {});
    assert {} + PhasesOf(runs) == PhasesOf(runs);
    assert firstOk ==> appended[1..] == [];
    assert !firstOk ==> appended[2..] == [];
  }

  /** Restoring again under a phase already in the log is never accepted. */
  lemma RepeatedPhaseRejected<S(!new), P(!new)>(runs: seq<Step<S, P>>, phase: P, firstOk: bool, secondOk: bool)
    requires Accepts(runs) && phase in PhasesOf(runs)
    ensures !Accepts(runs + RestoreEntries(phase, firstOk, secondOk))
  {
    var appended := RestoreEntries(phase, firstOk, secondOk);
    ScanIsAccepts(runs);
    ScanIsAccepts(runs + appended);
    AcceptedConcatenation(runs, appended, {});
    assert {} + PhasesOf(runs) == PhasesOf(runs);
  }

  // ----- the same, entry by entry

  /** The first try of a bridge restore. */
  predicate FirstTry<S, P>(s: Step<S, P>) {
    s.kind.BridgeRestore? && s.attempt == Number(1.0) && s.phase.Some?
  }

  /** Entry `i` is the successful second try of a bridge restore whose first try, right before it, failed. */
  predicate SecondTry<S, P(==)>(runs: seq<Step<S, P>>, i: int) {
    && 0 < i < |runs| && FirstTry(runs[i - 1]) && !runs[i - 1].ok
    && runs[i].kind.BridgeRestore? && runs[i].attempt == Number(2.0) && runs[i].phase == runs[i - 1].phase && runs[i].ok
  }

  /** Entry `i` is a gate, a step that passed, or one of the tries of a bridge restore that passed in the end. */
  predicate Passes<S, P(==)>(runs: seq<Step<S, P>>, i: int) {
    && 0 <= i < |runs|
    && (|| runs[i].kind.ReleaseGateAudit?
        || (runs[i].ok && (runs[i].kind.BridgeRestore? ==> runs[i].attempt.Absent?))
        || SecondTry(runs, i)
        || (FirstTry(runs[i]) && (runs[i].ok || SecondTry(runs, i + 1))))
  }

  /** All entries pass, and no phase is tried first twice or was tried before. */
  ghost predicate AllPass<S, P>(runs: seq<Step<S, P>>, seen: set<P>) {
    && (forall i :: 0 <= i < |runs| ==> Passes(runs, i))
    && (forall i :: 0 <= i < |runs| && FirstTry(runs[i]) ==> runs[i].phase.value !in seen)
    && forall i, j :: 0 <= i < j < |runs| && FirstTry(runs[i]) && FirstTry(runs[j]) ==> runs[i].phase != runs[j].phase
  }

  /** Behind the first `n` entries, which no second try follows, the same entries pass. */
  lemma PassesBehind<S, P>(runs: seq<Step<S, P>>, n: nat)
    requires 0 < n <= |runs| && !SecondTry(runs, n)
    ensures forall i :: n <= i < |runs| ==> (Passes(runs, i) <==> Passes(runs[n..], i - n))
  {
    forall i | n <= i < |runs| ensures Passes(runs, i) <==> Passes(runs[n..], i - n) {
      assert runs[n..][i - n] == runs[i];
      assert i > n ==> runs[n..][i - n - 1] == runs[i - 1];
      assert i + 1 < |runs| ==> runs[n..][i - n + 1] == runs[i + 1];
      assert SecondTry(runs, i) <==> SecondTry(runs[n..], i - n);
      assert SecondTry(runs, i + 1) <==> SecondTry(runs[n..], i + 1 - n);
    }
  }

  /** After first entries that pass, of which only the very first can be a first try, the rest must pass without its phase. */
  lemma RestPasses<S, P>(runs: seq<Step<S, P>>, n: nat, seen: set<P>)
    requires 0 < n <= |runs| && !SecondTry(runs, n) && forall i :: 0 <= i < n ==> Passes(runs, i)
    requires forall i :: 0 < i < n ==> !FirstTry(runs[i])
    ensures var own := if FirstTry(runs[0]) then {runs[0].phase.value} else {};
      AllPass(runs, seen) <==> own !! seen && AllPass(runs[n..], seen + own)
  {
    var rest := runs[n..];
    PassesBehind(runs, n);
    assert forall i :: n <= i < |runs| ==> rest[i - n] == runs[i];
    hide Passes, FirstTry;
    var own := if FirstTry(runs[0]) then {runs[0].phase.value} else {};
    if AllPass(runs, seen) {
      forall i | 0 <= i < |rest| ensures Passes(rest, i) && (FirstTry(rest[i]) ==> rest[i].phase.value !in seen + own) {
        assert Passes(runs, i + n);
        HasPhase(runs[0]);
        HasPhase(runs[i + n]);
      }
      forall i, j | 0 <= i < j < |rest| && FirstTry(rest[i]) && FirstTry(rest[j]) ensures rest[i].phase != rest[j].phase {
        assert runs[i + n].phase != runs[j + n].phase;
      }
    }
    if own !! seen && AllPass(rest, seen + own) {
      RestMeans(runs, n, seen);
    }
  }

  lemma HasPhase<S, P>(s: Step<S, P>)
    ensures FirstTry(s) ==> s.phase.Some?
  {
  }

  lemma RestMeans<S, P>(runs: seq<Step<S, P>>, n: nat, seen: set<P>)
    requires 0 < n <= |runs| && !SecondTry(runs, n) && forall i :: 0 <= i < n ==> Passes(runs, i)
    requires forall i :: 0 < i < n ==> !FirstTry(runs[i])
    requires var own := if FirstTry(runs[0]) then {runs[0].phase.value} else {};
      own !! seen && AllPass(runs[n..], seen + own)
    ensures AllPass(runs, seen)
  {
    var rest := runs[n..];
    PassesBehind(runs, n);
    assert forall i :: n <= i < |runs| ==> runs[i] == rest[i - n];
    hide Passes, FirstTry;
    forall i | 0 <= i < |runs| ensures Passes(runs, i) && (FirstTry(runs[i]) ==> runs[i].phase.value !in seen) {
      HasPhase(runs[i]);
      if i >= n {
        assert Passes(rest, i - n);
      }
    }
    forall i, j | 0 <= i < j < |runs| && FirstTry(runs[i]) && FirstTry(runs[j]) ensures runs[i].phase != runs[j].phase {
      HasPhase(runs[i]);
      HasPhase(runs[j]);
      assert rest[j - n] == runs[j];
      if i >= n {
        assert rest[i - n] == runs[i];
      }
    }
  }

  lemma {:induction false} AllPassExactly<S, P>(runs: seq<Step<S, P>>, seen: set<P>)
    ensures Scan(runs, seen) <==> AllPass(runs, seen)
    decreases |runs|
  {
    hide AllPass;
    if runs == [] {
      NothingFails<S, P>(seen);
    } else if !Passes(runs, 0) {
      FirstFails(runs, seen);
    } else if FirstTry(runs[0]) && !runs[0].ok && !runs[0].kind.ReleaseGateAudit? {
      AllPassExactly(runs[2..], seen + {runs[0].phase.value});
      RestPasses(runs, 2, seen);
    } else if FirstTry(runs[0]) {
      AllPassExactly(runs[1..], seen + {runs[0].phase.value});
      RestPasses(runs, 1, seen);
    } else {
      AllPassExactly(runs[1..], seen);
      RestPasses(runs, 1, seen);
      assert seen + {} == seen;
    }
  }

  lemma NothingFails<S, P>(seen: set<P>)
    ensures AllPass<S, P>([], seen)
  {
  }

  lemma FirstFails<S, P>(runs: seq<Step<S, P>>, seen: set<P>)
    requires runs != [] && !Passes(runs, 0)
    ensures !Scan(runs, seen) && !AllPass(runs, seen)
  {
  }

  /** A log is accepted exactly when every entry is a gate, a step that passed, or a try of a bridge restore that passed in
      the end, and no two restores have the same phase. */
  lemma AcceptedEntryByEntry<S(!new), P(!new)>(runs: seq<Step<S, P>>)
    ensures Accepts(runs) <==>
      && (forall i :: 0 <= i < |runs| ==> Passes(runs, i))
      && forall i, j :: 0 <= i < j < |runs| && FirstTry(runs[i]) && FirstTry(runs[j]) ==> runs[i].phase != runs[j].phase
  {
    ScanIsAccepts(runs);
    AllPassExactly(runs, {});
    hide Accepts, Scan, Passes, FirstTry;
  }
}
