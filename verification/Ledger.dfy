/** The completion ledger: work packages with dependencies, gates and blockers, its validator and its
    scheduler. */
module Ledger {
  import opened Results

  datatype Status = Blocked | Open | InProgress | HostGreen | ActionsGreen | HardwareGreen | Merged | Released

  datatype Gate = MergedGate | ProofBanked | ImplementationMerged

  /** `lacksEvidence`: some required evidence file is missing. */
  datatype Package = Package(
    id: string, status: Status, gate: Gate, implementationMerged: bool, proofBanked: bool, dependsOn: seq<string>,
    blockers: seq<string>, lacksEvidence: bool)

  /** `blocks`: `blocks_package`, or `blocks_execution` where that is missing. */
  datatype Blocker = Blocker(id: string, open: bool, blocks: bool, owner: string)

  datatype Posture = Working | ReadyToTag | PostureReleased

  datatype Ledger = Ledger(packages: seq<Package>, blockers: seq<Blocker>, priority: seq<string>, posture: Posture)

  predicate Proven(s: Status) {
    s == HardwareGreen || s == Merged || s == Released
  }

  predicate Landed(s: Status) {
    s == Merged || s == Released
  }

  /** `dependency_satisfied` */
  predicate DependencySatisfied(p: Package) {
    match p.gate
    case ProofBanked => p.proofBanked && Proven(p.status)
    case ImplementationMerged => p.implementationMerged && p.status != Blocked && p.status != Open
    case MergedGate => p.implementationMerged && Landed(p.status)
  }

  /** `package_complete` */
  predicate PackageComplete(p: Package) {
    if p.gate == ProofBanked then p.proofBanked && Proven(p.status) else Landed(p.status)
  }

  /** `{row["id"]: row for row in packages}` */
  function ById(packages: seq<Package>): map<string, Package> {
    if packages == [] then map[]
    else ById(packages[..|packages| - 1])[packages[|packages| - 1].id := packages[|packages| - 1]]
  }

  /** `open_package_blocker_ids` */
  function OpenBlockers(blockers: seq<Blocker>): set<string> {
    set b | b in blockers && b.open && b.blocks :: b.id
  }

  function Select(ids: seq<string>, chosen: set<string>): seq<string> {
    if ids == [] then []
    else Select(ids[..|ids| - 1], chosen) + if ids[|ids| - 1] in chosen then [ids[|ids| - 1]] else []
  }

  /** The packages that are not complete. */
  function Unfinished(packages: map<string, Package>): set<string> {
    set id | id in packages && !PackageComplete(packages[id])
  }

  /** `pending_work_packages`: in the order of the priority list. */
  function Pending(l: Ledger): seq<string> {
    Select(l.priority, Unfinished(ById(l.packages)))
  }

  /** `release_ready` */
  predicate ReleaseReady(l: Ledger) {
    Pending(l) == [] && l.posture != Working
  }

  predicate Unblocked(p: Package, blockers: set<string>) {
    forall i :: 0 <= i < |p.blockers| ==> p.blockers[i] !in blockers
  }

  predicate DependenciesMet(p: Package, packages: map<string, Package>) {
    forall i :: 0 <= i < |p.dependsOn| ==> p.dependsOn[i] in packages && DependencySatisfied(packages[p.dependsOn[i]])
  }

  function Runnable(packages: map<string, Package>, blockers: set<string>): set<string> {
    set id | id in packages && packages[id].status != Blocked && !PackageComplete(packages[id])
          && Unblocked(packages[id], blockers) && DependenciesMet(packages[id], packages)
  }

  /** `runnable_work_packages` */
  method RunnableWorkPackages(l: Ledger) returns (result: seq<string>)
    ensures result == Select(l.priority, Runnable(ById(l.packages), OpenBlockers(l.blockers)))
  {
    hide ById, OpenBlockers, PackageComplete, Unblocked, DependenciesMet;
    var packages, blockers := ById(l.packages), OpenBlockers(l.blockers);
    result := [];
    assert l.priority[..|l.priority|] == l.priority;
    for i := 0 to |l.priority|
      invariant result == Select(l.priority[..i], Runnable(packages, blockers))
    {
      var id := l.priority[i];
      assert l.priority[..i + 1][..i] == l.priority[..i];
      if id !in packages || packages[id].status == Blocked || PackageComplete(packages[id]) {
        continue;
      }
      if !Unblocked(packages[id], blockers) {
        continue;
      }
      if DependenciesMet(packages[id], packages) {
        result := result + [id];
      }
    }
  }

  // ----- validity

  ghost predicate PackagesNamed(l: Ledger) {
    && (forall i :: 0 <= i < |l.packages| ==> l.packages[i].id != "")
    && (forall i, j :: 0 <= i < j < |l.packages| ==> l.packages[i].id != l.packages[j].id)
  }

  ghost predicate BlockersNamed(l: Ledger) {
    && (forall i, j :: 0 <= i < j < |l.blockers| ==> l.blockers[i].id != l.blockers[j].id)
    && (forall i :: 0 <= i < |l.blockers| ==> l.blockers[i].owner in ById(l.packages))
  }

  predicate Owned(l: Ledger, id: string, owner: string) {
    exists i :: 0 <= i < |l.blockers| && l.blockers[i].id == id && l.blockers[i].owner == owner
  }

  /** Dependencies and blocker references resolve. */
  ghost predicate References(l: Ledger, p: Package) {
    && (forall i :: 0 <= i < |p.dependsOn| ==> p.dependsOn[i] != p.id && p.dependsOn[i] in ById(l.packages))
    && (forall i :: 0 <= i < |p.blockers| ==> Owned(l, p.blockers[i], p.id))
  }

  /** The status agrees with the evidence and with what was merged. */
  predicate Consistent(p: Package) {
    && (Proven(p.status) ==> !p.lacksEvidence)
    && (p.proofBanked ==> Proven(p.status) && !p.lacksEvidence)
    && (p.status == HardwareGreen ==> p.proofBanked)
    && (Landed(p.status) ==> p.implementationMerged)
  }

  /** An open package blocker is referenced by its owner. */
  predicate Referenced(l: Ledger, b: Blocker) {
    b.open && b.blocks && b.owner in ById(l.packages) ==> b.id in ById(l.packages)[b.owner].blockers
  }

  /** A package that is not blocked has its dependencies satisfied. */
  predicate Startable(l: Ledger, p: Package) {
    p.status != Blocked ==>
      forall i :: 0 <= i < |p.dependsOn| && p.dependsOn[i] in ById(l.packages) ==>
        DependencySatisfied(ById(l.packages)[p.dependsOn[i]])
  }

  predicate PriorityComplete(l: Ledger) {
    && (set id | id in l.priority) == ById(l.packages).Keys
    && |l.priority| == |ById(l.packages).Keys|
  }

  /** No validation error in what the model covers. */
  ghost predicate Valid(l: Ledger) {
    && PackagesNamed(l) && BlockersNamed(l)
    && (forall i :: 0 <= i < |l.packages| ==>
          References(l, l.packages[i]) && Consistent(l.packages[i]) && Startable(l, l.packages[i]))
    && (forall i :: 0 <= i < |l.blockers| ==> Referenced(l, l.blockers[i]))
    && PriorityComplete(l)
    && (l.posture != Working ==> Pending(l) == [])
  }

  method CheckPackageNames(l: Ledger) returns (errors: nat)
    ensures errors == 0 <==> PackagesNamed(l)
  {
    errors := 0;
    var seen: set<string> := {};
    for i := 0 to |l.packages|
      invariant errors == 0 <==>
        && (forall k :: 0 <= k < i ==> l.packages[k].id != "")
        && (forall k, j :: 0 <= k < j < i ==> l.packages[k].id != l.packages[j].id)
      invariant errors == 0 ==> forall n :: n in seen <==> exists k :: 0 <= k < i && l.packages[k].id == n
    {
      var id := l.packages[i].id;
      if id == "" {
        errors := errors + 1;
        continue;
      }
      if id in seen {
        errors := errors + 1;
        continue;
      }
      seen := seen + {id};
    }
  }

  method CheckBlockers(l: Ledger) returns (errors: nat)
    ensures errors == 0 <==> BlockersNamed(l)
  {
    hide ById;
    errors := 0;
    var seen: set<string> := {};
    for i := 0 to |l.blockers|
      invariant errors == 0 <==>
        && (forall k, j :: 0 <= k < j < i ==> l.blockers[k].id != l.blockers[j].id)
        && (forall k :: 0 <= k < i ==> l.blockers[k].owner in ById(l.packages))
      invariant forall n :: n in seen <==> exists k :: 0 <= k < i && l.blockers[k].id == n
    {
      var b := l.blockers[i];
      errors := errors + Count(b.id in seen) + Count(b.owner !in ById(l.packages));
      seen := seen + {b.id};
    }
  }

  method CheckReferences(l: Ledger, p: Package) returns (errors: nat)
    ensures errors == 0 <==> References(l, p)
  {
    hide ById, Owned;
    errors := 0;
    for i := 0 to |p.dependsOn|
      invariant errors == 0 <==> forall k :: 0 <= k < i ==> p.dependsOn[k] != p.id && p.dependsOn[k] in ById(l.packages)
    {
      if p.dependsOn[i] == p.id {
        errors := errors + 1;
      } else if p.dependsOn[i] !in ById(l.packages) {
        errors := errors + 1;
      }
    }
    ghost var sofar := errors;
    for i := 0 to |p.blockers|
      invariant errors >= sofar
      invariant errors == sofar <==> forall k :: 0 <= k < i ==> Owned(l, p.blockers[k], p.id)
    {
      errors := errors + Count(!Owned(l, p.blockers[i], p.id));
    }
  }

  method CheckConsistent(p: Package) returns (errors: nat)
    ensures errors == 0 <==> Consistent(p)
  {
    errors := Count(Proven(p.status) && p.lacksEvidence);
    if p.proofBanked {
      errors := errors + Count(!Proven(p.status)) + Count(p.lacksEvidence);
    }
    errors := errors + Count(p.status == HardwareGreen && !p.proofBanked)
      + Count(Landed(p.status) && !p.implementationMerged);
  }

  /** `validate_ledger`; `others` counts the errors of its remaining checks: shapes, states, commits,
      evidence rows, receipts, ports, capabilities, release gates and reporting. */
  method ValidateLedger(l: Ledger, others: nat) returns (errors: nat)
    ensures errors == 0 <==> others == 0 && Valid(l)
  {
    hide PackagesNamed, BlockersNamed, References, Consistent, Startable, Referenced, PriorityComplete, Pending;
    var named := CheckPackageNames(l);
    var owned := CheckBlockers(l);
    var rows: nat := 0;
    for i := 0 to |l.packages|
      invariant rows == 0 <==> forall k :: 0 <= k < i ==> References(l, l.packages[k]) && Consistent(l.packages[k])
    {
      var references := CheckReferences(l, l.packages[i]);
      var consistent := CheckConsistent(l.packages[i]);
      rows := rows + references + consistent;
    }
    var unreferenced: nat := 0;
    for i := 0 to |l.blockers|
      invariant unreferenced == 0 <==> forall k :: 0 <= k < i ==> Referenced(l, l.blockers[k])
    {
      unreferenced := unreferenced + Count(!Referenced(l, l.blockers[i]));
    }
    var early: nat := 0;
    for i := 0 to |l.packages|
      invariant early == 0 <==> forall k :: 0 <= k < i ==> Startable(l, l.packages[k])
    {
      early := early + Count(!Startable(l, l.packages[i]));
    }
    var unlisted := Count(!PriorityComplete(l));
    var posture := Count(l.posture != Working && Pending(l) != []);
    errors := others + named + owned + rows + unreferenced + early + unlisted + posture;
  }

  // ----- what a valid ledger promises

  lemma {:induction false} Entry(packages: seq<Package>, id: string)
    ensures id in ById(packages) <==> exists i :: 0 <= i < |packages| && packages[i].id == id
    ensures id in ById(packages) ==> ById(packages)[id] in packages && ById(packages)[id].id == id
  {
    if packages != [] {
      Entry(packages[..|packages| - 1], id);
      var last := packages[|packages| - 1];
      if last.id == id { assert packages[|packages| - 1].id == id; }
    }
  }

  /** Completing a package satisfies whoever depends on it, whatever its gate. */
  lemma CompleteSatisfiesDependents(l: Ledger, id: string)
    requires Valid(l) && id in ById(l.packages) && PackageComplete(ById(l.packages)[id])
    ensures DependencySatisfied(ById(l.packages)[id])
  {
    hide PackagesNamed, BlockersNamed, References, Startable, Referenced, PriorityComplete, Pending, ById;
    Entry(l.packages, id);
    var i :| 0 <= i < |l.packages| && l.packages[i] == ById(l.packages)[id];
    assert Consistent(l.packages[i]);
  }

  /** No open package blocker belongs to the package. */
  ghost predicate FreeOfBlockers(l: Ledger, id: string) {
    forall b :: b in l.blockers && b.open && b.blocks ==> b.owner != id
  }

  lemma UnblockedExactly(l: Ledger, id: string)
    requires Valid(l) && id in ById(l.packages)
    ensures Unblocked(ById(l.packages)[id], OpenBlockers(l.blockers)) <==> FreeOfBlockers(l, id)
  {
    hide PackagesNamed, Startable, PriorityComplete, Pending, ById, Consistent;
    Entry(l.packages, id);
    var p := ById(l.packages)[id];
    var k :| 0 <= k < |l.packages| && l.packages[k] == p;
    if Unblocked(p, OpenBlockers(l.blockers)) {
      forall b | b in l.blockers && b.open && b.blocks ensures b.owner != id {
        var i :| 0 <= i < |l.blockers| && l.blockers[i] == b;
        assert Referenced(l, l.blockers[i]);
        assert b.id in OpenBlockers(l.blockers);
      }
    }
    if FreeOfBlockers(l, id) {
      forall i | 0 <= i < |p.blockers| ensures p.blockers[i] !in OpenBlockers(l.blockers) {
        assert References(l, l.packages[k]);
        var o :| 0 <= o < |l.blockers| && l.blockers[o].id == p.blockers[i] && l.blockers[o].owner == p.id;
        OnlyBlocker(l, o, p.blockers[i]);
      }
    }
  }

  lemma OnlyBlocker(l: Ledger, o: nat, id: string)
    requires BlockersNamed(l) && o < |l.blockers| && l.blockers[o].id == id
    ensures id in OpenBlockers(l.blockers) <==> l.blockers[o].open && l.blockers[o].blocks
  {
    hide ById;
    if id in OpenBlockers(l.blockers) {
      var b :| b in l.blockers && b.open && b.blocks && b.id == id;
      var i :| 0 <= i < |l.blockers| && l.blockers[i] == b;
      assert i == o by { assert !(i < o) && !(o < i); }
    }
    if l.blockers[o].open && l.blockers[o].blocks { assert l.blockers[o] in l.blockers; }
  }

  /** In a valid ledger the runnable packages are exactly the unfinished ones that are neither
      "blocked" nor own an open package blocker; the dependency test decides nothing. */
  lemma RunnableExactly(l: Ledger)
    requires Valid(l)
    ensures forall id :: id in Runnable(ById(l.packages), OpenBlockers(l.blockers)) <==>
      && id in ById(l.packages) && ById(l.packages)[id].status != Blocked
      && !PackageComplete(ById(l.packages)[id]) && FreeOfBlockers(l, id)
  {
    hide PackagesNamed, BlockersNamed, Referenced, PriorityComplete, Pending, ById, Consistent, OpenBlockers, Unblocked,
      FreeOfBlockers, DependencySatisfied, PackageComplete;
    var packages := ById(l.packages);
    forall id | id in packages
      ensures Unblocked(packages[id], OpenBlockers(l.blockers)) <==> FreeOfBlockers(l, id)
      ensures packages[id].status != Blocked ==> DependenciesMet(packages[id], packages)
    {
      UnblockedExactly(l, id);
      Entry(l.packages, id);
      var k :| 0 <= k < |l.packages| && l.packages[k] == packages[id];
      assert References(l, l.packages[k]) && Startable(l, l.packages[k]);
    }
  }

  /** The dependency relation has no cycle: every package ranks above what it depends on. */
  ghost predicate Acyclic(packages: map<string, Package>, rank: string -> nat) {
    forall id, d :: id in packages && d in packages[id].dependsOn && d in packages ==> rank(d) < rank(id)
  }

  /** From an unfinished package, going down unfinished dependencies ends at one whose dependencies
      are all satisfied. */
  lemma {:induction false} SomeReady(l: Ledger, rank: string -> nat, id: string) returns (ready: string)
    requires Valid(l) && Acyclic(ById(l.packages), rank) && id in Unfinished(ById(l.packages))
    ensures ready in Unfinished(ById(l.packages)) && DependenciesMet(ById(l.packages)[ready], ById(l.packages))
    decreases rank(id)
  {
    hide PackagesNamed, BlockersNamed, Referenced, PriorityComplete, Pending, ById, Consistent, Startable, DependencySatisfied,
      PackageComplete;
    var packages := ById(l.packages);
    ready := id;
    if !DependenciesMet(packages[id], packages) {
      Entry(l.packages, id);
      var k :| 0 <= k < |l.packages| && l.packages[k] == packages[id];
      assert References(l, l.packages[k]);
      var dependsOn := packages[id].dependsOn;
      var i :| 0 <= i < |dependsOn| && !(dependsOn[i] in packages && DependencySatisfied(packages[dependsOn[i]]));
      var d := dependsOn[i];
      assert d in packages;
      if PackageComplete(packages[d]) {
        CompleteSatisfiesDependents(l, d);
      }
      ready := SomeReady(l, rank, d);
    }
  }

  lemma {:induction false} Selected(ids: seq<string>, chosen: set<string>, id: string)
    ensures id in Select(ids, chosen) <==> id in ids && id in chosen
  {
    if ids != [] {
      Selected(ids[..|ids| - 1], chosen, id);
      assert ids == ids[..|ids| - 1] + [ids[|ids| - 1]];
    }
  }

  /** Without a dependency cycle, pending work always includes a package whose dependencies are all
      satisfied; it can be run at once unless it is "blocked" or owns an open blocker. */
  lemma PendingWorkCanProceed(l: Ledger, rank: string -> nat) returns (id: string)
    requires Valid(l) && Acyclic(ById(l.packages), rank) && Pending(l) != []
    ensures id in Pending(l) && id in ById(l.packages) && DependenciesMet(ById(l.packages)[id], ById(l.packages))
    ensures id in Runnable(ById(l.packages), OpenBlockers(l.blockers)) <==>
      ById(l.packages)[id].status != Blocked && FreeOfBlockers(l, id)
  {
    hide ById, Select, Acyclic, Runnable, FreeOfBlockers, PackagesNamed, BlockersNamed, References, Consistent, Startable,
      Referenced, DependenciesMet, OpenBlockers, Unfinished;
    var unfinished := Unfinished(ById(l.packages));
    var first := Pending(l)[0];
    Selected(l.priority, unfinished, first);
    id := SomeReady(l, rank, first);
    UnfinishedPackage(ById(l.packages), id);
    assert id in l.priority;
    Selected(l.priority, unfinished, id);
    RunnableExactly(l);
  }

  lemma UnfinishedPackage(packages: map<string, Package>, id: string)
    requires id in Unfinished(packages)
    ensures id in packages && !PackageComplete(packages[id])
  {
  }

  /** In a valid ledger the release is ready exactly when its posture says so. */
  lemma ReleaseReadyExactly(l: Ledger)
    requires Valid(l)
    ensures ReleaseReady(l) <==> l.posture == ReadyToTag || l.posture == PostureReleased
    ensures ReleaseReady(l) ==> forall id :: id in ById(l.packages) ==> PackageComplete(ById(l.packages)[id])
  {
    hide ById, Select, PackagesNamed, BlockersNamed, References, Consistent, Startable, Referenced, PackageComplete;
    if ReleaseReady(l) {
      forall id | id in ById(l.packages) ensures PackageComplete(ById(l.packages)[id]) {
        Selected(l.priority, Unfinished(ById(l.packages)), id);
        assert id in l.priority;
      }
    }
  }

  /** The validator does not look for cycles: this ledger is valid, and its pending work can never
      have its dependencies satisfied. */
  lemma CycleIsValid() returns (l: Ledger)
    ensures Valid(l) && Pending(l) != []
    ensures forall id :: id in ById(l.packages) ==> !DependenciesMet(ById(l.packages)[id], ById(l.packages))
  {
    var a := Package("A", Blocked, MergedGate, false, false, ["B"], [], false);
    var b := Package("B", Blocked, MergedGate, false, false, ["A"], [], false);
    l := Ledger([a, b], [], ["A", "B"], Working);
    TwoPackages(a, b);
    hide ById, Select;
    var packages := ById([a, b]);
    assert a.dependsOn[0] == "B" && b.dependsOn[0] == "A";
    assert (set id | id in l.priority) == {"A", "B"} by {
      assert l.priority[0] == "A" && l.priority[1] == "B";
    }
    Selected(l.priority, Unfinished(packages), "A");
    assert l.priority[0] == "A";
  }

  lemma TwoPackages(a: Package, b: Package)
    requires a.id != b.id
    ensures ById([a, b]) == map[a.id := a, b.id := b]
  {
    assert [a, b][..1] == [a] && [a][..0] == [];
    assert ById([a]) == map[a.id := a];
  }
}
