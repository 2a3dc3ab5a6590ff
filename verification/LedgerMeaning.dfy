/** What the scheduler of the ledger answers, said of the rows of the ledger. */
module LedgerMeaning {
  import opened Ledger
  import Sorting

  /** The row that counts for an id: the last one that has it. */
  predicate RowOf(l: Ledger, id: string, p: Package) {
    exists i :: 0 <= i < |l.packages| && l.packages[i] == p && p.id == id
                && forall j :: i < j < |l.packages| ==> l.packages[j].id != id
  }

  predicate Complete(p: Package) {
    if p.gate == ProofBanked then p.proofBanked && p.status in {HardwareGreen, Merged, Released}
    else p.status in {Merged, Released}
  }

  /** Whoever depends on the package may start. */
  predicate Satisfied(p: Package) {
    || (p.gate == ProofBanked && p.proofBanked && p.status in {HardwareGreen, Merged, Released})
    || (p.gate == ImplementationMerged && p.implementationMerged
        && p.status in {InProgress, HostGreen, ActionsGreen, HardwareGreen, Merged, Released})
    || (p.gate == MergedGate && p.implementationMerged && p.status in {Merged, Released})
  }

  ghost predicate Incomplete(l: Ledger, id: string) {
    exists p :: RowOf(l, id, p) && !Complete(p)
  }

  /** Not complete, not "blocked", none of its blockers open, and all its dependencies satisfied. */
  ghost predicate Ready(l: Ledger, id: string) {
    exists p :: RowOf(l, id, p) && ReadyRow(l, p)
  }

  ghost predicate ReadyRow(l: Ledger, p: Package) {
    && !Complete(p) && p.status != Blocked
    && (forall b :: b in l.blockers && b.open && b.blocks ==> b.id !in p.blockers)
    && forall d :: d in p.dependsOn ==> exists q :: RowOf(l, d, q) && Satisfied(q)
  }

  /** These are increasing positions of the list, and `result` is what stands there. */
  predicate Picked(list: seq<string>, result: seq<string>, positions: seq<nat>) {
    && |positions| == |result|
    && (forall k :: 0 <= k < |result| ==> positions[k] < |list| && result[k] == list[positions[k]])
    && forall j, k :: 0 <= j < k < |result| ==> positions[j] < positions[k]
  }

  // ----- rows

  /** The last row decides for its id. */
  lemma RowOfStep(l: Ledger, init: Ledger, id: string, p: Package)
    requires l.packages != [] && init.packages == l.packages[..|l.packages| - 1]
    ensures var last := l.packages[|l.packages| - 1];
      RowOf(l, id, p) <==> if last.id == id then p == last else RowOf(init, id, p)
  {
    var n := |l.packages| - 1;
    if RowOf(init, id, p) && l.packages[n].id != id {
      var i :| 0 <= i < n && init.packages[i] == p && p.id == id
        && forall j :: i < j < n ==> init.packages[j].id != id;
      assert l.packages[i] == p;
      forall j | i < j < |l.packages| ensures l.packages[j].id != id {
        if j < n { assert init.packages[j].id != id; }
      }
    }
    if RowOf(l, id, p) {
      var i :| 0 <= i < |l.packages| && l.packages[i] == p && p.id == id
        && forall j :: i < j < |l.packages| ==> l.packages[j].id != id;
      if i < n {
        assert init.packages[i] == p;
        assert forall j :: i < j < n ==> init.packages[j].id == l.packages[j].id;
      }
    }
  }

  lemma {:induction false} EntryExactly(packages: seq<Package>, l: Ledger, id: string, p: Package)
    requires l.packages == packages
    ensures RowOf(l, id, p) <==> id in ById(packages) && ById(packages)[id] == p
  {
    if packages != [] {
      var init := l.(packages := packages[..|packages| - 1]);
      EntryExactly(init.packages, init, id, p);
      RowOfStep(l, init, id, p);
      hide RowOf;
    }
  }

  lemma CompleteExactly(p: Package)
    ensures PackageComplete(p) <==> Complete(p)
    ensures DependencySatisfied(p) <==> Satisfied(p)
  {
  }

  lemma IncompleteExactly(l: Ledger, id: string)
    ensures id in Unfinished(ById(l.packages)) <==> Incomplete(l, id)
  {
    Entries(l);
    Completions();
    hide ById, RowOf, PackageComplete, Complete;
    if id in ById(l.packages) {
      assert RowOf(l, id, ById(l.packages)[id]);
    }
  }

  lemma Entries(l: Ledger)
    ensures forall id, p :: RowOf(l, id, p) <==> id in ById(l.packages) && ById(l.packages)[id] == p
  {
    forall id, p ensures RowOf(l, id, p) <==> id in ById(l.packages) && ById(l.packages)[id] == p {
      EntryExactly(l.packages, l, id, p);
    }
  }

  lemma Completions()
    ensures forall p :: PackageComplete(p) <==> Complete(p)
    ensures forall p :: DependencySatisfied(p) <==> Satisfied(p)
  {
    forall p ensures (PackageComplete(p) <==> Complete(p)) && (DependencySatisfied(p) <==> Satisfied(p)) {
      CompleteExactly(p);
    }
  }

  lemma BlockersExactly(l: Ledger, p: Package)
    ensures Unblocked(p, OpenBlockers(l.blockers)) <==>
      forall b :: b in l.blockers && b.open && b.blocks ==> b.id !in p.blockers
  {
    if Unblocked(p, OpenBlockers(l.blockers)) {
      forall b | b in l.blockers && b.open && b.blocks ensures b.id !in p.blockers {
        assert b.id in OpenBlockers(l.blockers);
      }
    } else {
      var i :| 0 <= i < |p.blockers| && p.blockers[i] in OpenBlockers(l.blockers);
      var b :| b in l.blockers && b.open && b.blocks && b.id == p.blockers[i];
    }
  }

  lemma DependenciesExactly(l: Ledger, p: Package)
    ensures DependenciesMet(p, ById(l.packages)) <==>
      forall d :: d in p.dependsOn ==> exists q :: RowOf(l, d, q) && Satisfied(q)
  {
    Entries(l);
    Completions();
    hide ById, RowOf, DependencySatisfied, Satisfied;
    var packages := ById(l.packages);
    forall d ensures (exists q :: RowOf(l, d, q) && Satisfied(q)) <==> d in packages && DependencySatisfied(packages[d]) {
      if d in packages {
        assert RowOf(l, d, packages[d]);
      }
    }
    if !DependenciesMet(p, packages) {
      var i :| 0 <= i < |p.dependsOn| && !(p.dependsOn[i] in packages && DependencySatisfied(packages[p.dependsOn[i]]));
      assert p.dependsOn[i] in p.dependsOn;
    }
  }

  lemma ReadyExactly(l: Ledger, id: string)
    ensures id in Runnable(ById(l.packages), OpenBlockers(l.blockers)) <==> Ready(l, id)
  {
    var packages := ById(l.packages);
    Entries(l);
    Completions();
    hide ById, RowOf, PackageComplete, Complete, DependencySatisfied, Satisfied, OpenBlockers;
    if id in packages {
      BlockersExactly(l, packages[id]);
      DependenciesExactly(l, packages[id]);
      assert RowOf(l, id, packages[id]);
    }
    hide Unblocked, DependenciesMet;
  }

  // ----- the order

  /** The positions picked are exactly those of the chosen elements. */
  ghost predicate PicksAll(ids: seq<string>, chosen: set<string>, positions: seq<nat>) {
    forall i: nat :: i < |ids| ==> (i in positions <==> ids[i] in chosen)
  }

  lemma OneMore(ids: seq<string>, chosen: set<string>, result: seq<string>, positions: seq<nat>)
    requires ids != [] && Picked(ids[..|ids| - 1], result, positions) && PicksAll(ids[..|ids| - 1], chosen, positions)
    ensures var n: nat := |ids| - 1;
      var pick := ids[n] in chosen;
      Picked(ids, result + if pick then [ids[n]] else [], positions + if pick then [n] else [])
    ensures var n: nat := |ids| - 1;
      PicksAll(ids, chosen, positions + if ids[n] in chosen then [n] else [])
  {
    var n: nat := |ids| - 1;
    var init := ids[..n];
    forall i: nat | i < n ensures i in positions <==> ids[i] in chosen {
      assert init[i] == ids[i];
    }
    assert n !in positions;
    forall k | 0 <= k < |positions| ensures positions[k] < n && result[k] == ids[positions[k]] {
      assert init[positions[k]] == ids[positions[k]];
    }
  }

  /** What is selected stands in the order of the list, as often as the list has it. */
  lemma {:induction false} SelectedInOrder(ids: seq<string>, chosen: set<string>) returns (positions: seq<nat>)
    ensures Picked(ids, Select(ids, chosen), positions) && PicksAll(ids, chosen, positions)
  {
    if ids == [] {
      positions := [];
    } else {
      hide Picked, PicksAll;
      var n := |ids| - 1;
      var init := SelectedInOrder(ids[..n], chosen);
      OneMore(ids, chosen, Select(ids[..n], chosen), init);
      positions := init + if ids[n] in chosen then [n] else [];
    }
  }

  /** The runnable packages come in the order of the priority list, and they are all that is ready. */
  lemma RunnableInOrder(l: Ledger) returns (positions: seq<nat>)
    ensures Picked(l.priority, Select(l.priority, Runnable(ById(l.packages), OpenBlockers(l.blockers))), positions)
    ensures forall i: nat :: i < |l.priority| ==> (i in positions <==> Ready(l, l.priority[i]))
  {
    positions := SelectedInOrder(l.priority, Runnable(ById(l.packages), OpenBlockers(l.blockers)));
    hide Picked, Select, Runnable, Ready, ById, OpenBlockers;
    forall i: nat | i < |l.priority| ensures i in positions <==> Ready(l, l.priority[i]) {
      ReadyExactly(l, l.priority[i]);
    }
  }

  /** So do the pending packages, and they are all that is not complete. */
  lemma PendingInOrder(l: Ledger) returns (positions: seq<nat>)
    ensures Picked(l.priority, Pending(l), positions)
    ensures forall i: nat :: i < |l.priority| ==> (i in positions <==> Incomplete(l, l.priority[i]))
  {
    positions := SelectedInOrder(l.priority, Unfinished(ById(l.packages)));
    hide Picked, Select, Incomplete, ById, Unfinished;
    forall i: nat | i < |l.priority| ensures i in positions <==> Incomplete(l, l.priority[i]) {
      IncompleteExactly(l, l.priority[i]);
    }
  }

  /** The release is ready exactly when its posture says so and nothing in the list is incomplete. */
  lemma ReadyToRelease(l: Ledger)
    ensures ReleaseReady(l) <==>
      && (l.posture == ReadyToTag || l.posture == PostureReleased)
      && forall i :: 0 <= i < |l.priority| ==> !Incomplete(l, l.priority[i])
  {
    var positions := PendingInOrder(l);
    hide Incomplete, Pending;
    if Pending(l) == [] {
      assert positions == [];
    } else {
      var first := positions[0];
      assert first in positions;
      assert Incomplete(l, l.priority[first]);
    }
  }

  // ----- validity

  predicate IsPackage(l: Ledger, id: string) {
    exists p :: p in l.packages && p.id == id
  }

  /** A package row, its references resolved and its dependencies satisfied before it starts. */
  ghost predicate PackageRow(l: Ledger, p: Package) {
    && p.id != ""
    && (forall d :: d in p.dependsOn ==> d != p.id && IsPackage(l, d))
    && (forall b :: b in p.blockers ==> exists row :: row in l.blockers && row.id == b && row.owner == p.id)
    && (p.status in {HardwareGreen, Merged, Released} || p.proofBanked ==> !p.lacksEvidence)
    && (p.proofBanked ==> p.status in {HardwareGreen, Merged, Released})
    && (p.status == HardwareGreen ==> p.proofBanked)
    && (p.status in {Merged, Released} ==> p.implementationMerged)
    && (p.status != Blocked ==> forall q :: q in l.packages && q.id in p.dependsOn ==> Satisfied(q))
  }

  /** A blocker row; an open package blocker is referenced by its owner. */
  predicate BlockerRow(l: Ledger, b: Blocker) {
    IsPackage(l, b.owner) && forall p :: p in l.packages && p.id == b.owner && b.open && b.blocks ==> b.id in p.blockers
  }

  lemma NamedOnce(l: Ledger)
    requires PackagesNamed(l)
    ensures forall id, p :: id in ById(l.packages) && ById(l.packages)[id] == p <==> p in l.packages && p.id == id
  {
    Entries(l);
    hide ById;
    forall id, p ensures id in ById(l.packages) && ById(l.packages)[id] == p <==> p in l.packages && p.id == id {
      assert RowOf(l, id, p) <==> id in ById(l.packages) && ById(l.packages)[id] == p;
      if p in l.packages && p.id == id {
        var i :| 0 <= i < |l.packages| && l.packages[i] == p;
        assert forall j :: i < j < |l.packages| ==> l.packages[j].id != id;
        assert RowOf(l, id, p);
      }
      if RowOf(l, id, p) {
        var i :| 0 <= i < |l.packages| && l.packages[i] == p && p.id == id;
      }
    }
  }

  lemma PackagesKnown(l: Ledger)
    ensures forall id :: IsPackage(l, id) <==> id in ById(l.packages)
  {
    forall id ensures IsPackage(l, id) <==> id in ById(l.packages) {
      Entry(l.packages, id);
      if p :| p in l.packages && p.id == id {
        var i :| 0 <= i < |l.packages| && l.packages[i] == p;
      }
    }
  }

  lemma ReferencesExactly(l: Ledger, p: Package)
    ensures References(l, p) <==>
      && (forall d :: d in p.dependsOn ==> d != p.id && IsPackage(l, d))
      && forall b :: b in p.blockers ==> exists row :: row in l.blockers && row.id == b && row.owner == p.id
  {
    PackagesKnown(l);
    hide ById, IsPackage;
    forall b ensures Owned(l, b, p.id) <==> exists row :: row in l.blockers && row.id == b && row.owner == p.id {
      if row :| row in l.blockers && row.id == b && row.owner == p.id {
        var i :| 0 <= i < |l.blockers| && l.blockers[i] == row;
      }
    }
    hide Owned;
    if References(l, p) {
      forall d | d in p.dependsOn ensures d != p.id && IsPackage(l, d) {
        var i :| 0 <= i < |p.dependsOn| && p.dependsOn[i] == d;
      }
      forall b | b in p.blockers ensures exists row :: row in l.blockers && row.id == b && row.owner == p.id {
        var i :| 0 <= i < |p.blockers| && p.blockers[i] == b;
        assert Owned(l, p.blockers[i], p.id);
      }
    } else if i :| 0 <= i < |p.dependsOn| && (p.dependsOn[i] == p.id || p.dependsOn[i] !in ById(l.packages)) {
      assert p.dependsOn[i] in p.dependsOn;
    } else {
      var k :| 0 <= k < |p.blockers| && !Owned(l, p.blockers[k], p.id);
      assert p.blockers[k] in p.blockers;
    }
  }

  lemma StartableExactly(l: Ledger, p: Package)
    requires PackagesNamed(l)
    ensures Startable(l, p) <==>
      (p.status != Blocked ==> forall q :: q in l.packages && q.id in p.dependsOn ==> Satisfied(q))
  {
    NamedOnce(l);
    Completions();
    hide ById, DependencySatisfied, Satisfied, PackagesNamed;
    if p.status != Blocked && Startable(l, p) {
      forall q | q in l.packages && q.id in p.dependsOn ensures Satisfied(q) {
        var i :| 0 <= i < |p.dependsOn| && p.dependsOn[i] == q.id;
      }
    }
    if p.status != Blocked && !Startable(l, p) {
      var i :| 0 <= i < |p.dependsOn| && p.dependsOn[i] in ById(l.packages)
        && !DependencySatisfied(ById(l.packages)[p.dependsOn[i]]);
      var q := ById(l.packages)[p.dependsOn[i]];
      assert q in l.packages && q.id in p.dependsOn;
    }
  }

  lemma PackageRowExactly(l: Ledger, p: Package)
    requires PackagesNamed(l) && p in l.packages
    ensures PackageRow(l, p) <==> References(l, p) && Consistent(p) && Startable(l, p)
  {
    ReferencesExactly(l, p);
    StartableExactly(l, p);
    assert p.id != "" by {
      var i :| 0 <= i < |l.packages| && l.packages[i] == p;
    }
    hide References, Startable, IsPackage, PackagesNamed, Satisfied;
  }

  lemma BlockerRowExactly(l: Ledger, b: Blocker)
    requires PackagesNamed(l)
    ensures BlockerRow(l, b) <==> b.owner in ById(l.packages) && Referenced(l, b)
  {
    PackagesKnown(l);
    NamedOnce(l);
    hide ById, IsPackage, PackagesNamed;
  }

  /** The priority list names every package once and nothing else. */
  lemma PriorityExactly(l: Ledger)
    ensures PriorityComplete(l) <==>
      && (forall id :: id in l.priority <==> IsPackage(l, id))
      && forall i, j :: 0 <= i < j < |l.priority| ==> l.priority[i] != l.priority[j]
  {
    PackagesKnown(l);
    hide ById, IsPackage;
    Sorting.DistinctBySize(l.priority);
    var listed := Sorting.ToSet(l.priority);
    assert listed == set id | id in l.priority;
    if forall id :: id in l.priority <==> IsPackage(l, id) {
      assert listed == ById(l.packages).Keys;
    }
    if PriorityComplete(l) {
      assert forall id :: id in l.priority <==> id in listed;
    }
  }

  /** No validation error exactly when all of this holds of the rows. */
  lemma ValidSpelledOut(l: Ledger)
    ensures Valid(l) <==>
      && (forall i, j :: 0 <= i < j < |l.packages| ==> l.packages[i].id != l.packages[j].id)
      && (forall p :: p in l.packages ==> PackageRow(l, p))
      && (forall i, j :: 0 <= i < j < |l.blockers| ==> l.blockers[i].id != l.blockers[j].id)
      && (forall b :: b in l.blockers ==> BlockerRow(l, b))
      && (forall id :: id in l.priority <==> IsPackage(l, id))
      && (forall i, j :: 0 <= i < j < |l.priority| ==> l.priority[i] != l.priority[j])
      && (l.posture != Working ==> forall p :: p in l.packages ==> Complete(p))
  {
    hide PackageRow, BlockerRow, IsPackage, PackagesNamed, References, Consistent, Startable, Referenced, PriorityComplete,
      Pending, Complete, ById;
    NamesExactly(l);
    PriorityExactly(l);
    if PackagesNamed(l) {
      PackageRowsExactly(l);
      BlockerRowsExactly(l);
      if PriorityComplete(l) {
        NothingPending(l);
      }
    }
  }

  lemma NamesExactly(l: Ledger)
    ensures
      (forall i, j :: 0 <= i < j < |l.packages| ==> l.packages[i].id != l.packages[j].id)
      && (forall p :: p in l.packages ==> PackageRow(l, p)) ==>
        PackagesNamed(l)
    ensures PackagesNamed(l) ==> forall i, j :: 0 <= i < j < |l.packages| ==> l.packages[i].id != l.packages[j].id
  {
    hide IsPackage, Satisfied;
    if forall p :: p in l.packages ==> PackageRow(l, p) {
      forall i | 0 <= i < |l.packages| ensures l.packages[i].id != "" {
        assert PackageRow(l, l.packages[i]);
      }
    }
  }

  lemma PackageRowsExactly(l: Ledger)
    requires PackagesNamed(l)
    ensures (forall p :: p in l.packages ==> PackageRow(l, p)) <==>
      forall i :: 0 <= i < |l.packages| ==>
        References(l, l.packages[i]) && Consistent(l.packages[i]) && Startable(l, l.packages[i])
  {
    forall i | 0 <= i < |l.packages|
      ensures PackageRow(l, l.packages[i])
          <==> References(l, l.packages[i]) && Consistent(l.packages[i]) && Startable(l, l.packages[i])
    {
      PackageRowExactly(l, l.packages[i]);
    }
    hide PackageRow, References, Consistent, Startable, PackagesNamed;
    if forall p :: p in l.packages ==> PackageRow(l, p) {
      assert forall i :: 0 <= i < |l.packages| ==> PackageRow(l, l.packages[i]);
    }
  }

  lemma BlockerRowsExactly(l: Ledger)
    requires PackagesNamed(l)
    ensures (forall b :: b in l.blockers ==> BlockerRow(l, b)) <==>
      forall i :: 0 <= i < |l.blockers| ==> l.blockers[i].owner in ById(l.packages) && Referenced(l, l.blockers[i])
  {
    forall i | 0 <= i < |l.blockers|
      ensures BlockerRow(l, l.blockers[i]) <==> l.blockers[i].owner in ById(l.packages) && Referenced(l, l.blockers[i])
    {
      BlockerRowExactly(l, l.blockers[i]);
    }
    hide BlockerRow, Referenced, PackagesNamed, ById;
    if forall b :: b in l.blockers ==> BlockerRow(l, b) {
      assert forall i :: 0 <= i < |l.blockers| ==> BlockerRow(l, l.blockers[i]);
    }
  }

  /** Nothing is pending exactly when every package is complete. */
  lemma NothingPending(l: Ledger)
    requires PackagesNamed(l) && PriorityComplete(l)
    ensures Pending(l) == [] <==> forall p :: p in l.packages ==> Complete(p)
  {
    PriorityExactly(l);
    NamedOnce(l);
    Entries(l);
    hide ById, PackagesNamed, PriorityComplete, RowOf, Complete;
    var positions := PendingInOrder(l);
    hide Pending;
    if Pending(l) == [] {
      forall p | p in l.packages ensures Complete(p) {
        assert IsPackage(l, p.id);
        var i :| 0 <= i < |l.priority| && l.priority[i] == p.id;
        assert !Incomplete(l, l.priority[i]);
        assert RowOf(l, p.id, p);
      }
    } else {
      assert positions[0] in positions;
      var p :| RowOf(l, l.priority[positions[0]], p) && !Complete(p);
      assert p in l.packages;
    }
  }
}
