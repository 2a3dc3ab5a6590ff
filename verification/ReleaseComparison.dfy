/** The release reproducibility comparison: manifest normalisation, one package's snapshot and
    the eight checks on two snapshots. */
module ReleaseComparison {
  import opened Results
  import opened JsonModel
  import opened JsonPointer
  import opened JsonDiff
  import opened ManifestMask
  import opened PermittedDifferences
  import ChecksumList

  // ----- the normaliser, field by field

  /** `copy[k] = Str(v)` */
  method SetField(original: Json, copy: Json, k: string, v: string, ghost entries: map<string, Mask>)
      returns (r: Json, ghost entries': map<string, Mask>)
    requires original.Obj? && copy == Masked(original, Inside(entries)) && k !in entries
    ensures r.Obj? && r.fields == copy.fields[k := Str(v)]
    ensures entries' == entries[k := Replace(Str(v))] && r == Masked(original, Inside(entries'))
  {
    OverwriteField(original, copy, entries, k, Str(v));
    r := Obj(copy.fields[k := Str(v)]);
    entries' := entries[k := Replace(Str(v))];
  }

  function ReceiptMask(generated: string, expires: string, sha: string, size: string): Mask {
    Inside(map["generated_at" := Replace(Str(generated)), "expires_at" := Replace(Str(expires)),
               "sha256" := Replace(Str(sha)), "size" := Replace(Str(size))])
  }

  method OverwriteReceipt(receipt: Json, generated: string, expires: string, sha: string, size: string)
      returns (r: Json)
    ensures r == Masked(receipt, ReceiptMask(generated, expires, sha, size))
  {
    r := receipt;
    if receipt.Obj? {
      NothingOverwritten(receipt);
      ghost var done: map<string, Mask> := map[];
      r, done := SetField(receipt, r, "generated_at", generated, done);
      r, done := SetField(receipt, r, "expires_at", expires, done);
      r, done := SetField(receipt, r, "sha256", sha, done);
      r, done := SetField(receipt, r, "size", size, done);
    }
  }

  /** The proof section `normalized[k]`: only its `run_receipt` object is rewritten. */
  method OverwriteSection(section: Json, generated: string, expires: string, sha: string, size: string)
      returns (r: Json)
    ensures r == Masked(section, Inside(map["run_receipt" := ReceiptMask(generated, expires, sha, size)]))
  {
    r := section;
    if section.Obj? {
      NothingOverwritten(section);
      OverwriteMember(section, section, map[], "run_receipt", ReceiptMask(generated, expires, sha, size));
      if "run_receipt" in section.fields {
        var receipt := OverwriteReceipt(section.fields["run_receipt"], generated, expires, sha, size);
        r := Obj(section.fields["run_receipt" := receipt]);
      }
    }
  }

  method OverwriteWorkflow(workflow: Json) returns (r: Json)
    requires workflow.Obj?
    ensures r == Masked(workflow, WORKFLOW)
  {
    NothingOverwritten(workflow);
    ghost var done: map<string, Mask> := map[];
    r, done := SetField(workflow, workflow, "run_id", "<permitted-run-id>", done);
    r, done := SetField(workflow, r, "run_attempt", "<permitted-run-attempt>", done);
    r, done := SetField(workflow, r, "run_url", "<permitted-run-url>", done);
  }

  /** The optional section `copy[k]`, rewritten in place when present. */
  method SetSection(original: Json, copy: Json, k: string, generated: string, expires: string, sha: string,
                    size: string, ghost entries: map<string, Mask>)
      returns (r: Json, ghost entries': map<string, Mask>)
    requires original.Obj? && copy == Masked(original, Inside(entries)) && k !in entries
    ensures r.Obj? && entries' == entries[k := Inside(map["run_receipt" := ReceiptMask(generated, expires, sha, size)])]
    ensures r == Masked(original, Inside(entries'))
  {
    ghost var m := Inside(map["run_receipt" := ReceiptMask(generated, expires, sha, size)]);
    OverwriteMember(original, copy, entries, k, m);
    r, entries' := copy, entries[k := m];
    if k in copy.fields {
      var section := OverwriteSection(copy.fields[k], generated, expires, sha, size);
      r := Obj(copy.fields[k := section]);
    }
  }

  method OverwriteRunIdentity(manifest: Json) returns (r: Json, ghost entries: map<string, Mask>)
    requires manifest.Obj?
    ensures entries == map["created_at" := Replace(Str("<permitted-created-at>")),
                           "source_build_dir" := Replace(Str("<permitted-source-build-dir>")),
                           "actions_run" := Replace(Str("<permitted-run-id>")),
                           "actions_run_attempt" := Replace(Str("<permitted-run-attempt>"))]
    ensures r.Obj? && r == Masked(manifest, Inside(entries))
  {
    NothingOverwritten(manifest);
    r, entries := manifest, map[];
    r, entries := SetField(manifest, r, "created_at", "<permitted-created-at>", entries);
    r, entries := SetField(manifest, r, "source_build_dir", "<permitted-source-build-dir>", entries);
    r, entries := SetField(manifest, r, "actions_run", "<permitted-run-id>", entries);
    r, entries := SetField(manifest, r, "actions_run_attempt", "<permitted-run-attempt>", entries);
  }

  /** `normalize_manifest`: raises (KeyError or TypeError) unless `workflow` is an object. */
  method NormalizeManifest(manifest: Json) returns (r: Option<Json>)
    requires manifest.Obj?
    ensures r.Some? <==> Normalizable(manifest)
    ensures r.Some? ==> r.value == Masked(manifest, MANIFEST)
  {
    var n, done := OverwriteRunIdentity(manifest);
    OverwriteMember(manifest, n, done, "workflow", WORKFLOW);
    if "workflow" !in n.fields || !n.fields["workflow"].Obj? {
      return None;
    }
    var workflow := OverwriteWorkflow(n.fields["workflow"]);
    n := Obj(n.fields["workflow" := workflow]);
    done := done["workflow" := WORKFLOW];
    n, done := SetSection(manifest, n, "meshcore_conformance",
      "<permitted-conformance-generated-at>", "<permitted-conformance-expires-at>",
      "<permitted-conformance-run-receipt-sha256>", "<permitted-conformance-run-receipt-size>", done);
    n, done := SetSection(manifest, n, "meshcore_signed_advert_runtime",
      "<permitted-signed-advert-generated-at>", "<permitted-signed-advert-expires-at>",
      "<permitted-signed-advert-run-receipt-sha256>", "<permitted-signed-advert-run-receipt-size>", done);
    return Some(n);
  }

  // ----- one package

  /** What later checks read of a loaded package. `materials` and `toolchain` stand for the
      provenance descriptors and their fingerprint. */
  datatype Snapshot = Snapshot(
    runId: string, manifest: Json, normalized: Json, inventory: map<string, string>,
    stable: map<string, string>, comparable: map<string, string>, materials: Json, toolchain: string)

  /** The three file names whose bytes may differ: the list itself, the read-me, the manifest. */
  datatype Variable = Variable(sums: string, readme: string, manifest: string)

  const VARIABLE := Variable(ChecksumList.SUMS, "README_RELEASE.md", "manifest.json")

  ghost predicate Loaded(s: Snapshot, mask: Mask, v: Variable) {
    && s.manifest.Obj? && s.normalized == Masked(s.manifest, mask)
    && {v.sums, v.readme, v.manifest} <= s.inventory.Keys
    && s.stable == s.inventory - {v.sums, v.readme, v.manifest}
    && s.comparable == s.stable
  }

  /** `load_snapshot`; `others` says whether the checks of the manifest's shape, the SBOM, the
      provenance and the toolchain lock all pass. */
  method LoadSnapshot(runId: string, manifest: Json, inventory: map<string, string>, lines: seq<string>,
                      required: set<string>, others: bool, materials: Json, toolchain: string)
      returns (r: Option<Snapshot>)
    requires manifest.Obj? && {VARIABLE.sums, VARIABLE.readme, VARIABLE.manifest} <= required
    ensures r.Some? <==> && ChecksumList.Lists(lines, inventory) && lines != [] && required <= inventory.Keys
                         && others && Normalizable(manifest)
    ensures r.Some? ==> Loaded(r.value, MANIFEST, VARIABLE)
    ensures r.Some? ==> && r.value.manifest == manifest && r.value.inventory == inventory && r.value.runId == runId
                        && r.value.materials == materials && r.value.toolchain == toolchain
  {
    var checksums := ChecksumList.ChecksumManifest(lines, inventory);
    if checksums.Failure? || !(required <= inventory.Keys) || !others {
      return None;
    }
    var normalized := NormalizeManifest(manifest);
    if normalized.None? {
      return None;
    }
    var stable, comparable := Partition(inventory, checksums.value, VARIABLE);
    return Some(Snapshot(runId, manifest, normalized.value, inventory, stable, comparable, materials, toolchain));
  }

  /** The two maps are built by different filters over different sources, and coincide. */
  method Partition(inventory: map<string, string>, checksums: map<string, string>, v: Variable)
      returns (stable: map<string, string>, comparable: map<string, string>)
    requires checksums == inventory - {v.sums}
    ensures stable == comparable == inventory - {v.sums, v.readme, v.manifest}
  {
    stable := map p | p in inventory && p !in {v.readme, v.sums, v.manifest} :: inventory[p];
    comparable := map p | p in checksums && p !in {v.manifest, v.readme} :: checksums[p];
  }

  // ----- two packages

  datatype Checks = Checks(
    distinctRuns: bool, inventoryMatch: bool, payloadMatch: bool, checksumMapMatch: bool,
    manifestMatch: bool, inputsMatch: bool, toolchainMatch: bool, identityMatch: bool)
  {
    /** `all(checks.values())` */
    predicate All() {
      distinctRuns && inventoryMatch && payloadMatch && checksumMapMatch
      && manifestMatch && inputsMatch && toolchainMatch && identityMatch
    }
  }

  /** The code of a failed check. */
  datatype Failure =
    | SameActionsRun | PackageInventoryMismatch | PayloadMismatch | ChecksumMapMismatch | ManifestMismatch
    | ResolvedInputMismatch | ToolchainMismatch | PackageIdentityMismatch

  /** One code more when a check failed. */
  function Noted(failures: seq<Failure>, ok: bool, code: Failure): (r: seq<Failure>)
    ensures forall c :: c in r <==> c in failures || (c == code && !ok)
    ensures r == [] <==> failures == [] && ok
  {
    if ok then failures else failures + [code]
  }

  function Find(m: map<string, string>, k: string): Option<string> {
    if k in m then Some(m[k]) else None
  }

  ghost predicate IdentityUntouched(tables: Tables) {
    FieldUntouched(tables, "project") && FieldUntouched(tables, "package") && FieldUntouched(tables, "app_version")
  }

  /** `compare_with_identity` on two loaded snapshots: of the eight checks, five decide.
      `failures` holds one code per failed check; their final order is not modelled. */
  method CompareSnapshots(first: Snapshot, second: Snapshot, tables: Tables, ghost v: Variable)
      returns (checks: Checks, failures: seq<Failure>, reproducible: bool)
    requires Agree(tables) && IdentityUntouched(tables)
    requires Loaded(first, tables.mask, v) && Loaded(second, tables.mask, v)
    ensures checks.payloadMatch == checks.checksumMapMatch == (first.stable == second.stable)
    ensures checks.manifestMatch == OnlyPermittedPaths(tables, first.manifest, second.manifest)
    ensures checks.inventoryMatch == (first.inventory.Keys == second.inventory.Keys)
    ensures checks.distinctRuns == (first.runId != second.runId)
    ensures checks.inputsMatch == PyEq(first.materials, second.materials)
    ensures checks.toolchainMatch == (first.toolchain == second.toolchain)
    ensures checks.identityMatch <==>
      && PyEq(Get(first.manifest, "project"), Get(second.manifest, "project"))
      && PyEq(Get(first.manifest, "package"), Get(second.manifest, "package"))
      && PyEq(Get(first.manifest, "app_version"), Get(second.manifest, "app_version"))
    ensures SameActionsRun in failures <==> !checks.distinctRuns
    ensures PackageInventoryMismatch in failures <==> !checks.inventoryMatch
    ensures PayloadMismatch in failures <==> !checks.payloadMatch
    ensures ChecksumMapMismatch in failures <==> !checks.checksumMapMatch
    ensures ManifestMismatch in failures <==> !checks.manifestMatch
    ensures ResolvedInputMismatch in failures <==> !checks.inputsMatch
    ensures ToolchainMismatch in failures <==> !checks.toolchainMatch
    ensures PackageIdentityMismatch in failures <==> !checks.identityMatch
    ensures failures == [] <==> reproducible
    ensures reproducible <==>
      && first.runId != second.runId
      && first.stable == second.stable
      && OnlyPermittedPaths(tables, first.manifest, second.manifest)
      && PyEq(first.materials, second.materials)
      && first.toolchain == second.toolchain
  {
    hide Noted, PyEq, Get, OnlyPermittedPaths, IdentityUntouched, Agree;
    failures := [];
    var distinct := first.runId != second.runId;
    failures := Noted(failures, distinct, SameActionsRun);
    var inventoryMatch := first.inventory.Keys == second.inventory.Keys;
    failures := Noted(failures, inventoryMatch, PackageInventoryMismatch);
    var payloadMatch := NoMismatch(first.stable, second.stable);
    failures := Noted(failures, payloadMatch, PayloadMismatch);
    var checksumMapMatch := first.comparable == second.comparable;
    failures := Noted(failures, checksumMapMatch, ChecksumMapMismatch);
    var manifestMatch := ManifestsMatch(first, second, tables);
    failures := Noted(failures, manifestMatch, ManifestMismatch);
    var inputsMatch := PyEq(first.materials, second.materials);
    failures := Noted(failures, inputsMatch, ResolvedInputMismatch);
    var toolchainMatch := first.toolchain == second.toolchain;
    failures := Noted(failures, toolchainMatch, ToolchainMismatch);
    var identityMatch := SameIdentity(first.manifest, second.manifest);
    failures := Noted(failures, identityMatch, PackageIdentityMismatch);
    checks := Checks(distinct, inventoryMatch, payloadMatch, checksumMapMatch, manifestMatch,
                     inputsMatch, toolchainMatch, identityMatch);
    reproducible := failures == [] && checks.All();
    if manifestMatch { PermittedPathsKeepIdentity(tables, first.manifest, second.manifest); }
    if payloadMatch { SameStableKeys(first, second, tables.mask, v); }
  }

  /** `not payload_mismatches` */
  method NoMismatch(a: map<string, string>, b: map<string, string>) returns (none: bool)
    ensures none <==> a == b
  {
    var mismatched := set p | p in a.Keys + b.Keys && Find(a, p) != Find(b, p);
    none := mismatched == {};
    if none {
      forall p ensures p in a <==> p in b {
        if p in a || p in b { assert p !in mismatched; }
      }
      forall p | p in a ensures a[p] == b[p] { assert p !in mismatched; }
      assert a == b;
    }
  }

  /** The normalised manifests are equal and no observed path is unpermitted. */
  method ManifestsMatch(first: Snapshot, second: Snapshot, tables: Tables) returns (r: bool)
    requires Agree(tables)
    requires first.normalized == Masked(first.manifest, tables.mask)
    requires second.normalized == Masked(second.manifest, tables.mask)
    ensures r == OnlyPermittedPaths(tables, first.manifest, second.manifest)
  {
    var observed := JsonDifferencePaths(first.manifest, second.manifest, "", []);
    var permitted := set t | t in tables.permitted :: Pointer(t);
    var unpermitted := (set p | p in observed) - permitted;
    r := PyEq(first.normalized, second.normalized) && unpermitted == {};
    assert forall p :: Permitted(tables, p) <==> p in permitted;
    assert unpermitted == {} <==> forall p :: p in observed ==> p in permitted by {
      if unpermitted != {} { var p :| p in unpermitted; assert p in observed && p !in permitted; }
      if unpermitted == {} {
        forall p | p in observed ensures p in permitted { assert p !in unpermitted; }
      }
    }
    if OnlyPermittedPaths(tables, first.manifest, second.manifest) {
      PermittedPathsGiveEqualNormals(tables, first.manifest, second.manifest);
    }
  }

  predicate SameIdentity(a: Json, b: Json) {
    PyEq(Get(a, "project"), Get(b, "project")) && PyEq(Get(a, "package"), Get(b, "package"))
    && PyEq(Get(a, "app_version"), Get(b, "app_version"))
  }

  lemma PermittedPathsKeepIdentity(tables: Tables, a: Json, b: Json)
    requires Agree(tables) && OnlyPermittedPaths(tables, a, b) && IdentityUntouched(tables) && a.Obj? && b.Obj?
    ensures SameIdentity(a, b)
  {
    UntouchedFieldsAgree(tables, a, b, "project");
    UntouchedFieldsAgree(tables, a, b, "package");
    UntouchedFieldsAgree(tables, a, b, "app_version");
  }

  lemma SameStableKeys(first: Snapshot, second: Snapshot, mask: Mask, v: Variable)
    requires Loaded(first, mask, v) && Loaded(second, mask, v) && first.stable == second.stable
    ensures first.inventory.Keys == second.inventory.Keys
  {
    var names := {v.sums, v.readme, v.manifest};
    assert first.inventory.Keys == first.stable.Keys + names;
    assert second.inventory.Keys == second.stable.Keys + names;
  }

  /** The release tool's own tables meet what the comparison needs of them. */
  lemma ReleaseTablesFit()
    ensures Agree(RELEASE) && IdentityUntouched(RELEASE)
  {
    ReleaseTablesAgree();
    forall t | t in PERMITTED ensures t[0] !in {"project", "package", "app_version"} {
    }
  }
}
