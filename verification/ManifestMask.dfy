/** Release manifests: the normaliser that overwrites the permitted run-specific fields, and
    how it relates to the structural difference report. */
module ManifestMask {
  import opened JsonModel
  import opened JsonDiff
  import Decimal

  /** Where a value is overwritten: at this place, or somewhere inside this object. */
  datatype Mask = Replace(value: Json) | Inside(entries: map<string, Mask>)

  ghost function Replaced(entries: map<string, Mask>): set<string> {
    set k | k in entries && entries[k].Replace?
  }

  /** Overwriting creates missing keys, and only reaches through objects. */
  ghost function Masked(j: Json, m: Mask): Json
    decreases j
  {
    match m
    case Replace(v) => v
    case Inside(entries) =>
      if !j.Obj? then j
      else Obj(map k | k in j.fields.Keys + Replaced(entries) ::
          if k !in entries then j.fields[k]
          else if entries[k].Replace? then entries[k].value
          else Masked(j.fields[k], entries[k]))
  }

  predicate Covers(m: Mask, t: Position)
    decreases |t|
  {
    if t == [] then m.Replace? else m.Inside? && t[0] in m.entries && Covers(m.entries[t[0]], t[1..])
  }

  /** Some covered position is `t` or lies above it. */
  predicate CoversAbove(m: Mask, t: Position)
    decreases |t|
  {
    m.Replace? || (t != [] && t[0] in m.entries && CoversAbove(m.entries[t[0]], t[1..]))
  }

  lemma {:induction false} CoveringPrefix(m: Mask, t: Position) returns (p: Position)
    requires CoversAbove(m, t)
    ensures p <= t && Covers(m, p)
    decreases |t|
  {
    if m.Replace? {
      p := [];
    } else {
      var q := CoveringPrefix(m.entries[t[0]], t[1..]);
      p := [t[0]] + q;
      assert p[1..] == q;
    }
  }

  /** No covered place could be reached through a list. */
  ghost predicate NamesOnly(m: Mask) {
    forall t, i :: Covers(m, t) && 0 <= i < |t| && t[i] != "" ==> !Decimal.IsDigit(t[i][0])
  }

  lemma NamesOnlyInside(m: Mask, k: string)
    requires NamesOnly(m) && m.Inside? && k in m.entries
    ensures NamesOnly(m.entries[k])
  {
    forall t, i | Covers(m.entries[k], t) && 0 <= i < |t| && t[i] != ""
      ensures !Decimal.IsDigit(t[i][0])
    {
      var u := [k] + t;
      assert u[1..] == t;
      assert Covers(m, u) && u[i + 1] == t[i];
    }
  }

  /** If everything that differs is overwritten, overwriting makes the values equal. */
  lemma {:induction false} OverwrittenDifferencesVanish(a: Json, b: Json, m: Mask)
    requires NamesOnly(m)
    requires forall t :: Differs(a, b, t) ==> Covers(m, t)
    ensures Masked(a, m) == Masked(b, m)
    decreases a
  {
    if m.Inside? {
      if a.Obj? && b.Obj? {
        forall k | k in a.fields.Keys + b.fields.Keys && (k !in a.fields || k !in b.fields)
          ensures k in Replaced(m.entries)
        {
          var t := [k];
          assert t[1..] == [];
          assert Differs(a, b, t);
          assert Covers(m.entries[k], t[1..]);
        }
        forall k | k in a.fields && k in b.fields
          ensures if k in m.entries then Masked(a.fields[k], m.entries[k]) == Masked(b.fields[k], m.entries[k])
                  else a.fields[k] == b.fields[k]
        {
          forall t | Differs(a.fields[k], b.fields[k], t)
            ensures k in m.entries && Covers(m.entries[k], t)
          {
            var u := [k] + t;
            assert u[1..] == t;
            assert Differs(a, b, u);
          }
          if k in m.entries {
            NamesOnlyInside(m, k);
            OverwrittenDifferencesVanish(a.fields[k], b.fields[k], m.entries[k]);
          } else {
            NothingDiffers(a.fields[k], b.fields[k]);
          }
        }
        assert a.fields.Keys + Replaced(m.entries) == b.fields.Keys + Replaced(m.entries);
      } else {
        forall t ensures !Differs(a, b, t) {
          if Differs(a, b, t) && t != [] { ListStepIsIndex(a, b, t); }
        }
        NothingDiffers(a, b);
      }
    }
  }

  lemma ListStepIsIndex(a: Json, b: Json, t: Position)
    requires !(a.Obj? && b.Obj?) && Differs(a, b, t) && t != []
    ensures t[0] != "" && Decimal.IsDigit(t[0][0])
  {
    var i: nat :| i < |a.items| && t[0] == Decimal.Dec(i);
    assert t[0][0] in t[0];
  }

  lemma NothingDiffers(a: Json, b: Json)
    requires forall t :: !Differs(a, b, t)
    ensures a == b
  {
    if t :| t in DiffPositions(a, b) { ReportedExactly(a, b, t); }
    EmptyOrInhabited(DiffPositions(a, b));
    EmptyExactlyWhenEqual(a, b);
  }

  /** If overwriting makes the values equal, they only differ at or below overwritten places. */
  lemma {:induction false} EqualMasksConfineDifferences(a: Json, b: Json, m: Mask, t: Position)
    requires Masked(a, m) == Masked(b, m)
    requires Differs(a, b, t)
    ensures CoversAbove(m, t)
    decreases a
  {
    if m.Inside? {
      if a.Obj? && b.Obj? {
        var k := t[0];
        assert Masked(a, m).fields.Keys == a.fields.Keys + Replaced(m.entries);
        assert Masked(b, m).fields.Keys == b.fields.Keys + Replaced(m.entries);
        if k in Replaced(m.entries) {
          assert CoversAbove(m.entries[k], t[1..]);
        } else {
          assert k in a.fields <==> k in b.fields;
          assert Masked(a, m).fields[k] == Masked(b, m).fields[k];
          if k in m.entries {
            EqualMasksConfineDifferences(a.fields[k], b.fields[k], m.entries[k], t[1..]);
          } else {
            EqualMeansNoDifference(a.fields[k], t[1..]);
          }
        }
      } else {
        EqualMeansNoDifference(a, t);
      }
    }
  }

  lemma EqualMeansNoDifference(a: Json, t: Position)
    ensures !Differs(a, a, t)
  {
    EmptyExactlyWhenEqual(a, a);
    ReportedExactly(a, a, t);
  }

  // ----- overwriting field by field

  lemma MaskedKeys(j: Json, entries: map<string, Mask>)
    requires j.Obj?
    ensures Masked(j, Inside(entries)).Obj? && Masked(j, Inside(entries)).fields.Keys == j.fields.Keys + Replaced(entries)
  {
  }

  lemma MaskedAt(j: Json, entries: map<string, Mask>, k: string)
    requires j.Obj? && (k in j.fields || k in Replaced(entries))
    ensures k in Masked(j, Inside(entries)).fields
    ensures k !in entries ==> Masked(j, Inside(entries)).fields[k] == j.fields[k]
    ensures k in entries && entries[k].Replace? ==> Masked(j, Inside(entries)).fields[k] == entries[k].value
    ensures k in entries && entries[k].Inside? ==> Masked(j, Inside(entries)).fields[k] == Masked(j.fields[k], entries[k])
  {
  }

  lemma SameFields(m: map<string, Json>, n: map<string, Json>)
    requires m.Keys == n.Keys && forall k :: k in m ==> m[k] == n[k]
    ensures m == n
  {
  }

  /** Adding one mask entry only changes that entry's field. */
  lemma OneMoreEntry(j: Json, entries: map<string, Mask>, k: string, m: Mask, x: string)
    requires j.Obj? && k !in entries && x != k && (x in j.fields || x in Replaced(entries))
    ensures x in Masked(j, Inside(entries)).fields && x in Masked(j, Inside(entries[k := m])).fields
    ensures Masked(j, Inside(entries)).fields[x] == Masked(j, Inside(entries[k := m])).fields[x]
  {
    MaskedAt(j, entries, x);
    assert x in Replaced(entries) ==> x in Replaced(entries[k := m]);
    MaskedAt(j, entries[k := m], x);
    assert x in entries ==> entries[x] == entries[k := m][x];
  }

  /** Assigning a field of the copy is one more replaced entry. */
  lemma OverwriteField(original: Json, copy: Json, entries: map<string, Mask>, k: string, v: Json)
    requires original.Obj? && copy == Masked(original, Inside(entries)) && k !in entries
    ensures Obj(copy.fields[k := v]) == Masked(original, Inside(entries[k := Replace(v)]))
  {
    hide Masked;
    var entries' := entries[k := Replace(v)];
    assert Replaced(entries') == Replaced(entries) + {k};
    MaskedKeys(original, entries);
    MaskedKeys(original, entries');
    var updated := Masked(original, Inside(entries'));
    forall x | x in copy.fields[k := v] ensures copy.fields[k := v][x] == updated.fields[x] {
      if x == k { MaskedAt(original, entries', x); } else { OneMoreEntry(original, entries, k, Replace(v), x); }
    }
    SameFields(copy.fields[k := v], updated.fields);
  }

  /** Rewriting an existing member in place is one more nested mask. */
  lemma OverwriteMember(original: Json, copy: Json, entries: map<string, Mask>, k: string, m: Mask)
    requires original.Obj? && copy == Masked(original, Inside(entries)) && k !in entries && m.Inside?
    ensures k in copy.fields <==> k in original.fields
    ensures k in copy.fields ==> copy.fields[k] == original.fields[k]
    ensures k in copy.fields ==> Obj(copy.fields[k := Masked(copy.fields[k], m)]) == Masked(original, Inside(entries[k := m]))
    ensures k !in copy.fields ==> copy == Masked(original, Inside(entries[k := m]))
  {
    hide Masked;
    var entries' := entries[k := m];
    assert Replaced(entries') == Replaced(entries);
    MaskedKeys(original, entries);
    MaskedKeys(original, entries');
    var updated := Masked(original, Inside(entries'));
    if k in original.fields {
      MaskedAt(original, entries, k);
      MaskedAt(original, entries', k);
      var fields := copy.fields[k := updated.fields[k]];
      forall x | x in fields ensures fields[x] == updated.fields[x] {
        if x != k { OneMoreEntry(original, entries, k, m, x); }
      }
      assert fields.Keys == updated.fields.Keys;
      SameFields(fields, updated.fields);
    } else {
      forall x | x in copy.fields ensures copy.fields[x] == updated.fields[x] {
        OneMoreEntry(original, entries, k, m, x);
      }
      SameFields(copy.fields, updated.fields);
    }
  }

  lemma NothingOverwritten(j: Json)
    ensures Masked(j, Inside(map[])) == j
  {
    assert Replaced(map[]) == {};
    if j.Obj? { assert Masked(j, Inside(map[])).fields == j.fields; }
  }

  // ----- the two tables

  /** The normaliser's places and the list of permitted paths, as two tables that must agree. */
  datatype Tables = Tables(mask: Mask, permitted: set<Position>)

  ghost predicate Agree(tables: Tables) {
    && NamesOnly(tables.mask) && tables.mask.Inside?
    && (forall t :: Covers(tables.mask, t) <==> t in tables.permitted)
    && [] !in tables.permitted && [""] !in tables.permitted
  }

  // ----- the release manifest

  const CONFORMANCE_RECEIPT := Inside(map[
      "generated_at" := Replace(Str("<permitted-conformance-generated-at>")),
      "expires_at" := Replace(Str("<permitted-conformance-expires-at>")),
      "sha256" := Replace(Str("<permitted-conformance-run-receipt-sha256>")),
      "size" := Replace(Str("<permitted-conformance-run-receipt-size>"))])

  const SIGNED_RECEIPT := Inside(map[
      "generated_at" := Replace(Str("<permitted-signed-advert-generated-at>")),
      "expires_at" := Replace(Str("<permitted-signed-advert-expires-at>")),
      "sha256" := Replace(Str("<permitted-signed-advert-run-receipt-sha256>")),
      "size" := Replace(Str("<permitted-signed-advert-run-receipt-size>"))])

  const WORKFLOW := Inside(map[
      "run_id" := Replace(Str("<permitted-run-id>")),
      "run_attempt" := Replace(Str("<permitted-run-attempt>")),
      "run_url" := Replace(Str("<permitted-run-url>"))])

  const MANIFEST := Inside(map[
      "created_at" := Replace(Str("<permitted-created-at>")),
      "source_build_dir" := Replace(Str("<permitted-source-build-dir>")),
      "actions_run" := Replace(Str("<permitted-run-id>")),
      "actions_run_attempt" := Replace(Str("<permitted-run-attempt>")),
      "workflow" := WORKFLOW,
      "meshcore_conformance" := Inside(map["run_receipt" := CONFORMANCE_RECEIPT]),
      "meshcore_signed_advert_runtime" := Inside(map["run_receipt" := SIGNED_RECEIPT])])

  /** `PERMITTED_MANIFEST_PATHS`, the list the comparison tool keeps apart from the normaliser. */
  const PERMITTED: set<Position> := {
    ["actions_run"],
    ["actions_run_attempt"],
    ["created_at"],
    ["meshcore_conformance", "run_receipt", "expires_at"],
    ["meshcore_conformance", "run_receipt", "generated_at"],
    ["meshcore_conformance", "run_receipt", "sha256"],
    ["meshcore_conformance", "run_receipt", "size"],
    ["meshcore_signed_advert_runtime", "run_receipt", "expires_at"],
    ["meshcore_signed_advert_runtime", "run_receipt", "generated_at"],
    ["meshcore_signed_advert_runtime", "run_receipt", "sha256"],
    ["meshcore_signed_advert_runtime", "run_receipt", "size"],
    ["source_build_dir"],
    ["workflow", "run_attempt"],
    ["workflow", "run_id"],
    ["workflow", "run_url"]
  }

  lemma CoverLeaf(m: Mask, t: Position)
    requires m.Inside? && (t != [] && t[0] in m.entries ==> m.entries[t[0]].Replace?)
    ensures Covers(m, t) <==> |t| == 1 && t[0] in m.entries
  {
  }

  lemma CoverReceipt(m: Mask, t: Position)
    requires m == CONFORMANCE_RECEIPT || m == SIGNED_RECEIPT
    ensures Covers(Inside(map["run_receipt" := m]), t) <==>
            t in [["run_receipt", "expires_at"], ["run_receipt", "generated_at"],
                  ["run_receipt", "sha256"], ["run_receipt", "size"]]
  {
    if t != [] && t[0] == "run_receipt" {
      CoverLeaf(m, t[1..]);
      if |t| == 2 { assert t == ["run_receipt", t[1]]; }
    }
  }

  lemma CoverWorkflow(t: Position)
    requires t != [] && t[0] == "workflow"
    ensures Covers(WORKFLOW, t[1..]) <==> t in PERMITTED
  {
    var rest := t[1..];
    CoverLeaf(WORKFLOW, rest);
    if |t| == 2 {
      assert t == ["workflow", t[1]];
      assert rest[0] == t[1];
      assert t in PERMITTED <==> t[1] in {"run_attempt", "run_id", "run_url"};
    }
  }

  lemma CoverProof(t: Position, m: Mask)
    requires t != []
    requires (t[0] == "meshcore_conformance" && m == CONFORMANCE_RECEIPT)
          || (t[0] == "meshcore_signed_advert_runtime" && m == SIGNED_RECEIPT)
    ensures Covers(Inside(map["run_receipt" := m]), t[1..]) <==> t in PERMITTED
  {
    var rest := t[1..];
    CoverReceipt(m, rest);
    if |t| == 3 {
      assert rest == [t[1], t[2]];
      assert t == [t[0], t[1], t[2]];
      assert t in PERMITTED <==> t[1] == "run_receipt" && t[2] in {"expires_at", "generated_at", "sha256", "size"};
    }
  }

  predicate IsTopField(k: string) {
    k in {"created_at", "source_build_dir", "actions_run", "actions_run_attempt"}
  }

  predicate IsSection(k: string) {
    k in {"workflow", "meshcore_conformance", "meshcore_signed_advert_runtime"}
  }

  lemma TopEntry(k: string)
    ensures k in MANIFEST.entries <==> IsTopField(k) || IsSection(k)
    ensures IsTopField(k) ==> MANIFEST.entries[k].Replace?
  {
  }

  lemma TopPermitted(t: Position)
    requires t != [] && !IsSection(t[0])
    ensures t in PERMITTED <==> |t| == 1 && IsTopField(t[0])
  {
    if |t| == 1 {
      assert t == [t[0]];
    }
  }

  lemma CoverTop(t: Position)
    requires t != [] && !IsSection(t[0])
    ensures Covers(MANIFEST, t) <==> t in PERMITTED
  {
    hide IsTopField, IsSection, Covers;
    TopPermitted(t);
    TopEntry(t[0]);
    CoverLeaf(MANIFEST, t);
  }

  /** The normaliser overwrites exactly the permitted places. */
  lemma MaskMatchesPermittedList(t: Position)
    ensures Covers(MANIFEST, t) <==> t in PERMITTED
  {
    if t != [] {
      var k, rest := t[0], t[1..];
      assert t == [k] + rest;
      if k == "workflow" {
        CoverWorkflow(t);
      } else if k == "meshcore_conformance" {
        CoverProof(t, CONFORMANCE_RECEIPT);
      } else if k == "meshcore_signed_advert_runtime" {
        CoverProof(t, SIGNED_RECEIPT);
      } else {
        CoverTop(t);
      }
    }
  }

  lemma ManifestNamesOnly()
    ensures NamesOnly(MANIFEST)
  {
    forall t, i | Covers(MANIFEST, t) && 0 <= i < |t| && t[i] != ""
      ensures !Decimal.IsDigit(t[i][0])
    {
      MaskMatchesPermittedList(t);
    }
  }

  /** The manifests `normalize_manifest` does not raise on. */
  predicate Normalizable(manifest: Json) {
    manifest.Obj? && Get(manifest, "workflow").Obj?
  }

  const RELEASE := Tables(MANIFEST, PERMITTED)

  /** The release tool's normaliser and its separate path list agree. */
  lemma ReleaseTablesAgree()
    ensures Agree(RELEASE)
  {
    ManifestNamesOnly();
    forall t ensures Covers(MANIFEST, t) <==> t in PERMITTED {
      MaskMatchesPermittedList(t);
    }
    assert forall t :: t in PERMITTED ==> |t| > 0 && t[0] != "";
  }
}
