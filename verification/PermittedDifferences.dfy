/** "Only permitted differences", checked in two ways: every reported path is on the permitted
    list, or the normalised manifests are equal. */
module PermittedDifferences {
  import opened JsonModel
  import opened JsonPointer
  import opened JsonDiff
  import opened ManifestMask

  ghost predicate Permitted(tables: Tables, path: string) {
    exists t :: t in tables.permitted && path == Pointer(t)
  }

  ghost predicate OnlyPermittedPaths(tables: Tables, a: Json, b: Json) {
    forall p :: p in DifferencePaths(a, b) ==> Permitted(tables, p)
  }

  lemma ReportedPath(a: Json, b: Json, t: Position)
    requires Differs(a, b, t)
    ensures Show(t) in DifferencePaths(a, b)
  {
    ReportedExactly(a, b, t);
    var ps := DiffPositions(a, b);
    var i :| 0 <= i < |ps| && ps[i] == t;
    assert [] + t == t;
    assert DifferencePaths(a, b)[i] == Show(t);
  }

  lemma PathPosition(a: Json, b: Json, p: string) returns (t: Position)
    requires p in DifferencePaths(a, b)
    ensures Differs(a, b, t) && p == Show(t)
  {
    var ps := DiffPositions(a, b);
    var i :| 0 <= i < |ps| && DifferencePaths(a, b)[i] == p;
    t := ps[i];
    assert [] + t == t;
    assert t in ps;
    ReportedExactly(a, b, t);
  }

  /** A permitted path string stands for a permitted place and for nothing else. */
  lemma PermittedShown(tables: Tables, t: Position)
    requires Agree(tables)
    ensures Permitted(tables, Show(t)) <==> t in tables.permitted
  {
    PointerEmpty(t);
    if t in tables.permitted { assert Show(t) == Pointer(t); }
    if Permitted(tables, Show(t)) {
      var q :| q in tables.permitted && Show(t) == Pointer(q);
      PointerEmpty(q);
      assert Show(q) == Show(t);
      ShowCollision(t, q);
    }
  }

  /** If every reported path is permitted, the normalised manifests are equal. */
  lemma PermittedPathsGiveEqualNormals(tables: Tables, a: Json, b: Json)
    requires Agree(tables) && OnlyPermittedPaths(tables, a, b)
    ensures Masked(a, tables.mask) == Masked(b, tables.mask)
  {
    forall t | Differs(a, b, t) ensures Covers(tables.mask, t) {
      ReportedPath(a, b, t);
      PermittedShown(tables, t);
    }
    OverwrittenDifferencesVanish(a, b, tables.mask);
  }

  ghost predicate AtOrBelowPermitted(tables: Tables, t: Position) {
    exists q :: q in tables.permitted && q <= t
  }

  /** Equal normalised manifests leave differences only at or below permitted places. */
  lemma EqualNormalsConfinePaths(tables: Tables, a: Json, b: Json, t: Position)
    requires Agree(tables) && Masked(a, tables.mask) == Masked(b, tables.mask)
    requires Differs(a, b, t)
    ensures AtOrBelowPermitted(tables, t)
  {
    EqualMasksConfineDifferences(a, b, tables.mask, t);
    var q := CoveringPrefix(tables.mask, t);
    assert q in tables.permitted && q <= t;
  }

  /** A difference inside a permitted field, which the normaliser cannot see. */
  ghost predicate HiddenDifference(tables: Tables, a: Json, b: Json, t: Position) {
    Differs(a, b, t) && AtOrBelowPermitted(tables, t) && t !in tables.permitted
  }

  /** The path check is the normaliser's check plus: nothing differs strictly inside a permitted field. */
  lemma PermittedPathsExactly(tables: Tables, a: Json, b: Json)
    requires Agree(tables)
    ensures OnlyPermittedPaths(tables, a, b) <==>
      Masked(a, tables.mask) == Masked(b, tables.mask) && forall t :: !HiddenDifference(tables, a, b, t)
  {
    if OnlyPermittedPaths(tables, a, b) {
      PermittedPathsGiveEqualNormals(tables, a, b);
      forall t ensures !HiddenDifference(tables, a, b, t) {
        if Differs(a, b, t) {
          ReportedPath(a, b, t);
          PermittedShown(tables, t);
        }
      }
    }
    if Masked(a, tables.mask) == Masked(b, tables.mask) && forall t :: !HiddenDifference(tables, a, b, t) {
      forall p | p in DifferencePaths(a, b) ensures Permitted(tables, p) {
        var t := PathPosition(a, b, p);
        EqualNormalsConfinePaths(tables, a, b, t);
        assert !HiddenDifference(tables, a, b, t);
        PermittedShown(tables, t);
      }
    }
  }

  /** A manifest whose field `k` holds an object. */
  function Structured(base: Json, k: string, n: int): Json
    requires base.Obj?
  {
    Obj(base.fields[k := Obj(map["x" := Int(n)])])
  }

  /** What a permitted top-level field holds does not survive the normaliser. */
  lemma OverwrittenField(tables: Tables, base: Json, k: string)
    requires Agree(tables) && [k] in tables.permitted && base.Obj?
    ensures Masked(Structured(base, k, 1), tables.mask) == Masked(Structured(base, k, 2), tables.mask)
    ensures k in tables.mask.entries && tables.mask.entries[k].Replace?
  {
    var a, b := Structured(base, k, 1), Structured(base, k, 2);
    var entries := tables.mask.entries;
    var top := [k];
    assert top[1..] == [];
    assert Covers(tables.mask, top) && Covers(entries[k], top[1..]);
    hide Masked, Agree;
    MaskedKeys(a, entries);
    MaskedKeys(b, entries);
    forall x | x in Masked(a, tables.mask).fields
      ensures Masked(a, tables.mask).fields[x] == Masked(b, tables.mask).fields[x]
    {
      MaskedAt(a, entries, x);
      MaskedAt(b, entries, x);
    }
    SameFields(Masked(a, tables.mask).fields, Masked(b, tables.mask).fields);
  }

  /** A difference inside a permitted top-level field is reported and is not permitted. */
  lemma ReportedInside(tables: Tables, base: Json, k: string)
    requires Agree(tables) && [k] in tables.permitted && base.Obj?
    ensures !OnlyPermittedPaths(tables, Structured(base, k, 1), Structured(base, k, 2))
  {
    var a, b := Structured(base, k, 1), Structured(base, k, 2);
    OverwrittenField(tables, base, k);
    var t := [k, "x"];
    assert t[1..] == ["x"] && ["x"][1..] == [];
    assert Differs(Int(1), Int(2), []);
    assert Differs(a.fields[k], b.fields[k], ["x"]);
    assert Differs(a, b, t);
    assert !Covers(tables.mask.entries[k], t[1..]);
    assert !Covers(tables.mask, t);
    ReportedPath(a, b, t);
    PermittedShown(tables, t);
    hide Agree, Permitted;
  }

  /** The two fields of the release manifest that no other check reads. */
  predicate Unread(k: string) {
    k in {"actions_run", "actions_run_attempt"}
  }

  lemma UnreadIsPermitted(k: string)
    requires Unread(k)
    ensures [k] in RELEASE.permitted && k != "workflow"
  {
  }

  /** Any release manifest has two variants, alike outside one unread field and both normalised, on
      which the two checks disagree. */
  lemma StructuredFieldSplitsTheChecks(base: Json, k: string)
    requires Normalizable(base) && Unread(k)
    ensures var a, b := Structured(base, k, 1), Structured(base, k, 2);
      && Normalizable(a) && Normalizable(b)
      && (forall f :: f != k ==> Get(a, f) == Get(b, f) == Get(base, f))
      && Masked(a, RELEASE.mask) == Masked(b, RELEASE.mask) && !OnlyPermittedPaths(RELEASE, a, b)
  {
    hide Masked, OnlyPermittedPaths, Agree, Unread;
    ReleaseTablesAgree();
    UnreadIsPermitted(k);
    OverwrittenField(RELEASE, base, k);
    ReportedInside(RELEASE, base, k);
  }

  ghost predicate FieldUntouched(tables: Tables, k: string) {
    forall t :: t in tables.permitted && t != [] ==> t[0] != k
  }

  /** Permitted differences leave every other top-level field as it was. */
  lemma UntouchedFieldsAgree(tables: Tables, a: Json, b: Json, k: string)
    requires Agree(tables) && OnlyPermittedPaths(tables, a, b) && FieldUntouched(tables, k) && a.Obj? && b.Obj?
    ensures Get(a, k) == Get(b, k)
  {
    if k in a.fields && k in b.fields {
      forall t ensures !Differs(a.fields[k], b.fields[k], t) {
        var u := [k] + t;
        assert u[1..] == t;
        if Differs(a, b, u) {
          ReportedPath(a, b, u);
          PermittedShown(tables, u);
        }
      }
      NothingDiffers(a.fields[k], b.fields[k]);
    } else if k in a.fields || k in b.fields {
      var u := [k];
      assert Differs(a, b, u);
      ReportedPath(a, b, u);
      PermittedShown(tables, u);
    }
  }
}
