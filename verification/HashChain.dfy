/** The chain of cycle receipts in a reboot matrix: what the validator recomputes from the files. */
module HashChain {
  import opened Results
  import opened JsonModel
  import opened Text

  type Bytes = string

  /** SHA-256 of a file's bytes, its JSON text read back, the verdict of recomputing one cycle
      receipt, and `str` on values that are not strings; all four are arbitrary here. */
  datatype Tools = Tools(
    digest: Bytes -> string, parse: Bytes -> Option<Json>, cycleOk: Json -> bool, show: Json -> string)

  type Files = map<string, Bytes>

  /** The path of a file row that names an existing file. */
  function RowPath(row: Json, files: Files): Option<string> {
    var path := Get(row, "path");
    if path.Str? && path.s != "" && path.s in files then Some(path.s) else None
  }

  /** `validate_file_row` without errors: the row's size and digest are those of the file. */
  predicate RowMatches(row: Json, files: Files, t: Tools) {
    var path := RowPath(row, files);
    && path.Some?
    && Get(row, "size") == Int(|files[path.value]|)
    && Get(row, "sha256").Str? && Hex(Get(row, "sha256").s, 64)
    && Get(row, "sha256").s == t.digest(files[path.value])
  }

  /** `load_json`: raises unless the file holds a JSON object. */
  function Load(row: Json, files: Files, t: Tools): Option<Json> {
    var path := RowPath(row, files);
    if path.None? then None
    else
      var value := t.parse(files[path.value]);
      if value.Some? && value.value.Obj? then value else None
  }

  const SOFTWARE_CYCLES := 5
  const COLD_CYCLES := 3
  const SOFTWARE := "software"
  const COLD := "cold"

  function ExpectedType(i: nat): string {
    if i < SOFTWARE_CYCLES then SOFTWARE else COLD
  }

  function ExpectedOrdinal(i: nat): nat {
    if i < SOFTWARE_CYCLES then i + 1 else i - SOFTWARE_CYCLES + 1
  }

  /** What a matrix says about its chain. */
  datatype Matrix = Matrix(seedRow: Json, flashRow: Json, cycles: seq<Json>, tail: Json, declaredUnique: bool)

  /** The digest the receipt at `i` must carry as its predecessor's. */
  function Previous(m: Matrix, i: nat): Json
    requires i <= |m.cycles|
  {
    if i == 0 then Get(m.flashRow, "sha256") else Get(m.cycles[i - 1], "sha256")
  }

  /** An intact receipt file bound to the seed, the flash and its predecessor. */
  ghost predicate Bound(m: Matrix, row: Json, files: Files, t: Tools, previous: Json) {
    && RowMatches(row, files, t) && Load(row, files, t).Some?
    && var c := Loaded(row, files, t);
    && Get(c, "previous_receipt_sha256") == previous
    && Get(c, "seed_receipt_sha256") == Get(m.seedRow, "sha256")
    && Get(c, "closing_flash_receipt_sha256") == Get(m.flashRow, "sha256")
    && Hashable(Get(c, "cycle_id")) && t.cycleOk(c)
  }

  predicate Placed(c: Json, i: nat) {
    Get(c, "cycle_type") == Str(ExpectedType(i)) && Get(c, "ordinal") == Int(ExpectedOrdinal(i))
  }

  /** Values a Python set can be asked about; asking about a list or a dict raises. */
  predicate Hashable(v: Json) {
    !v.Arr? && !v.Obj?
  }

  /** The receipt file at `i` is intact, bound to the seed, the flash and its predecessor, and is
      the cycle the matrix needs at that place. */
  ghost predicate Link(m: Matrix, files: Files, t: Tools, i: nat)
    requires i < |m.cycles|
  {
    && Bound(m, m.cycles[i], files, t, Previous(m, i))
    && Placed(Loaded(m.cycles[i], files, t), i)
  }

  function Loaded(row: Json, files: Files, t: Tools): Json {
    var c := Load(row, files, t);
    if c.Some? then c.value else Null
  }

  // The paths, digests and cycle ids of the rows, in order.

  function Column(m: Matrix, key: string): seq<Json> {
    seq(|m.cycles|, i requires 0 <= i < |m.cycles| => Get(m.cycles[i], key))
  }

  function CycleIds(m: Matrix, files: Files, t: Tools): seq<Json> {
    seq(|m.cycles|, i requires 0 <= i < |m.cycles| => Get(Loaded(m.cycles[i], files, t), "cycle_id"))
  }

  /** `str(value)` */
  function Shown(t: Tools, v: Json): string {
    if v.Str? then v.s else t.show(v)
  }

  /** No string repeats what an earlier value reads as. */
  ghost predicate NoRepeats(vs: seq<Json>, t: Tools) {
    forall i, j :: 0 <= i < j < |vs| && vs[j].Str? ==> vs[j].s != Shown(t, vs[i])
  }

  /** The chain part of an accepted matrix. */
  ghost predicate ChainAccepted(m: Matrix, files: Files, t: Tools) {
    && RowMatches(m.seedRow, files, t) && RowMatches(m.flashRow, files, t)
    && |m.cycles| == SOFTWARE_CYCLES + COLD_CYCLES
    && (forall i :: 0 <= i < |m.cycles| ==> Link(m, files, t, i))
    && NoRepeats(Column(m, "path"), t) && NoRepeats(Column(m, "sha256"), t) && NoRepeats(CycleIds(m, files, t), t)
    && m.tail == Previous(m, |m.cycles|)
    && m.declaredUnique
  }

  /** The bytes behind a row; every row of an accepted chain has some. */
  function FileOf(row: Json, files: Files): Option<Bytes> {
    var path := RowPath(row, files);
    if path.Some? then Some(files[path.value]) else None
  }

  // ----- one tail, one history

  /** The rows a matrix rests on. */
  function Evidence(m: Matrix): seq<Json> {
    m.cycles + [m.seedRow, m.flashRow]
  }

  /** A file one matrix rests on and a different one the other rests on have the same digest. */
  ghost predicate Collide(m: Matrix, m': Matrix, files: Files, files': Files, t: Tools) {
    exists r, r' :: r in Evidence(m) && r' in Evidence(m') && Collision(FileOf(r, files), FileOf(r', files'), t)
  }

  predicate Collision(x: Option<Bytes>, y: Option<Bytes>, t: Tools) {
    x.Some? && y.Some? && t.digest(x.value) == t.digest(y.value) && x != y
  }

  lemma SameDigestSameFile(m: Matrix, m': Matrix, r: Json, r': Json, files: Files, files': Files, t: Tools)
    requires r in Evidence(m) && r' in Evidence(m') && !Collide(m, m', files, files', t)
    requires RowMatches(r, files, t) && RowMatches(r', files', t) && Get(r, "sha256") == Get(r', "sha256")
    ensures FileOf(r, files) == FileOf(r', files')
    ensures Load(r, files, t) == Load(r', files', t)
  {
    assert !Collision(FileOf(r, files), FileOf(r', files'), t);
  }

  /** Unless two of the files collide, equal digests at `i` mean equal files and the same anchors and
      predecessors. */
  lemma SameStep(m: Matrix, m': Matrix, files: Files, files': Files, t: Tools, i: nat)
    requires i < |m.cycles| == |m'.cycles| && Link(m, files, t, i) && Link(m', files', t, i)
    requires !Collide(m, m', files, files', t) && Get(m.cycles[i], "sha256") == Get(m'.cycles[i], "sha256")
    ensures FileOf(m.cycles[i], files) == FileOf(m'.cycles[i], files')
    ensures Previous(m, i) == Previous(m', i)
    ensures Get(m.flashRow, "sha256") == Get(m'.flashRow, "sha256")
    ensures Get(m.seedRow, "sha256") == Get(m'.seedRow, "sha256")
  {
    hide RowMatches, Load, Collide, Previous, FileOf, Placed;
    SameDigestSameFile(m, m', m.cycles[i], m'.cycles[i], files, files', t);
  }

  lemma {:induction false} SameHistory(m: Matrix, m': Matrix, files: Files, files': Files, t: Tools, i: nat)
    requires ChainAccepted(m, files, t) && ChainAccepted(m', files', t) && !Collide(m, m', files, files', t)
    requires i < |m.cycles| && Get(m.cycles[i], "sha256") == Get(m'.cycles[i], "sha256")
    ensures forall j :: 0 <= j <= i ==> FileOf(m.cycles[j], files) == FileOf(m'.cycles[j], files')
    ensures Get(m.flashRow, "sha256") == Get(m'.flashRow, "sha256")
    ensures Get(m.seedRow, "sha256") == Get(m'.seedRow, "sha256")
  {
    hide Link, RowMatches, Load, Collide, FileOf, NoRepeats, Column, CycleIds;
    SameStep(m, m', files, files', t, i);
    if i > 0 {
      SameHistory(m, m', files, files', t, i - 1);
    }
  }

  /** The same receipts in the same order, behind the same seed and closing flash. */
  ghost predicate SameReceipts(m: Matrix, m': Matrix, files: Files, files': Files) {
    && |m.cycles| == |m'.cycles|
    && (forall j :: 0 <= j < |m.cycles| ==> FileOf(m.cycles[j], files) == FileOf(m'.cycles[j], files'))
    && FileOf(m.seedRow, files) == FileOf(m'.seedRow, files') && FileOf(m.flashRow, files) == FileOf(m'.flashRow, files')
  }

  /** Two accepted matrices with the same tail refer to byte-identical receipts, or two of the
      files they rest on are a collision of the digest. */
  lemma TailDeterminesHistory(m: Matrix, m': Matrix, files: Files, files': Files, t: Tools)
    requires ChainAccepted(m, files, t) && ChainAccepted(m', files', t) && m.tail == m'.tail
    ensures SameReceipts(m, m', files, files') || Collide(m, m', files, files', t)
  {
    if !Collide(m, m', files, files', t) {
      SameHistory(m, m', files, files', t, |m.cycles| - 1);
      SameDigestSameFile(m, m', m.seedRow, m'.seedRow, files, files', t);
      SameDigestSameFile(m, m', m.flashRow, m'.flashRow, files, files', t);
    }
  }

  // ----- the validator's loop

  /** What the loop carries: the seen sets, the digest the next receipt must name, and the types
      and ordinals in order. */
  datatype Scan = Scan(
    paths: set<string>, hashes: set<string>, ids: set<string>, previous: Json,
    types: seq<string>, software: seq<int>, cold: seq<int>)

  predicate Repeats(v: Json, seen: set<string>) {
    v.Str? && v.s in seen
  }

  predicate Known(c: Json) {
    Get(c, "cycle_type") in {Str(SOFTWARE), Str(COLD)} && Get(c, "ordinal").Int?
  }

  function TypeOf(c: Json): seq<string> {
    if Known(c) then [Get(c, "cycle_type").s] else []
  }

  function OrdinalOf(c: Json, kind: string): seq<int> {
    if Known(c) && Get(c, "cycle_type") == Str(kind) then [Get(c, "ordinal").n] else []
  }

  /** The accumulators after a row whose file was loaded. */
  function Next(s: Scan, row: Json, c: Json, t: Tools): Scan {
    Scan(
      s.paths + {Shown(t, Get(row, "path"))}, s.hashes + {Shown(t, Get(row, "sha256"))},
      s.ids + {Shown(t, Get(c, "cycle_id"))}, Get(row, "sha256"),
      s.types + TypeOf(c), s.software + OrdinalOf(c, SOFTWARE), s.cold + OrdinalOf(c, COLD))
  }

  /** A row that adds no error. */
  ghost predicate Clean(s: Scan, m: Matrix, row: Json, files: Files, t: Tools) {
    && Bound(m, row, files, t, s.previous)
    && !Repeats(Get(row, "path"), s.paths) && !Repeats(Get(row, "sha256"), s.hashes)
    && !Repeats(Get(Loaded(row, files, t), "cycle_id"), s.ids)
    && Hashable(Get(Loaded(row, files, t), "cycle_type"))
  }

  /** The digests the links are compared with are strings. */
  predicate Anchored(s: Scan, m: Matrix) {
    s.previous.Str? && Get(m.seedRow, "sha256").Str? && Get(m.flashRow, "sha256").Str?
  }

  /** One iteration; no scan is returned when an exception escapes. */
  method CheckCycle(s: Scan, m: Matrix, row: Json, baseline: bool, files: Files, t: Tools)
    returns (errors: nat, r: Option<Scan>)
    ensures baseline && Anchored(s, m) ==> (r.Some? && errors == 0 <==> Clean(s, m, row, files, t))
    ensures baseline && Anchored(s, m) && r.Some? && errors == 0 ==> r.value == Next(s, row, Loaded(row, files, t), t)
    ensures baseline && Anchored(s, m) && r.Some? && errors == 0 ==> Anchored(r.value, m)
    ensures !baseline && r.Some? ==> r.value.types == s.types
  {
    errors := Count(!RowMatches(row, files, t));
    if !row.Obj? {
      return errors, Some(s);
    }
    var rawPath, digest := Get(row, "path"), Get(row, "sha256");
    if !Hashable(rawPath) || !Hashable(digest) {
      return errors, None;
    }
    errors := errors + Count(Repeats(rawPath, s.paths)) + Count(Repeats(digest, s.hashes));
    var seen := s.(paths := s.paths + {Shown(t, rawPath)}, hashes := s.hashes + {Shown(t, digest)});
    if RowPath(row, files).None? || !baseline {
      return errors, Some(seen);
    }
    var cycle := Load(row, files, t);
    if cycle.None? {
      return errors, None;
    }
    var c := cycle.value;
    var id, kind, ordinal := Get(c, "cycle_id"), Get(c, "cycle_type"), Get(c, "ordinal");
    if !Hashable(id) {
      return errors, None;
    }
    if Anchored(s, m) {
      PyEqString(Get(c, "previous_receipt_sha256"), s.previous);
      PyEqString(Get(c, "seed_receipt_sha256"), Get(m.seedRow, "sha256"));
      PyEqString(Get(c, "closing_flash_receipt_sha256"), Get(m.flashRow, "sha256"));
    }
    errors := errors + Count(Repeats(id, s.ids))
      + Count(!PyEq(Get(c, "previous_receipt_sha256"), s.previous))
      + Count(!PyEq(Get(c, "seed_receipt_sha256"), Get(m.seedRow, "sha256")))
      + Count(!PyEq(Get(c, "closing_flash_receipt_sha256"), Get(m.flashRow, "sha256")))
      + Count(!t.cycleOk(c));
    if !Hashable(kind) {
      return errors, None;
    }
    var types, software, cold := s.types, s.software, s.cold;
    if kind.Str? && kind.s in {SOFTWARE, COLD} && ordinal.Int? {
      types := types + [kind.s];
      if kind.s == SOFTWARE { software := software + [ordinal.n]; } else { cold := cold + [ordinal.n]; }
    }
    r := Some(Scan(seen.paths, seen.hashes, s.ids + {Shown(t, id)}, digest, types, software, cold));
  }

  // ----- the loop over the rows

  function Start(m: Matrix): Scan {
    Scan({}, {}, {}, Get(m.flashRow, "sha256"), [], [], [])
  }

  /** What the first `n` values read as. */
  function Seen(vs: seq<Json>, t: Tools, n: nat): set<string>
    requires n <= |vs|
  {
    if n == 0 then {} else Seen(vs, t, n - 1) + {Shown(t, vs[n - 1])}
  }

  function Types(cs: seq<Json>, n: nat): seq<string>
    requires n <= |cs|
  {
    if n == 0 then [] else Types(cs, n - 1) + TypeOf(cs[n - 1])
  }

  function Ordinals(cs: seq<Json>, kind: string, n: nat): seq<int>
    requires n <= |cs|
  {
    if n == 0 then [] else Ordinals(cs, kind, n - 1) + OrdinalOf(cs[n - 1], kind)
  }

  /** The receipts the rows load, in order. */
  function Receipts(m: Matrix, files: Files, t: Tools): seq<Json> {
    seq(|m.cycles|, i requires 0 <= i < |m.cycles| => Loaded(m.cycles[i], files, t))
  }

  /** The accumulators after `n` rows whose files were loaded. */
  function At(m: Matrix, files: Files, t: Tools, n: nat): Scan
    requires n <= |m.cycles|
  {
    if n == 0 then Start(m)
    else Next(At(m, files, t, n - 1), m.cycles[n - 1], Loaded(m.cycles[n - 1], files, t), t)
  }

  /** The same, column by column. */
  function Columns(m: Matrix, files: Files, t: Tools, n: nat): Scan
    requires n <= |m.cycles|
  {
    var cs := Receipts(m, files, t);
    Scan(
      Seen(Column(m, "path"), t, n), Seen(Column(m, "sha256"), t, n), Seen(CycleIds(m, files, t), t, n),
      Previous(m, n), Types(cs, n), Ordinals(cs, SOFTWARE, n), Ordinals(cs, COLD, n))
  }

  lemma ColumnsStart(m: Matrix, files: Files, t: Tools)
    ensures Columns(m, files, t, 0) == Start(m)
  {
  }

  lemma ColumnsNext(m: Matrix, files: Files, t: Tools, n: nat)
    requires n < |m.cycles|
    ensures Columns(m, files, t, n + 1) == Next(Columns(m, files, t, n), m.cycles[n], Loaded(m.cycles[n], files, t), t)
  {
  }

  lemma {:induction false} AtColumns(m: Matrix, files: Files, t: Tools, n: nat)
    requires n <= |m.cycles|
    ensures At(m, files, t, n) == Columns(m, files, t, n)
  {
    ColumnsStart(m, files, t);
    hide Next, Columns, Start, Loaded;
    if n > 0 {
      AtColumns(m, files, t, n - 1);
      ColumnsNext(m, files, t, n - 1);
    }
  }

  /** The first `n` rows added no error. */
  ghost predicate CleanTo(m: Matrix, files: Files, t: Tools, n: nat)
    requires n <= |m.cycles|
  {
    n == 0 || (CleanTo(m, files, t, n - 1) && Clean(At(m, files, t, n - 1), m, m.cycles[n - 1], files, t))
  }

  lemma {:induction false} CleanBefore(m: Matrix, files: Files, t: Tools, i: nat, n: nat)
    requires i <= n <= |m.cycles| && CleanTo(m, files, t, n)
    ensures CleanTo(m, files, t, i)
  {
    hide Clean, At;
    if i < n {
      CleanBefore(m, files, t, i, n - 1);
    }
  }

  /** The loop itself. */
  method ScanRows(m: Matrix, baseline: bool, files: Files, t: Tools) returns (errors: nat, r: Option<Scan>)
    ensures baseline && Anchored(Start(m), m) ==> (r.Some? && errors == 0 <==> CleanTo(m, files, t, |m.cycles|))
    ensures baseline && Anchored(Start(m), m) && r.Some? && errors == 0 ==> r.value == At(m, files, t, |m.cycles|)
    ensures !baseline && r.Some? ==> r.value.types == []
  {
    hide Clean, Next, Anchored, Loaded;
    errors := 0;
    var s := Start(m);
    ghost var anchored := baseline && Anchored(s, m);
    var i := 0;
    while i < |m.cycles|
      invariant i <= |m.cycles|
      invariant !baseline ==> s.types == []
      invariant anchored ==> (errors == 0 <==> CleanTo(m, files, t, i))
      invariant anchored && errors == 0 ==> s == At(m, files, t, i) && Anchored(s, m)
    {
      ghost var all := CleanTo(m, files, t, |m.cycles|);
      if all {
        CleanBefore(m, files, t, i + 1, |m.cycles|);
      }
      var found, next := CheckCycle(s, m, m.cycles[i], baseline, files, t);
      if next.None? {
        return errors + found, None;
      }
      errors, s, i := errors + found, next.value, i + 1;
    }
    r := Some(s);
  }

  const ORDERED_TYPES := [SOFTWARE, SOFTWARE, SOFTWARE, SOFTWARE, SOFTWARE, COLD, COLD, COLD]
  const SOFTWARE_ORDINALS := [1, 2, 3, 4, 5]
  const COLD_ORDINALS := [1, 2, 3]

  predicate InOrder(s: Scan) {
    s.types == ORDERED_TYPES && s.software == SOFTWARE_ORDINALS && s.cold == COLD_ORDINALS
  }

  /** What the loop and the checks behind it decide. */
  ghost predicate RowsAccepted(m: Matrix, files: Files, t: Tools) {
    && RowMatches(m.seedRow, files, t) && RowMatches(m.flashRow, files, t)
    && |m.cycles| == SOFTWARE_CYCLES + COLD_CYCLES
    && CleanTo(m, files, t, |m.cycles|) && InOrder(At(m, files, t, |m.cycles|))
    && PyEq(m.tail, At(m, files, t, |m.cycles|).previous) && m.declaredUnique
  }

  /** The chain part of `_validate_core_reboot_persistence_report`; `others` counts the errors of
      its other checks. An escaping exception is not an acceptance. */
  method ValidateChain(m: Matrix, baseline: bool, others: nat, files: Files, t: Tools) returns (accepted: bool)
    ensures accepted <==> others == 0 && baseline && RowsAccepted(m, files, t)
  {
    var errors := others + Count(!RowMatches(m.seedRow, files, t)) + Count(!RowMatches(m.flashRow, files, t));
    var rows := m;
    if |m.cycles| != SOFTWARE_CYCLES + COLD_CYCLES {
      errors, rows := errors + 1, m.(cycles := []);
    }
    var found, scanned := ScanRows(rows, baseline, files, t);
    if scanned.None? {
      return false;
    }
    var s := scanned.value;
    errors := errors + found + Count(s.types != ORDERED_TYPES) + Count(s.software != SOFTWARE_ORDINALS)
      + Count(s.cold != COLD_ORDINALS) + Count(!PyEq(m.tail, s.previous)) + Count(!m.declaredUnique);
    accepted := errors == 0;
  }

  // ----- what the loop decides is the chain

  ghost predicate NoRepeatsTo(vs: seq<Json>, t: Tools, n: nat)
    requires n <= |vs|
  {
    n == 0 || (NoRepeatsTo(vs, t, n - 1) && !Repeats(vs[n - 1], Seen(vs, t, n - 1)))
  }

  lemma {:induction false} SeenHolds(vs: seq<Json>, t: Tools, n: nat, x: string)
    requires n <= |vs|
    ensures x in Seen(vs, t, n) <==> exists i :: 0 <= i < n && Shown(t, vs[i]) == x
  {
    if n > 0 {
      SeenHolds(vs, t, n - 1, x);
      if Shown(t, vs[n - 1]) == x {
        assert 0 <= n - 1 < n && Shown(t, vs[n - 1]) == x;
      }
    }
  }

  lemma {:induction false} NoRepeatsIff(vs: seq<Json>, t: Tools, n: nat)
    requires n <= |vs|
    ensures NoRepeatsTo(vs, t, n) <==> forall i, j :: 0 <= i < j < n && vs[j].Str? ==> vs[j].s != Shown(t, vs[i])
  {
    if n > 0 {
      NoRepeatsIff(vs, t, n - 1);
      if vs[n - 1].Str? {
        SeenHolds(vs, t, n - 1, vs[n - 1].s);
      }
    }
  }

  /** The link at `i` apart from its place among the cycles; its type can at least be looked up. */
  ghost predicate BoundAt(m: Matrix, files: Files, t: Tools, i: nat)
    requires i < |m.cycles|
  {
    && Bound(m, m.cycles[i], files, t, Previous(m, i))
    && Hashable(Get(Loaded(m.cycles[i], files, t), "cycle_type"))
  }

  ghost predicate BoundTo(m: Matrix, files: Files, t: Tools, n: nat)
    requires n <= |m.cycles|
  {
    n == 0 || (BoundTo(m, files, t, n - 1) && BoundAt(m, files, t, n - 1))
  }

  lemma {:induction false} BoundToIff(m: Matrix, files: Files, t: Tools, n: nat)
    requires n <= |m.cycles|
    ensures BoundTo(m, files, t, n) <==> forall i :: 0 <= i < n ==> BoundAt(m, files, t, i)
  {
    hide BoundAt;
    if n > 0 {
      BoundToIff(m, files, t, n - 1);
    }
  }

  lemma CleanStep(m: Matrix, files: Files, t: Tools, n: nat)
    requires n < |m.cycles|
    ensures Clean(At(m, files, t, n), m, m.cycles[n], files, t) <==>
      && BoundAt(m, files, t, n)
      && !Repeats(Column(m, "path")[n], Seen(Column(m, "path"), t, n))
      && !Repeats(Column(m, "sha256")[n], Seen(Column(m, "sha256"), t, n))
      && !Repeats(CycleIds(m, files, t)[n], Seen(CycleIds(m, files, t), t, n))
  {
    AtColumns(m, files, t, n);
  }

  lemma {:induction false} CleanMeans(m: Matrix, files: Files, t: Tools, n: nat)
    requires n <= |m.cycles|
    ensures CleanTo(m, files, t, n) <==>
      && BoundTo(m, files, t, n)
      && NoRepeatsTo(Column(m, "path"), t, n) && NoRepeatsTo(Column(m, "sha256"), t, n)
      && NoRepeatsTo(CycleIds(m, files, t), t, n)
  {
    hide Clean, BoundAt, Column, CycleIds, Seen, Repeats, At;
    if n > 0 {
      CleanMeans(m, files, t, n - 1);
      CleanStep(m, files, t, n - 1);
    }
  }

  // ----- types and ordinals

  lemma KnownType(c: Json)
    ensures |TypeOf(c)| <= 1 && (|TypeOf(c)| == 1 <==> Known(c))
    ensures Known(c) ==> Get(c, "cycle_type") == Str(TypeOf(c)[0])
  {
  }

  /** As many types as receipts means that every receipt has a known one, in order. */
  lemma {:induction false} AllKnown(cs: seq<Json>, n: nat)
    requires n <= |cs|
    ensures |Types(cs, n)| <= n
    ensures |Types(cs, n)| == n ==> forall i :: 0 <= i < n ==> Known(cs[i]) && Get(cs[i], "cycle_type") == Str(Types(cs, n)[i])
    ensures (forall i :: 0 <= i < n ==> Known(cs[i])) ==> |Types(cs, n)| == n
  {
    hide TypeOf, Known, Get;
    if n > 0 {
      AllKnown(cs, n - 1);
      KnownType(cs[n - 1]);
    }
  }

  predicate Expected(c: Json, i: nat) {
    Known(c) && Get(c, "cycle_type") == Str(ExpectedType(i))
  }

  lemma ExpectedOrdinalOf(c: Json, i: nat)
    requires Expected(c, i)
    ensures |OrdinalOf(c, SOFTWARE)| == if i < SOFTWARE_CYCLES then 1 else 0
    ensures |OrdinalOf(c, COLD)| == if i < SOFTWARE_CYCLES then 0 else 1
    ensures i < SOFTWARE_CYCLES ==> Int(OrdinalOf(c, SOFTWARE)[0]) == Get(c, "ordinal")
    ensures SOFTWARE_CYCLES <= i ==> Int(OrdinalOf(c, COLD)[0]) == Get(c, "ordinal")
  {
  }

  /** When the types are as expected, ordinal `i` of its kind is that of the receipt there. */
  lemma {:induction false} OrdinalsInPlace(cs: seq<Json>, n: nat)
    requires n <= |cs| && n <= SOFTWARE_CYCLES + COLD_CYCLES
    requires forall i :: 0 <= i < n ==> Expected(cs[i], i)
    ensures |Ordinals(cs, SOFTWARE, n)| == if n < SOFTWARE_CYCLES then n else SOFTWARE_CYCLES
    ensures |Ordinals(cs, COLD, n)| == if n < SOFTWARE_CYCLES then 0 else n - SOFTWARE_CYCLES
    ensures forall i :: 0 <= i < n && i < SOFTWARE_CYCLES ==> Int(Ordinals(cs, SOFTWARE, n)[i]) == Get(cs[i], "ordinal")
    ensures forall i :: SOFTWARE_CYCLES <= i < n ==> Int(Ordinals(cs, COLD, n)[i - SOFTWARE_CYCLES]) == Get(cs[i], "ordinal")
  {
    hide OrdinalOf, Expected, Get, Known;
    if n > 0 {
      OrdinalsInPlace(cs, n - 1);
      ExpectedOrdinalOf(cs[n - 1], n - 1);
    }
  }

  predicate Ordered(cs: seq<Json>) {
    && Types(cs, |cs|) == ORDERED_TYPES
    && Ordinals(cs, SOFTWARE, |cs|) == SOFTWARE_ORDINALS && Ordinals(cs, COLD, |cs|) == COLD_ORDINALS
  }

  ghost predicate AllPlaced(cs: seq<Json>) {
    forall i :: 0 <= i < |cs| ==> Placed(cs[i], i)
  }

  lemma OrderedMeansPlaced(cs: seq<Json>)
    requires |cs| == SOFTWARE_CYCLES + COLD_CYCLES && Ordered(cs)
    ensures AllPlaced(cs)
  {
    AllKnown(cs, |cs|);
    forall i | 0 <= i < |cs| ensures Expected(cs[i], i) {
      assert ORDERED_TYPES[i] == ExpectedType(i);
    }
    OrdinalsInPlace(cs, |cs|);
    forall i | 0 <= i < |cs| ensures Placed(cs[i], i) {
      assert Expected(cs[i], i);
      if i < SOFTWARE_CYCLES {
        assert SOFTWARE_ORDINALS[i] == ExpectedOrdinal(i);
      } else {
        assert COLD_ORDINALS[i - SOFTWARE_CYCLES] == ExpectedOrdinal(i);
      }
    }
  }

  lemma PlacedMeansOrdered(cs: seq<Json>)
    requires |cs| == SOFTWARE_CYCLES + COLD_CYCLES && AllPlaced(cs)
    ensures Ordered(cs)
  {
    forall i | 0 <= i < |cs| ensures Expected(cs[i], i) {
      assert Placed(cs[i], i);
    }
    AllKnown(cs, |cs|);
    OrdinalsInPlace(cs, |cs|);
    forall i | 0 <= i < |cs| ensures Types(cs, |cs|)[i] == ORDERED_TYPES[i] {
      assert Expected(cs[i], i);
    }
    forall i | 0 <= i < SOFTWARE_CYCLES ensures Ordinals(cs, SOFTWARE, |cs|)[i] == SOFTWARE_ORDINALS[i] {
      assert Placed(cs[i], i);
    }
    forall i | 0 <= i < COLD_CYCLES ensures Ordinals(cs, COLD, |cs|)[i] == COLD_ORDINALS[i] {
      assert Placed(cs[i + SOFTWARE_CYCLES], i + SOFTWARE_CYCLES);
    }
  }

  // ----- the verdict

  /** The links without their places, and nothing repeated. */
  ghost predicate BoundAndFresh(m: Matrix, files: Files, t: Tools) {
    && BoundTo(m, files, t, |m.cycles|)
    && NoRepeats(Column(m, "path"), t) && NoRepeats(Column(m, "sha256"), t) && NoRepeats(CycleIds(m, files, t), t)
  }

  lemma CleanIsBoundAndFresh(m: Matrix, files: Files, t: Tools)
    ensures CleanTo(m, files, t, |m.cycles|) <==> BoundAndFresh(m, files, t)
  {
    CleanMeans(m, files, t, |m.cycles|);
    NoRepeatsIff(Column(m, "path"), t, |m.cycles|);
    NoRepeatsIff(Column(m, "sha256"), t, |m.cycles|);
    NoRepeatsIff(CycleIds(m, files, t), t, |m.cycles|);
  }

  lemma LinksAreBoundAndPlaced(m: Matrix, files: Files, t: Tools)
    ensures (forall i :: 0 <= i < |m.cycles| ==> Link(m, files, t, i)) <==>
      BoundTo(m, files, t, |m.cycles|) && AllPlaced(Receipts(m, files, t))
  {
    var n := |m.cycles|;
    BoundToIff(m, files, t, n);
    forall i | 0 <= i < n
      ensures Link(m, files, t, i) <==> BoundAt(m, files, t, i) && Placed(Receipts(m, files, t)[i], i)
    {
    }
    hide Link, BoundAt, Placed, BoundTo, Receipts;
  }

  /** The validator's chain part accepts exactly the matrices whose receipts form the chain. */
  lemma RowsAcceptedExactly(m: Matrix, files: Files, t: Tools)
    ensures RowsAccepted(m, files, t) <==> ChainAccepted(m, files, t)
  {
    var n := |m.cycles|;
    var cs := Receipts(m, files, t);
    CleanIsBoundAndFresh(m, files, t);
    LinksAreBoundAndPlaced(m, files, t);
    AtColumns(m, files, t, n);
    if n == SOFTWARE_CYCLES + COLD_CYCLES {
      if Ordered(cs) { OrderedMeansPlaced(cs); }
      if AllPlaced(cs) { PlacedMeansOrdered(cs); }
      if BoundTo(m, files, t, n) {
        assert BoundAt(m, files, t, n - 1);
        PyEqString(m.tail, Previous(m, n));
      }
    }
    hide Column, CycleIds, NoRepeats, BoundTo, AllPlaced, Link, RowMatches;
  }
}
