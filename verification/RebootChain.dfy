/** The receipts the producer writes form the chain the validator recomputes. */
module RebootChain {
  import opened JsonModel
  import opened Results
  import HashChain
  import R = RebootMatrix
  import opened Decimal
  import opened Text

  /** How receipts become files: the JSON dump, the identity of the matrix, its cycle directory, the
      fields of a cycle receipt that the chain does not read, and the rows of the two receipts the
      matrix is anchored in. */
  datatype Naming = Naming(
    dump: Json -> HashChain.Bytes, matrixId: string, dir: string, rest: nat -> map<string, Json>,
    seedRow: Json, flashRow: Json)

  /** `f"{cycle_type}{separator}{ordinal}"` */
  function Label(k: nat, separator: char): string {
    HashChain.ExpectedType(k) + [separator] + Dec(HashChain.ExpectedOrdinal(k))
  }

  function CycleId(a: Naming, k: nat): string {
    a.matrixId + ":" + Label(k, ':')
  }

  function PathOf(a: Naming, k: nat): string {
    a.dir + "/" + Label(k, '_') + ".json"
  }

  /** The receipt of a cycle as JSON. */
  function CycleJson(a: Naming, r: R.Receipt): Json
    requires r.Cycle?
  {
    Obj(a.rest(r.cycle) + map[
      "cycle_id" := Str(CycleId(a, r.cycle)), "cycle_type" := Str(HashChain.ExpectedType(r.cycle)),
      "ordinal" := Int(HashChain.ExpectedOrdinal(r.cycle)),
      "seed_receipt_sha256" := Str(r.seed), "closing_flash_receipt_sha256" := Str(r.flash),
      "previous_receipt_sha256" := Str(r.previous), "ok" := Bool(r.ok)])
  }

  function FileBytes(a: Naming, r: R.Receipt): HashChain.Bytes
    requires r.Cycle?
  {
    a.dump(CycleJson(a, r))
  }

  /** What the file of cycle `k` holds. */
  function CycleFile(a: Naming, w: R.World, k: nat): HashChain.Bytes {
    FileBytes(a, R.SentByCycle(w, k))
  }

  /** `relative_file_row` of the file of cycle `k`. */
  function RowJson(a: Naming, w: R.World, k: nat): Json {
    Obj(map[
      "path" := Str(PathOf(a, k)), "size" := Int(|CycleFile(a, w, k)|),
      "sha256" := Str(R.RowOf(w, k).sha256)])
  }

  /** The chain part of an assembled matrix with all its cycles. */
  function MatrixOf(a: Naming, w: R.World): HashChain.Matrix {
    HashChain.Matrix(
      a.seedRow, a.flashRow, seq(R.CYCLES, k requires 0 <= k < R.CYCLES => RowJson(a, w, k)), Str(R.Tail(w, R.CYCLES)),
      |R.Digests(R.Rows(w, R.CYCLES))| == R.CYCLES)
  }

  /** SHA-256 and JSON as the chain needs them, on the eight cycle files only: the digests are 64
      hexadecimal digits, no two of the files collide, and parsing undoes printing. */
  ghost predicate Sound(a: Naming, w: R.World, t: HashChain.Tools) {
    && (forall k: nat :: k < R.CYCLES ==>
      Hex(t.digest(CycleFile(a, w, k)), 64) && t.parse(CycleFile(a, w, k)) == Some(CycleJson(a, R.SentByCycle(w, k))))
    && (forall i: nat, j: nat :: i < j < R.CYCLES && t.digest(CycleFile(a, w, i)) == t.digest(CycleFile(a, w, j)) ==>
      CycleFile(a, w, i) == CycleFile(a, w, j))
  }

  /** The files are those the producer wrote, and nobody touched them since. */
  ghost predicate Written(a: Naming, w: R.World, files: HashChain.Files, t: HashChain.Tools) {
    && (forall k: nat :: k < R.CYCLES ==> R.RowOf(w, k).sha256 == t.digest(CycleFile(a, w, k)))
    && (forall k: nat :: k < R.CYCLES ==> PathOf(a, k) in files && files[PathOf(a, k)] == CycleFile(a, w, k))
    && HashChain.RowMatches(a.seedRow, files, t) && HashChain.RowMatches(a.flashRow, files, t)
    && Get(a.seedRow, "sha256") == Str(w.seed) && Get(a.flashRow, "sha256") == Str(w.flash)
  }

  // ----- nothing is named twice

  lemma LabelsDiffer(i: nat, j: nat, separator: char)
    requires i < j < R.CYCLES
    ensures Label(i, separator) != Label(j, separator)
    ensures |HashChain.ExpectedType(i)| == |HashChain.ExpectedType(j)| || Label(i, separator)[0] != Label(j, separator)[0]
  {
    if HashChain.ExpectedType(i) == HashChain.ExpectedType(j) {
      if Dec(HashChain.ExpectedOrdinal(i)) == Dec(HashChain.ExpectedOrdinal(j)) {
        DecInjective(HashChain.ExpectedOrdinal(i), HashChain.ExpectedOrdinal(j));
      }
      var n := |HashChain.ExpectedType(i)| + 1;
      assert Label(i, separator)[n..] == Dec(HashChain.ExpectedOrdinal(i));
      assert Label(j, separator)[n..] == Dec(HashChain.ExpectedOrdinal(j));
    } else {
      assert HashChain.ExpectedType(i)[0] == 's' && HashChain.ExpectedType(j)[0] == 'c';
    }
  }

  lemma IdsDiffer(a: Naming, i: nat, j: nat)
    requires i < j < R.CYCLES
    ensures CycleId(a, i) != CycleId(a, j)
  {
    LabelsDiffer(i, j, ':');
    if CycleId(a, i) == CycleId(a, j) {
      assert a.matrixId + ":" + Label(i, ':') + "" == a.matrixId + ":" + Label(j, ':') + "";
      SameMiddle(a.matrixId + ":", Label(i, ':'), Label(j, ':'), "");
    }
  }

  lemma PathsDiffer(a: Naming, i: nat, j: nat)
    requires i < j < R.CYCLES
    ensures PathOf(a, i) != PathOf(a, j)
  {
    LabelsDiffer(i, j, '_');
    if PathOf(a, i) == PathOf(a, j) {
      SameMiddle(a.dir + "/", Label(i, '_'), Label(j, '_'), ".json");
    }
  }

  // ----- the chain

  /** All eight cycles closed, and each receipt recomputes as ok on its own. */
  ghost predicate AllClosed(a: Naming, w: R.World, t: HashChain.Tools) {
    forall k: nat :: k < R.CYCLES ==> R.Proceeds(w, k) && t.cycleOk(CycleJson(a, R.Finishes(w, k, true)))
  }

  lemma RowIntact(a: Naming, w: R.World, files: HashChain.Files, t: HashChain.Tools, k: nat)
    requires Sound(a, w, t) && Written(a, w, files, t) && k < R.CYCLES
    ensures HashChain.RowMatches(RowJson(a, w, k), files, t)
    ensures HashChain.Load(RowJson(a, w, k), files, t) == Some(CycleJson(a, R.SentByCycle(w, k)))
  {
    var path := Get(RowJson(a, w, k), "path");
    assert path == Str(PathOf(a, k)) && PathOf(a, k) in files;
    assert R.RowOf(w, k).sha256 == t.digest(CycleFile(a, w, k));
    hide PathOf, CycleJson, CycleFile, R.RowOf;
  }

  lemma CycleFields(a: Naming, r: R.Receipt)
    requires r.Cycle?
    ensures var c := CycleJson(a, r);
      && Get(c, "cycle_id") == Str(CycleId(a, r.cycle)) && Get(c, "cycle_type") == Str(HashChain.ExpectedType(r.cycle))
      && Get(c, "ordinal") == Int(HashChain.ExpectedOrdinal(r.cycle)) && Get(c, "seed_receipt_sha256") == Str(r.seed)
      && Get(c, "closing_flash_receipt_sha256") == Str(r.flash) && Get(c, "previous_receipt_sha256") == Str(r.previous)
  {
    hide CycleId, HashChain.ExpectedOrdinal, HashChain.ExpectedType;
  }

  lemma RowDigest(a: Naming, w: R.World, k: nat)
    ensures Get(RowJson(a, w, k), "sha256") == Str(R.RowOf(w, k).sha256)
    ensures Get(RowJson(a, w, k), "path") == Str(PathOf(a, k))
  {
    hide PathOf, R.RowOf, CycleFile;
  }

  lemma PreviousLink(a: Naming, w: R.World, files: HashChain.Files, t: HashChain.Tools, k: nat)
    requires Written(a, w, files, t) && k <= R.CYCLES && (k > 0 ==> R.Proceeds(w, k - 1))
    ensures HashChain.Previous(MatrixOf(a, w), k) == Str(R.Previous(w, k)) == Str(R.Tail(w, k))
  {
    R.TailIsPrevious(w, k);
    if k > 0 {
      RowDigest(a, w, k - 1);
    }
    hide R.Previous, RowJson;
  }

  lemma Anchors(a: Naming, w: R.World, files: HashChain.Files, t: HashChain.Tools)
    requires Written(a, w, files, t)
    ensures Get(a.seedRow, "sha256") == Str(w.seed) && Get(a.flashRow, "sha256") == Str(w.flash)
    ensures HashChain.RowMatches(a.seedRow, files, t) && HashChain.RowMatches(a.flashRow, files, t)
  {
  }

  lemma ClosedCycle(a: Naming, w: R.World, t: HashChain.Tools, k: nat)
    requires AllClosed(a, w, t) && k < R.CYCLES
    ensures t.cycleOk(CycleJson(a, R.SentByCycle(w, k)))
    ensures R.SentByCycle(w, k) == R.Cycle(k, w.seed, w.flash, R.Previous(w, k), true, false)
    ensures k > 0 ==> R.Proceeds(w, k - 1)
  {
    assert R.Proceeds(w, k) && t.cycleOk(CycleJson(a, R.Finishes(w, k, true)));
    assert k > 0 ==> R.Proceeds(w, k - 1);
    hide CycleJson;
  }

  lemma LinkHolds(a: Naming, w: R.World, files: HashChain.Files, t: HashChain.Tools, k: nat)
    requires Sound(a, w, t) && Written(a, w, files, t) && AllClosed(a, w, t) && k < R.CYCLES
    ensures HashChain.Link(MatrixOf(a, w), files, t, k)
  {
    hide RowJson, CycleJson, HashChain.RowMatches, HashChain.Load, HashChain.Previous, R.Previous, CycleId,
      Sound, AllClosed, Written, R.SentByCycle, R.Proceeds;
    Anchors(a, w, files, t);
    ClosedCycle(a, w, t, k);
    RowIntact(a, w, files, t, k);
    CycleFields(a, R.SentByCycle(w, k));
    PreviousLink(a, w, files, t, k);
  }

  lemma DigestsDiffer(a: Naming, w: R.World, files: HashChain.Files, t: HashChain.Tools, i: nat, j: nat)
    requires Sound(a, w, t) && Written(a, w, files, t) && i < j < R.CYCLES
    ensures R.RowOf(w, i).sha256 != R.RowOf(w, j).sha256
  {
    var x, y := R.SentByCycle(w, i), R.SentByCycle(w, j);
    IdsDiffer(a, i, j);
    CycleFields(a, x);
    CycleFields(a, y);
    assert CycleJson(a, x) != CycleJson(a, y);
    hide CycleJson, CycleId, CycleFile, R.RowOf;
  }

  lemma {:induction false} NotAmong(w: R.World, n: nat, d: string)
    requires forall i: nat :: i < n ==> R.RowOf(w, i).sha256 != d
    ensures d !in R.Digests(R.Rows(w, n))
  {
    hide R.RowOf;
    if n > 0 {
      NotAmong(w, n - 1, d);
      OneMore(R.Rows(w, n - 1), R.RowOf(w, n - 1));
      hide R.Digests;
    }
  }

  lemma {:induction false} DistinctDigests(a: Naming, w: R.World, files: HashChain.Files, t: HashChain.Tools, n: nat)
    requires Sound(a, w, t) && Written(a, w, files, t) && n <= R.CYCLES
    ensures |R.Digests(R.Rows(w, n))| == n
  {
    hide Sound, Written, R.RowOf;
    if n > 0 {
      DistinctDigests(a, w, files, t, n - 1);
      forall i: nat | i < n - 1 ensures R.RowOf(w, i).sha256 != R.RowOf(w, n - 1).sha256 {
        DigestsDiffer(a, w, files, t, i, n - 1);
      }
      NotAmong(w, n - 1, R.RowOf(w, n - 1).sha256);
      OneMore(R.Rows(w, n - 1), R.RowOf(w, n - 1));
      hide R.Digests;
    }
  }

  lemma OneMore(rows: seq<R.Row>, r: R.Row)
    ensures R.Digests(rows + [r]) == R.Digests(rows) + {r.sha256}
  {
    assert forall d :: d in R.Digests(rows + [r]) <==> d in R.Digests(rows) + {r.sha256} by {
      assert r in rows + [r];
      assert forall x :: x in rows ==> x in rows + [r];
    }
  }

  lemma NamesOf(a: Naming, w: R.World, files: HashChain.Files, t: HashChain.Tools, k: nat)
    requires Sound(a, w, t) && Written(a, w, files, t) && k < R.CYCLES
    ensures HashChain.Column(MatrixOf(a, w), "path")[k] == Str(PathOf(a, k))
    ensures HashChain.Column(MatrixOf(a, w), "sha256")[k] == Str(R.RowOf(w, k).sha256)
    ensures HashChain.CycleIds(MatrixOf(a, w), files, t)[k] == Str(CycleId(a, k))
  {
    hide RowJson, CycleJson, PathOf, CycleId, R.RowOf, HashChain.Load, Sound, Written, HashChain.RowMatches;
    RowDigest(a, w, k);
    RowIntact(a, w, files, t, k);
    CycleFields(a, R.SentByCycle(w, k));
  }

  lemma DistinctStrings(vs: seq<Json>, t: HashChain.Tools)
    requires forall i :: 0 <= i < |vs| ==> vs[i].Str?
    requires forall i, j :: 0 <= i < j < |vs| ==> vs[i] != vs[j]
    ensures HashChain.NoRepeats(vs, t)
  {
  }

  lemma NothingRepeats(a: Naming, w: R.World, files: HashChain.Files, t: HashChain.Tools)
    requires Sound(a, w, t) && Written(a, w, files, t)
    ensures HashChain.NoRepeats(HashChain.Column(MatrixOf(a, w), "path"), t)
    ensures HashChain.NoRepeats(HashChain.Column(MatrixOf(a, w), "sha256"), t)
    ensures HashChain.NoRepeats(HashChain.CycleIds(MatrixOf(a, w), files, t), t)
  {
    var m := MatrixOf(a, w);
    var paths, digests, ids := HashChain.Column(m, "path"), HashChain.Column(m, "sha256"), HashChain.CycleIds(m, files, t);
    assert |paths| == |digests| == |ids| == R.CYCLES;
    hide *;
    forall i | 0 <= i < R.CYCLES
      ensures paths[i] == Str(PathOf(a, i)) && digests[i] == Str(R.RowOf(w, i).sha256) && ids[i] == Str(CycleId(a, i))
    {
      NamesOf(a, w, files, t, i);
    }
    forall i, j | 0 <= i < j < R.CYCLES
      ensures paths[i] != paths[j] && digests[i] != digests[j] && ids[i] != ids[j]
    {
      PathsDiffer(a, i, j);
      DigestsDiffer(a, w, files, t, i, j);
      IdsDiffer(a, i, j);
    }
    DistinctStrings(paths, t);
    DistinctStrings(digests, t);
    DistinctStrings(ids, t);
  }

  /** When every cycle closed, the matrix the producer assembles passes every check of the chain, so
      the producer's own validation can only fail elsewhere. */
  lemma ProducedChainAccepted(a: Naming, w: R.World, files: HashChain.Files, t: HashChain.Tools)
    requires Sound(a, w, t) && Written(a, w, files, t) && AllClosed(a, w, t)
    ensures HashChain.ChainAccepted(MatrixOf(a, w), files, t)
    ensures R.Assembled(w) == R.Report(true, R.Rows(w, R.CYCLES), R.Tail(w, R.CYCLES), MatrixOf(a, w).declaredUnique, false)
  {
    forall k | 0 <= k < R.CYCLES ensures HashChain.Link(MatrixOf(a, w), files, t, k) {
      LinkHolds(a, w, files, t, k);
    }
    NothingRepeats(a, w, files, t);
    DistinctDigests(a, w, files, t, R.CYCLES);
    assert R.Proceeds(w, R.CYCLES - 1);
    PreviousLink(a, w, files, t, R.CYCLES);
    R.HaltMeans(w, 0);
    assert forall k :: 0 <= k < R.CYCLES ==> R.Proceeds(w, k);
    hide HashChain.Link, HashChain.NoRepeats, HashChain.Column, HashChain.CycleIds, RowJson, R.Rows,
      HashChain.Previous, R.Previous, R.Digests;
  }
}
