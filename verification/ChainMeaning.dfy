/** What an accepted chain says of the rows of the matrix and the files behind them. */
module ChainMeaning {
  import opened HashChain
  import opened JsonModel
  import opened Results
  import opened Text

  /** The row describes this file. */
  predicate Describes(row: Json, bytes: Bytes, files: Files, t: Tools) {
    && Get(row, "path").Str? && Get(row, "path").s != "" && Get(row, "path").s in files
    && files[Get(row, "path").s] == bytes
    && Get(row, "size") == Int(|bytes|) && Get(row, "sha256") == Str(t.digest(bytes)) && Hex(t.digest(bytes), 64)
  }

  /** The receipt of cycle `i`: five software cycles, then three cold ones, each naming the seed, the closing flash
      and the digest before it, and itself recomputing. */
  predicate CycleReceipt(m: Matrix, c: Json, i: nat, t: Tools)
    requires i < |m.cycles|
  {
    && c.Obj?
    && Get(c, "cycle_type") == Str(if i < 5 then "software" else "cold")
    && Get(c, "ordinal") == Int(if i < 5 then i + 1 else i - 4)
    && Get(c, "previous_receipt_sha256") == Get(if i == 0 then m.flashRow else m.cycles[i - 1], "sha256")
    && Get(c, "seed_receipt_sha256") == Get(m.seedRow, "sha256")
    && Get(c, "closing_flash_receipt_sha256") == Get(m.flashRow, "sha256")
    && !Get(c, "cycle_id").Arr? && !Get(c, "cycle_id").Obj?
    && t.cycleOk(c)
  }

  /** A string that is no repetition of what an earlier value reads as. */
  predicate Fresh(earlier: Json, later: Json, t: Tools) {
    later.Str? ==> later.s != if earlier.Str? then earlier.s else t.show(earlier)
  }

  /** The receipts stand for the rows of the matrix. */
  ghost predicate Chain(m: Matrix, cs: seq<Json>, files: Files, t: Tools) {
    && |m.cycles| == |cs| == 8
    && (exists bytes :: Describes(m.seedRow, bytes, files, t)) && (exists bytes :: Describes(m.flashRow, bytes, files, t))
    && (forall i :: 0 <= i < 8 ==>
          (exists bytes :: Describes(m.cycles[i], bytes, files, t) && t.parse(bytes) == Some(cs[i])))
    && (forall i :: 0 <= i < 8 ==> CycleReceipt(m, cs[i], i, t))
    && (forall i, j :: 0 <= i < j < 8 ==>
          && Get(m.cycles[i], "path") != Get(m.cycles[j], "path") && Get(m.cycles[i], "sha256") != Get(m.cycles[j], "sha256")
          && Fresh(Get(cs[i], "cycle_id"), Get(cs[j], "cycle_id"), t))
    && m.tail == Get(m.cycles[7], "sha256") && m.declaredUnique
  }

  lemma DescribedExactly(row: Json, files: Files, t: Tools)
    ensures RowMatches(row, files, t) <==> exists bytes :: Describes(row, bytes, files, t)
  {
    hide Hex;
    if RowMatches(row, files, t) {
      assert Describes(row, files[Get(row, "path").s], files, t);
    }
  }

  lemma LoadedExactly(row: Json, c: Json, files: Files, t: Tools)
    ensures RowMatches(row, files, t) && Load(row, files, t) == Some(c) <==>
      c.Obj? && exists bytes :: Describes(row, bytes, files, t) && t.parse(bytes) == Some(c)
  {
    hide Hex;
    if RowMatches(row, files, t) && Load(row, files, t) == Some(c) {
      assert Describes(row, files[Get(row, "path").s], files, t);
    }
  }

  lemma LinkExactly(m: Matrix, files: Files, t: Tools, i: nat)
    requires i < |m.cycles|
    ensures var c := Loaded(m.cycles[i], files, t);
      Link(m, files, t, i) <==>
        && (exists bytes :: Describes(m.cycles[i], bytes, files, t) && t.parse(bytes) == Some(c))
        && CycleReceipt(m, c, i, t)
  {
    LoadedExactly(m.cycles[i], Loaded(m.cycles[i], files, t), files, t);
    hide RowMatches, Load, Describes;
  }

  /** A matrix is accepted exactly when its rows describe eight receipt files that form the chain. */
  lemma AcceptedExactly(m: Matrix, files: Files, t: Tools)
    ensures RowsAccepted(m, files, t) <==> exists cs :: Chain(m, cs, files, t)
  {
    RowsAcceptedExactly(m, files, t);
    hide RowsAccepted;
    if ChainAccepted(m, files, t) {
      ReceiptsChain(m, files, t);
    }
    if cs :| Chain(m, cs, files, t) {
      ChainIsAccepted(m, cs, files, t);
    }
  }

  /** Strings repeat exactly when two are the same. */
  lemma ColumnApart(m: Matrix, key: string, t: Tools)
    requires forall i :: 0 <= i < |m.cycles| ==> Get(m.cycles[i], key).Str?
    ensures NoRepeats(Column(m, key), t) <==>
      forall i, j :: 0 <= i < j < |m.cycles| ==> Get(m.cycles[i], key) != Get(m.cycles[j], key)
  {
    hide Get;
    var column := Column(m, key);
    assert |column| == |m.cycles| && forall i :: 0 <= i < |column| ==> column[i] == Get(m.cycles[i], key);
    hide Column;
    if NoRepeats(column, t) {
      forall i, j | 0 <= i < j < |m.cycles| ensures Get(m.cycles[i], key) != Get(m.cycles[j], key) {
        assert column[i] == Get(m.cycles[i], key) && column[j] == Get(m.cycles[j], key);
      }
    }
  }

  lemma IdsApart(m: Matrix, files: Files, t: Tools)
    ensures var cs := Receipts(m, files, t);
      NoRepeats(CycleIds(m, files, t), t) <==>
        forall i, j :: 0 <= i < j < |m.cycles| ==> Fresh(Get(cs[i], "cycle_id"), Get(cs[j], "cycle_id"), t)
  {
    hide Get, Loaded;
    var ids, cs := CycleIds(m, files, t), Receipts(m, files, t);
    assert |ids| == |m.cycles| && forall i :: 0 <= i < |ids| ==> ids[i] == Get(cs[i], "cycle_id");
    hide CycleIds, Receipts;
    if NoRepeats(ids, t) {
      forall i, j | 0 <= i < j < |m.cycles| ensures Fresh(Get(cs[i], "cycle_id"), Get(cs[j], "cycle_id"), t) {
        assert ids[i] == Get(cs[i], "cycle_id") && ids[j] == Get(cs[j], "cycle_id");
      }
    } else {
      var i, j :| 0 <= i < j < |ids| && ids[j].Str? && ids[j].s == Shown(t, ids[i]);
      assert !Fresh(Get(cs[i], "cycle_id"), Get(cs[j], "cycle_id"), t);
    }
  }

  /** A linked row describes a file and holds its receipt. */
  ghost predicate RowHolds(m: Matrix, c: Json, files: Files, t: Tools, i: nat)
    requires i < |m.cycles|
  {
    && (exists bytes :: Describes(m.cycles[i], bytes, files, t) && t.parse(bytes) == Some(c))
    && CycleReceipt(m, c, i, t)
  }

  lemma RowLoads(m: Matrix, c: Json, files: Files, t: Tools, i: nat)
    requires i < |m.cycles|
    ensures RowHolds(m, c, files, t, i) <==> Link(m, files, t, i) && Loaded(m.cycles[i], files, t) == c
    ensures RowHolds(m, c, files, t, i) ==> Get(m.cycles[i], "path").Str? && Get(m.cycles[i], "sha256").Str?
  {
    LoadedExactly(m.cycles[i], c, files, t);
    LinkExactly(m, files, t, i);
    hide RowMatches, Load, Hex;
    if RowHolds(m, c, files, t, i) {
      hide Link, CycleReceipt;
    } else {
      hide Describes, CycleReceipt;
    }
  }

  lemma ReceiptsChain(m: Matrix, files: Files, t: Tools)
    requires ChainAccepted(m, files, t)
    ensures Chain(m, Receipts(m, files, t), files, t)
  {
    var cs := Receipts(m, files, t);
    DescribedExactly(m.seedRow, files, t);
    DescribedExactly(m.flashRow, files, t);
    hide Describes, RowMatches, Get, Loaded;
    forall i | 0 <= i < 8
      ensures RowHolds(m, cs[i], files, t, i) && Get(m.cycles[i], "path").Str? && Get(m.cycles[i], "sha256").Str?
    {
      RowLoads(m, cs[i], files, t, i);
      hide Link, RowHolds, NoRepeats;
    }
    hide Link, CycleReceipt;
    ColumnApart(m, "path", t);
    ColumnApart(m, "sha256", t);
    IdsApart(m, files, t);
    hide Column, CycleIds, NoRepeats, Receipts, Fresh;
  }

  lemma ChainIsAccepted(m: Matrix, cs: seq<Json>, files: Files, t: Tools)
    requires Chain(m, cs, files, t)
    ensures ChainAccepted(m, files, t)
  {
    DescribedExactly(m.seedRow, files, t);
    DescribedExactly(m.flashRow, files, t);
    hide Describes, RowMatches, Get, CycleReceipt, Loaded, Fresh;
    forall i | 0 <= i < 8
      ensures Link(m, files, t, i) && Loaded(m.cycles[i], files, t) == cs[i]
      ensures Get(m.cycles[i], "path").Str? && Get(m.cycles[i], "sha256").Str?
    {
      assert RowHolds(m, cs[i], files, t, i);
      RowLoads(m, cs[i], files, t, i);
      hide Link, RowHolds;
    }
    assert Receipts(m, files, t) == cs;
    hide Link;
    ColumnApart(m, "path", t);
    ColumnApart(m, "sha256", t);
    IdsApart(m, files, t);
    hide Column, CycleIds, NoRepeats, Receipts, Chain;
  }
}
