/** The two message stores of a retained-state snapshot, each read in two pages of eight. */
module RetainedStore {
  import opened Results
  import opened JsonModel
  import opened Ordering
  import opened RowPreservation
  import ContactRetention
  import Sorting

  type Tools = ContactRetention.Tools

  datatype Kind = Public | Direct

  const PAGE_SIZE := 8
  const CAPACITY := 16

  predicate AtLeast(v: Json, least: int) {
    v.Int? && v.n >= least
  }

  /** Size, counters and epoch of a store, as its first page states them. */
  predicate CountersValid(kind: Kind, first: Json) {
    var count := Get(first, "count");
    && AtLeast(count, 0) && Get(first, "capacity") == Int(CAPACITY) && count.n <= CAPACITY
    && (match kind
        case Public =>
          && AtLeast(Get(first, "retained_store_count"), count.n) && Get(first, "retained_store_count").n <= CAPACITY
          && PyEq(Get(first, "retained_public_count"), count)
          && AtLeast(Get(first, "total_written"), Get(first, "retained_store_count").n)
        case Direct =>
          && Get(first, "retained_count") == count && PyEq(Get(first, "total_matches"), count)
          && AtLeast(Get(first, "total_written"), count.n))
    && AtLeast(Get(first, "dropped_oldest"), 0) && AtLeast(Get(first, "retained_epoch"), 1)
    && AtLeast(Get(first, "content_revision"), 1)
  }

  predicate Settled(first: Json) {
    var persistence := Get(first, "persistence");
    var sd := Get(persistence, "sd");
    && persistence.Obj? && Get(first, "persisted") == Bool(true) && Get(persistence, "loaded") == Bool(true)
    && Get(persistence, "dirty") == Bool(false)
    && sd.Obj? && Get(sd, "required") == Bool(true) && Get(sd, "dirty") == Bool(false)
    && Get(sd, "reconcile_pending") == Bool(false) && Get(sd, "last_error") == Str("ESP_OK")
  }

  function PageCount(count: int, offset: int): int {
    if offset == 0 then if count < PAGE_SIZE then count else PAGE_SIZE
    else if count > PAGE_SIZE then count - PAGE_SIZE else 0
  }

  predicate HasOlder(count: int, offset: int) {
    offset == 0 && count > PAGE_SIZE
  }

  predicate Same(page: Json, first: Json, field: string) {
    PyEq(Get(page, field), Get(first, field))
  }

  /** The place of a page in its listing. */
  predicate Placed(page: Json, count: int, offset: int) {
    && PyEq(Get(page, "count"), Int(count)) && PyEq(Get(page, "capacity"), Int(CAPACITY))
    && PyEq(Get(page, "offset"), Int(offset)) && PyEq(Get(page, "page_size"), Int(PAGE_SIZE))
    && PyEq(Get(page, "page_count"), Int(PageCount(count, offset)))
    && PyEq(Get(page, "next_offset"), Int(if HasOlder(count, offset) || offset > 0 then PAGE_SIZE else 0))
    && Get(page, "has_older") == Bool(HasOlder(count, offset))
  }

  /** The counters a page repeats of the first. */
  predicate Repeats(kind: Kind, first: Json, page: Json) {
    && Same(page, first, "total_written") && Same(page, first, "dropped_oldest") && Same(page, first, "retained_epoch")
    && Same(page, first, "content_revision") && Same(page, first, "persistence")
    && match kind
       case Public =>
         && Same(page, first, "retained_store_count") && Same(page, first, "retained_public_count")
         && PyEq(Get(page, "total_matches"), Get(first, "retained_public_count"))
         && Get(page, "history_counters_scope") == Str("shared_all_channels")
       case Direct =>
         Same(page, first, "retained_count") && PyEq(Get(page, "total_matches"), Get(first, "retained_count"))
  }

  /** The rows of a page. */
  function Rows(page: Json): seq<Json> {
    if Get(page, "entries").Arr? then Get(page, "entries").items else []
  }

  predicate PageValid(kind: Kind, first: Json, page: Json, offset: int) {
    var count := Get(first, "count");
    && count.Int? && Get(page, "entries").Arr? && (forall i :: 0 <= i < |Rows(page)| ==> Rows(page)[i].Obj?)
    && Get(page, "filtered") == Bool(false) && Get(page, "volatile_preview_present") == Bool(false)
    && PyEq(Get(page, "volatile_preview_seq"), Int(0)) && Get(page, "persisted") == Bool(true)
    && Placed(page, count.n, offset) && Repeats(kind, first, page) && |Rows(page)| == PageCount(count.n, offset)
  }

  predicate RowValid(row: Json) {
    AtLeast(Get(row, "seq"), 1) && Get(row, "retained") == Bool(true) && Get(row, "volatile_preview") == Bool(false)
  }

  /** What a store must look like to be projected. */
  ghost predicate Acceptable(kind: Kind, pages: seq<Json>)
    requires |pages| == 2
  {
    && CountersValid(kind, pages[0]) && Settled(pages[0])
    && PageValid(kind, pages[0], pages[0], 0) && PageValid(kind, pages[0], pages[1], PAGE_SIZE)
    && (forall row :: row in Rows(pages[0]) + Rows(pages[1]) ==> RowValid(row))
    && DistinctSeqs(Rows(pages[0]) + Rows(pages[1]))
  }

  // ----- sorting by text

  function ByText(t: Tools): (Json, Json) -> bool {
    (a, b) => Less(t.text(a), t.text(b))
  }

  /** No row has a smaller text than one before it. */
  ghost predicate SortedByText(t: Tools, rows: seq<Json>) {
    Sorting.Sorted(ByText(t), rows)
  }

  /** `sorted(rows, key=text)` */
  function Sort(t: Tools, rows: seq<Json>): seq<Json> {
    Sorting.Sort(ByText(t), rows)
  }

  lemma TextOrder(t: Tools)
    ensures Sorting.StrictOrder(ByText(t))
  {
    forall x, y, z
      ensures ByText(t)(x, y) ==> !ByText(t)(y, x)
      ensures !ByText(t)(y, x) && !ByText(t)(z, y) ==> !ByText(t)(z, x)
    {
      LessTrichotomy(t.text(x), t.text(y));
      LessTrichotomy(t.text(y), t.text(z));
      LessTrichotomy(t.text(x), t.text(z));
      if Less(t.text(x), t.text(y)) && Less(t.text(y), t.text(z)) {
        LessTransitive(t.text(x), t.text(y), t.text(z));
      }
      hide Less;
    }
  }

  /** Sorting keeps the rows and their distinct sequence numbers. */
  lemma SortKeeps(t: Tools, rows: seq<Json>)
    ensures SortedByText(t, Sort(t, rows)) && |Sort(t, rows)| == |rows| && multiset(Sort(t, rows)) == multiset(rows)
    ensures forall x :: x in Sort(t, rows) <==> x in rows
    ensures DistinctSeqs(rows) ==> DistinctSeqs(Sort(t, rows))
  {
    TextOrder(t);
    Sorting.SortSorts(ByText(t), rows);
    Sorting.SortPermutes(ByText(t), rows);
    if DistinctSeqs(rows) {
      Sorting.DistinctPermuted(Seq, rows, Sort(t, rows));
    }
  }

  // ----- the projection of a store

  /** The loop over the rows of one page. */
  method AddRows(rows: seq<Json>, sofar: seq<Json>, sequences: set<int>) returns (ok: bool, more: set<int>)
    requires forall i :: 0 <= i < |sofar| ==> Seq(sofar[i]) in sequences
    requires forall n :: n in sequences ==> exists i :: 0 <= i < |sofar| && Seq(sofar[i]) == n
    requires DistinctSeqs(sofar)
    ensures ok <==> (forall row :: row in rows ==> RowValid(row)) && DistinctSeqs(sofar + rows)
    ensures ok ==> forall i :: 0 <= i < |sofar + rows| ==> Seq((sofar + rows)[i]) in more
    ensures ok ==> forall n :: n in more ==> exists i :: 0 <= i < |sofar + rows| && Seq((sofar + rows)[i]) == n
  {
    hide RowValid, Seq;
    more := sequences;
    var k := 0;
    assert sofar + rows[..0] == sofar;
    while k < |rows|
      invariant k <= |rows|
      invariant forall i :: 0 <= i < k ==> RowValid(rows[i])
      invariant DistinctSeqs(sofar + rows[..k])
      invariant forall i :: 0 <= i < |sofar + rows[..k]| ==> Seq((sofar + rows[..k])[i]) in more
      invariant forall n :: n in more ==> exists i :: 0 <= i < |sofar + rows[..k]| && Seq((sofar + rows[..k])[i]) == n
    {
      var row := rows[k];
      var all := sofar + rows[..k];
      assert sofar + rows[..k + 1] == all + [row];
      if !RowValid(row) {
        assert row in rows;
        return false, more;
      }
      if Seq(row) in more {
        Repeated(sofar, rows, k);
        return false, more;
      }
      more := more + {Seq(row)};
      k := k + 1;
      OneMoreSeq(all, row, more - {Seq(row)});
    }
    assert rows[..|rows|] == rows;
    ok := true;
  }

  lemma OneMoreSeq(all: seq<Json>, row: Json, seqs: set<int>)
    requires forall n :: n in seqs ==> exists i :: 0 <= i < |all| && Seq(all[i]) == n
    ensures forall n :: n in seqs + {Seq(row)} ==> exists i :: 0 <= i < |all + [row]| && Seq((all + [row])[i]) == n
  {
    hide Seq;
    forall n | n in seqs + {Seq(row)} ensures exists i :: 0 <= i < |all + [row]| && Seq((all + [row])[i]) == n {
      if n == Seq(row) {
        assert (all + [row])[|all|] == row;
      } else {
        var i :| 0 <= i < |all| && Seq(all[i]) == n;
        assert (all + [row])[i] == all[i];
      }
    }
  }

  lemma Repeated(sofar: seq<Json>, rows: seq<Json>, k: nat)
    requires k < |rows| && exists i :: 0 <= i < |sofar + rows[..k]| && Seq((sofar + rows[..k])[i]) == Seq(rows[k])
    ensures !DistinctSeqs(sofar + rows)
  {
    hide Seq;
    var i :| 0 <= i < |sofar + rows[..k]| && Seq((sofar + rows[..k])[i]) == Seq(rows[k]);
    assert (sofar + rows)[i] == (sofar + rows[..k])[i] && (sofar + rows)[|sofar| + k] == rows[k];
  }

  /** The paging checks of `retained_state_projection` for one store. */
  method ProjectStore(t: Tools, kind: Kind, pages: seq<Json>) returns (r: Option<seq<Json>>)
    requires |pages| == 2
    ensures r.Some? <==> Acceptable(kind, pages)
    ensures r.Some? ==> r.value == Sort(t, Rows(pages[0]) + Rows(pages[1]))
  {
    hide CountersValid, Settled, PageValid, RowValid, DistinctSeqs, Rows;
    if !CountersValid(kind, pages[0]) {
      return None;
    }
    if !PageValid(kind, pages[0], pages[0], 0) {
      return None;
    }
    NoSeqs();
    var first, sequences := AddRows(Rows(pages[0]), [], {});
    assert [] + Rows(pages[0]) == Rows(pages[0]);
    if !first {
      FewerRows(Rows(pages[0]), Rows(pages[1]));
      return None;
    }
    if !PageValid(kind, pages[0], pages[1], PAGE_SIZE) {
      return None;
    }
    var second;
    second, sequences := AddRows(Rows(pages[1]), Rows(pages[0]), sequences);
    if !second || !Settled(pages[0]) {
      return None;
    }
    r := Some(Sort(t, Rows(pages[0]) + Rows(pages[1])));
  }

  lemma NoSeqs()
    ensures DistinctSeqs([])
  {
  }

  lemma FewerRows(a: seq<Json>, b: seq<Json>)
    requires !DistinctSeqs(a) || exists row :: row in a && !RowValid(row)
    ensures !DistinctSeqs(a + b) || exists row :: row in a + b && !RowValid(row)
  {
    hide RowValid, Seq;
    if DistinctSeqs(a + b) {
      assert forall i :: 0 <= i < |a| ==> (a + b)[i] == a[i];
      var row :| row in a && !RowValid(row);
      assert row in a + b;
    }
  }

  lemma PageSize(kind: Kind, first: Json, page: Json, offset: int)
    requires PageValid(kind, first, page, offset)
    ensures Get(first, "count").Int? && |Rows(page)| == PageCount(Get(first, "count").n, offset)
  {
    hide Placed, Repeats, Rows, PyEq, Get;
  }

  lemma CountInCapacity(kind: Kind, first: Json)
    requires CountersValid(kind, first)
    ensures Get(first, "count").Int? && 0 <= Get(first, "count").n <= CAPACITY
  {
    hide PyEq, Get;
  }

  /** Two pages of eight hold all the rows the store counts. */
  lemma StoreSize(t: Tools, kind: Kind, pages: seq<Json>)
    requires |pages| == 2 && Acceptable(kind, pages)
    ensures var rows := Sort(t, Rows(pages[0]) + Rows(pages[1]));
      && Get(pages[0], "count") == Int(|rows|) && |rows| <= CAPACITY && SortedByText(t, rows) && DistinctSeqs(rows)
  {
    hide CountersValid, Settled, PageValid, DistinctSeqs, SortedByText, Rows, Sort, RowValid;
    CountInCapacity(kind, pages[0]);
    PageSize(kind, pages[0], pages[0], 0);
    PageSize(kind, pages[0], pages[1], PAGE_SIZE);
    assert DistinctSeqs(Rows(pages[0]) + Rows(pages[1]));
    hide Acceptable;
    SortKeeps(t, Rows(pages[0]) + Rows(pages[1]));
  }
}
