/** The projection of a paginated message listing onto its durable rows. */
module PageProjection {
  import opened Results
  import opened JsonModel
  import opened RowPreservation
  import Sorting
  import StateCapture

  const STABLE := [
    "count", "capacity", "total_written", "dropped_oldest", "total_matches", "retained_epoch", "content_revision",
    "volatile_preview_present", "volatile_preview_seq"]

  /** The metadata that no page may change. */
  function StableFields(command: string): seq<string> {
    STABLE + if command == StateCapture.PUBLIC then ["retained_store_count", "retained_public_count"] else ["retained_count"]
  }

  /** `_clean_persistence` */
  predicate CleanPersistence(result: Json) {
    var persistence := Get(result, "persistence");
    var nvs := Get(persistence, "nvs");
    && persistence.Obj? && Get(persistence, "loaded") == Bool(true) && Get(persistence, "dirty") == Bool(false)
    && PyEq(Get(persistence, "failures"), Int(0))
    && nvs.Obj? && Get(nvs, "dirty") == Bool(false) && PyEq(Get(nvs, "failures"), Int(0))
    && Get(nvs, "last_error") == Str("ESP_OK") && Get(result, "persisted") == Bool(true)
  }

  /** The entries of a page, when they are a list of objects of the declared length. */
  predicate EntriesValid(result: Json) {
    var entries := Get(result, "entries");
    && entries.Arr? && (forall i :: 0 <= i < |entries.items| ==> entries.items[i].Obj?)
    && PyEq(Get(result, "page_count"), Int(|entries.items|))
  }

  predicate OffsetValid(result: Json) {
    Get(result, "offset").Int? && Get(result, "offset").n >= 0
  }

  /** A page that is read at all. */
  predicate Readable(command: string, result: Json) {
    StateCapture.CommandOk(result, command) && OffsetValid(result) && EntriesValid(result)
  }

  predicate SameMetadata(command: string, a: Json, b: Json) {
    var fields := StableFields(command);
    forall i :: 0 <= i < |fields| ==> PyEq(Get(a, fields[i]), Get(b, fields[i]))
  }

  /** A page that adds no error, behind a first page with the metadata of `first`. */
  predicate PageClean(command: string, result: Json, first: Json) {
    && Readable(command, result) && Get(result, "filtered") == Bool(false) && CleanPersistence(result)
    && SameMetadata(command, result, first)
  }

  // ----- the pages

  function Entries(pages: seq<Json>, n: nat): seq<Json>
    requires n <= |pages|
  {
    if n == 0 then []
    else Entries(pages, n - 1) + if Get(pages[n - 1], "entries").Arr? then Get(pages[n - 1], "entries").items else []
  }

  datatype Scanned = Scanned(first: Option<Json>, offsets: seq<int>, entries: seq<Json>, errors: nat)

  /** The loop over the pages. */
  method ScanPages(command: string, pages: seq<Json>) returns (s: Scanned)
    requires pages != []
    ensures s.errors == 0 ==> s.first == Some(pages[0]) && s.entries == Entries(pages, |pages|) && |s.offsets| == |pages|
    ensures s.errors == 0 ==> forall i :: 0 <= i < |pages| ==> PageClean(command, pages[i], pages[0])
    ensures s.errors == 0 ==> forall i :: 0 <= i < |pages| ==> Get(pages[i], "offset") == Int(s.offsets[i])
    ensures s.first.None? ==> s.errors > 0
    ensures s.errors == 0 <== forall i :: 0 <= i < |pages| ==> PageClean(command, pages[i], pages[0])
  {
    hide StateCapture.CommandOk, CleanPersistence, SameMetadata, EntriesValid, Get;
    s := Scanned(None, [], [], 0);
    for i := 0 to |pages|
      invariant s.errors == 0 ==> s.entries == Entries(pages, i) && |s.offsets| == i && (i > 0 ==> s.first == Some(pages[0]))
      invariant s.errors == 0 ==> forall j :: 0 <= j < i ==> PageClean(command, pages[j], pages[0])
      invariant s.errors == 0 ==> forall j :: 0 <= j < i ==> Get(pages[j], "offset") == Int(s.offsets[j])
      invariant if i == 0 then s.first.None? else s.first.None? ==> s.errors > 0
      invariant (forall j :: 0 <= j < i ==> PageClean(command, pages[j], pages[0])) ==> s.errors == 0
    {
      var result := pages[i];
      if !StateCapture.CommandOk(result, command) {
        s := s.(errors := s.errors + 1);
        continue;
      }
      var errors := s.errors + Count(Get(result, "filtered") != Bool(false)) + Count(!CleanPersistence(result));
      if !OffsetValid(result) || !EntriesValid(result) {
        s := s.(errors := errors + 1);
        continue;
      }
      SameAsItself(command, result);
      if s.first.None? {
        s := s.(first := Some(result));
      } else if !SameMetadata(command, result, s.first.value) {
        errors := errors + 1;
      }
      PageEntries(result);
      s := Scanned(
        s.first, s.offsets + [Get(result, "offset").n], s.entries + Get(result, "entries").items, errors);
    }
  }

  lemma SameAsItself(command: string, result: Json)
    ensures SameMetadata(command, result, result)
  {
  }

  lemma PageEntries(result: Json)
    requires EntriesValid(result)
    ensures Get(result, "entries").Arr?
  {
  }

  // ----- the pagination

  /** Page `i` was asked for at the offset the page before announced, up to a page without more. */
  function Cursor(pages: seq<Json>, i: nat): int
    requires i <= |pages|
  {
    if i == 0 then 0
    else if Get(pages[i - 1], "next_offset").Int? then Get(pages[i - 1], "next_offset").n else -1
  }

  /** Pages `0..n` all announce a further page, at growing offsets. */
  ghost predicate Linked(pages: seq<Json>, n: nat)
    requires n <= |pages|
  {
    forall i :: 0 <= i < n ==> Get(pages[i], "has_older") == Bool(true) && Cursor(pages, i) < Cursor(pages, i + 1)
  }

  /** The loop over the expected offsets. */
  method ExpectedOffsets(pages: seq<Json>) returns (expected: seq<int>, errors: nat)
    requires pages != []
    ensures 0 < |expected| <= |pages|
    ensures errors == 0 ==> (forall i :: 0 <= i < |expected| ==> expected[i] == Cursor(pages, i)) && Linked(pages, |expected| - 1)
    ensures errors == 0 && |expected| == |pages| ==> Linked(pages, |pages|) || Get(pages[|pages| - 1], "has_older") != Bool(true)
    ensures errors == 0 && |expected| < |pages| ==> Get(pages[|expected| - 1], "has_older") != Bool(true)
    ensures Linked(pages, |pages| - 1) && Get(pages[|pages| - 1], "has_older") != Bool(true) ==> errors == 0 && |expected| == |pages|
  {
    hide Get;
    expected, errors := [], 0;
    var cursor := 0;
    while |expected| < |pages|
      invariant |expected| <= |pages| && 0 <= cursor == Cursor(pages, |expected|) && errors == 0
      invariant forall i :: 0 <= i < |expected| ==> expected[i] == Cursor(pages, i)
      invariant Linked(pages, |expected|)
      decreases |pages| - |expected|
    {
      var result := pages[|expected|];
      expected := expected + [cursor];
      if Get(result, "has_older") == Bool(true) {
        var next := Get(result, "next_offset");
        if !next.Int? || next.n <= cursor {
          errors := errors + 1;
          assert |expected| < |pages| ==> !(Cursor(pages, |expected| - 1) < Cursor(pages, |expected|));
          return;
        }
        cursor := next.n;
      } else {
        return;
      }
    }
  }

  // ----- the entries

  /** `retained` and `volatile_preview` are booleans and differ. */
  predicate Classified(entry: Json) {
    && Get(entry, "retained").Bool? && Get(entry, "volatile_preview").Bool?
    && Get(entry, "retained").b != Get(entry, "volatile_preview").b
  }

  predicate Durable(entry: Json) {
    Classified(entry) && Get(entry, "retained").b
  }

  predicate Volatile(entry: Json) {
    Classified(entry) && !Get(entry, "retained").b
  }

  function DurableOf(entries: seq<Json>): seq<Json> {
    if entries == [] then []
    else
      var last := entries[|entries| - 1];
      DurableOf(entries[..|entries| - 1]) + if Durable(last) then [last] else []
  }

  function VolatileOf(entries: seq<Json>): seq<Json> {
    if entries == [] then []
    else
      var last := entries[|entries| - 1];
      VolatileOf(entries[..|entries| - 1]) + if Volatile(last) then [last] else []
  }

  /** The two loops that classify the entries and collect their sequence numbers. */
  method Classify(entries: seq<Json>) returns (durable: seq<Json>, volatile: seq<Json>, seqs: seq<int>, errors: nat)
    ensures durable == DurableOf(entries) && volatile == VolatileOf(entries)
    ensures errors == 0 <==> forall i :: 0 <= i < |entries| ==> Classified(entries[i])
    ensures |seqs| <= |entries|
    ensures |seqs| == |entries| <==> forall i :: 0 <= i < |entries| ==> Get(entries[i], "seq").Int?
    ensures |seqs| == |entries| ==> forall i :: 0 <= i < |entries| ==> Get(entries[i], "seq") == Int(seqs[i])
  {
    hide Get;
    durable, volatile, seqs, errors := [], [], [], 0;
    assert entries[..|entries|] == entries;
    for i := 0 to |entries|
      invariant durable == DurableOf(entries[..i]) && volatile == VolatileOf(entries[..i])
      invariant errors == 0 <==> forall j :: 0 <= j < i ==> Classified(entries[j])
      invariant |seqs| <= i && (|seqs| == i <==> forall j :: 0 <= j < i ==> Get(entries[j], "seq").Int?)
      invariant |seqs| == i ==> forall j :: 0 <= j < i ==> Get(entries[j], "seq") == Int(seqs[j])
    {
      var entry := entries[i];
      assert entries[..i + 1][..i] == entries[..i];
      if Get(entry, "seq").Int? {
        seqs := seqs + [Get(entry, "seq").n];
      }
      if !Classified(entry) {
        errors := errors + 1;
        continue;
      }
      if Get(entry, "retained").b { durable := durable + [entry]; } else { volatile := volatile + [entry]; }
    }
  }

  /** When all entries are classified, each is either durable or volatile. */
  lemma {:induction false} NothingLost(entries: seq<Json>)
    requires forall i :: 0 <= i < |entries| ==> Classified(entries[i])
    ensures |entries| == |DurableOf(entries)| + |VolatileOf(entries)|
  {
    hide Get;
    if entries != [] {
      NothingLost(entries[..|entries| - 1]);
    }
  }

  lemma {:induction false} DurableMember(entries: seq<Json>, e: Json)
    requires e in DurableOf(entries)
    ensures e in entries && Durable(e)
  {
    hide Durable;
    var init := entries[..|entries| - 1];
    if e in DurableOf(init) {
      DurableMember(init, e);
    }
  }

  // ----- sorting

  /** `rows.sort(key=seq)` on integers. */
  function SortBySeq(rows: seq<Json>): seq<Json> {
    Sorting.Sort(Sorting.ByKey(Seq), rows)
  }

  /** Strictly increasing by sequence number. */
  ghost predicate Increasing(rows: seq<Json>) {
    Sorting.Increasing(Seq, rows)
  }

  /** Rows with distinct sequence numbers end strictly increasing, and are all kept. */
  lemma SortKeeps(rows: seq<Json>)
    requires DistinctSeqs(rows)
    ensures Increasing(SortBySeq(rows)) && multiset(SortBySeq(rows)) == multiset(rows) && |SortBySeq(rows)| == |rows|
  {
    Sorting.SortIncreases(Seq, rows);
    Sorting.SortPermutes(Sorting.ByKey(Seq), rows);
  }

  lemma {:induction false} DurableDistinct(entries: seq<Json>)
    requires DistinctSeqs(entries)
    ensures DistinctSeqs(DurableOf(entries))
  {
    hide Seq, Durable;
    if entries != [] {
      var init, last := entries[..|entries| - 1], entries[|entries| - 1];
      DurableDistinct(init);
      forall i | 0 <= i < |DurableOf(init)| ensures Seq(DurableOf(init)[i]) != Seq(last) {
        DurableMember(init, DurableOf(init)[i]);
      }
    }
  }

  // ----- the projection

  datatype Projection = Projection(
    count: Json, capacity: Json, storeCount: Json, totalWritten: Json, droppedOldest: Json, epoch: Json, revision: Json,
    entries: seq<Json>)

  predicate PreviewConsistent(first: Json, volatile: seq<Json>) {
    var present, number := Get(first, "volatile_preview_present"), Get(first, "volatile_preview_seq");
    && present.Bool?
    && if present.b then |volatile| == 1 && number.Int? && number.n > 0 && PyEq(Get(volatile[0], "seq"), number)
       else volatile == [] && PyEq(number, Int(0))
  }

  predicate CountsConsistent(command: string, first: Json, durable: nat) {
    var count := Get(first, "count");
    && count == Int(durable)
    && if command == StateCapture.PUBLIC then
         var store, capacity := Get(first, "retained_store_count"), Get(first, "capacity");
         && PyEq(Get(first, "retained_public_count"), count)
         && store.Int? && capacity.Int? && capacity.n > 0 && durable <= store.n <= capacity.n
       else PyEq(Get(first, "retained_count"), count)
  }

  ghost predicate EntriesConsistent(command: string, first: Json, entries: seq<Json>) {
    && PyEq(Get(first, "total_matches"), Int(|entries|))
    && (forall i :: 0 <= i < |entries| ==> Get(entries[i], "seq").Int? && Classified(entries[i]))
    && DistinctSeqs(entries)
    && PreviewConsistent(first, VolatileOf(entries)) && CountsConsistent(command, first, |DurableOf(entries)|)
  }

  /** What makes a listing complete and consistent. */
  ghost predicate Consistent(command: string, pages: seq<Json>) {
    && pages != []
    && (forall i :: 0 <= i < |pages| ==> PageClean(command, pages[i], pages[0]))
    && (forall i :: 0 <= i < |pages| ==> Get(pages[i], "offset") == Int(Cursor(pages, i)))
    && Linked(pages, |pages| - 1) && Get(pages[|pages| - 1], "has_older") == Bool(false)
    && EntriesConsistent(command, pages[0], Entries(pages, |pages|))
  }

  /** The checks on the collected entries. */
  method CheckEntries(command: string, first: Json, entries: seq<Json>) returns (durable: seq<Json>, errors: nat)
    ensures durable == DurableOf(entries)
    ensures errors == 0 <==> EntriesConsistent(command, first, entries)
  {
    hide Get, PyEq;
    var volatile, seqs, unclassified;
    durable, volatile, seqs, unclassified := Classify(entries);
    errors := unclassified + Count(!PyEq(Get(first, "total_matches"), Int(|entries|)));
    Sorting.DistinctBySize(seqs);
    if |seqs| != |entries| || |Sorting.ToSet(seqs)| != |seqs| {
      errors := errors + 1;
    }
    SeqsOf(entries, seqs);
    errors := errors + Count(!PreviewConsistent(first, volatile)) + Count(!CountsConsistent(command, first, |durable|));
    hide DistinctSeqs, Classified, PreviewConsistent, CountsConsistent, Sorting.ToSet, DurableOf, VolatileOf;
  }

  lemma SeqsOf(entries: seq<Json>, seqs: seq<int>)
    ensures |seqs| == |entries| && (forall i :: 0 <= i < |entries| ==> Get(entries[i], "seq") == Int(seqs[i])) ==>
      (DistinctSeqs(entries) <==> forall i, j :: 0 <= i < j < |seqs| ==> seqs[i] != seqs[j])
  {
    if |seqs| == |entries| && forall i :: 0 <= i < |entries| ==> Get(entries[i], "seq") == Int(seqs[i]) {
      assert forall i :: 0 <= i < |entries| ==> Seq(entries[i]) == seqs[i];
    }
  }

  /** `_page_projection`; an exception it would raise on malformed values counts as an error. */
  method Project(command: string, pages: seq<Json>) returns (projection: Option<Projection>, errors: nat)
    ensures errors == 0 <==> Consistent(command, pages)
    ensures errors == 0 ==> projection == Some(ProjectionOf(command, pages))
  {
    hide Get, PageClean, EntriesConsistent;
    if pages == [] {
      return None, 1;
    }
    var scanned := ScanPages(command, pages);
    if scanned.first.None? {
      return None, scanned.errors;
    }
    var first := scanned.first.value;
    var expected, unlinked := ExpectedOffsets(pages);
    errors := scanned.errors + unlinked;
    var n := if |scanned.offsets| <= |expected| then |scanned.offsets| else |expected|;
    errors := errors + Count(scanned.offsets != expected[..n]);
    errors := errors + Count(Get(pages[|pages| - 1], "has_older") != Bool(false));
    var durable, bad := CheckEntries(command, first, scanned.entries);
    errors := errors + bad;
    projection := Some(Projection(
      Get(first, "count"), Get(first, "capacity"),
      if command == StateCapture.PUBLIC then Get(first, "retained_store_count") else Null,
      Get(first, "total_written"), Get(first, "dropped_oldest"), Get(first, "retained_epoch"), Get(first, "content_revision"),
      SortBySeq(durable)));
  }

  /** The projection of a consistent listing. */
  function ProjectionOf(command: string, pages: seq<Json>): Projection
    requires pages != []
  {
    var first := pages[0];
    Projection(
      Get(first, "count"), Get(first, "capacity"),
      if command == StateCapture.PUBLIC then Get(first, "retained_store_count") else Null,
      Get(first, "total_written"), Get(first, "dropped_oldest"), Get(first, "retained_epoch"), Get(first, "content_revision"),
      SortBySeq(DurableOf(Entries(pages, |pages|))))
  }

  /** An error-free listing announces its durable rows, plus one if there is a volatile preview; the
      projection keeps every durable row, strictly increasing by sequence number. */
  lemma CountsAndOrder(command: string, pages: seq<Json>)
    requires Consistent(command, pages)
    ensures var p := ProjectionOf(command, pages);
      var entries := Entries(pages, |pages|);
      && Increasing(p.entries) && multiset(p.entries) == multiset(DurableOf(entries)) && p.count == Int(|p.entries|)
      && PyEq(Get(pages[0], "total_matches"),
              Int(|p.entries| + if Get(pages[0], "volatile_preview_present") == Bool(true) then 1 else 0))
  {
    hide PageClean, Linked, DistinctSeqs, SortBySeq, Entries, PyEq, Classified, Increasing, DurableOf, VolatileOf,
      Get, Cursor;
    var entries := Entries(pages, |pages|);
    NothingLost(entries);
    DurableDistinct(entries);
    SortKeeps(DurableOf(entries));
  }
}
