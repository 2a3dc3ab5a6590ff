/** What a consistent listing of messages looks like, and what its projection keeps of it. */
module ListingMeaning {
  import opened JsonModel
  import opened PageProjection
  import opened RowPreservation
  import Sorting

  // ----- the pages

  predicate IsPage(command: string, page: Json) {
    && page.Obj? && PyEq(Get(page, "schema"), Int(1)) && Get(page, "ok") == Bool(true) && Get(page, "cmd") == Str(command)
    && Get(page, "filtered") == Bool(false) && Get(page, "offset").Int? && Get(page, "offset").n >= 0
    && Get(page, "entries").Arr? && (forall e :: e in Get(page, "entries").items ==> e.Obj?)
    && PyEq(Get(page, "page_count"), Int(|Get(page, "entries").items|))
  }

  /** Everything is loaded and written, without failures. */
  predicate IsSettled(page: Json) {
    var persistence := Get(page, "persistence");
    var nvs := Get(persistence, "nvs");
    && persistence.Obj? && Get(persistence, "loaded") == Bool(true) && Get(persistence, "dirty") == Bool(false)
    && PyEq(Get(persistence, "failures"), Int(0)) && nvs.Obj? && Get(nvs, "dirty") == Bool(false)
    && PyEq(Get(nvs, "failures"), Int(0)) && Get(nvs, "last_error") == Str("ESP_OK") && Get(page, "persisted") == Bool(true)
  }

  predicate Same(a: Json, b: Json, field: string) {
    PyEq(Get(a, field), Get(b, field))
  }

  /** Both pages are of the same store at the same time. */
  predicate SameStore(command: string, a: Json, b: Json) {
    && Same(a, b, "count") && Same(a, b, "capacity") && Same(a, b, "total_written") && Same(a, b, "dropped_oldest")
    && Same(a, b, "total_matches") && Same(a, b, "retained_epoch") && Same(a, b, "content_revision")
    && Same(a, b, "volatile_preview_present") && Same(a, b, "volatile_preview_seq")
    && if command == "messages public" then Same(a, b, "retained_store_count") && Same(a, b, "retained_public_count")
       else Same(a, b, "retained_count")
  }

  lemma MetadataExactly(command: string, a: Json, b: Json)
    ensures SameMetadata(command, a, b) <==> SameStore(command, a, b)
  {
    hide PyEq, Get;
    var stable, fields := STABLE, StableFields(command);
    assert SameMetadata(command, a, b) <==> forall i :: 0 <= i < |fields| ==> Same(a, b, fields[i]);
    hide SameMetadata, Same;
    assert fields[0] == "count" && fields[1] == "capacity" && fields[2] == "total_written" && fields[3] == "dropped_oldest"
        && fields[4] == "total_matches" && fields[5] == "retained_epoch" && fields[6] == "content_revision"
        && fields[7] == "volatile_preview_present" && fields[8] == "volatile_preview_seq";
    if command == "messages public" {
      assert |fields| == 11 && fields[9] == "retained_store_count" && fields[10] == "retained_public_count";
    } else {
      assert |fields| == 10 && fields[9] == "retained_count";
    }
  }

  lemma PageExactly(command: string, page: Json, first: Json)
    ensures PageClean(command, page, first) <==> IsPage(command, page) && IsSettled(page) && SameStore(command, page, first)
  {
    MetadataExactly(command, page, first);
    hide SameMetadata, SameStore, Get, PyEq;
  }

  // ----- the entries

  predicate IsDurable(e: Json) {
    Get(e, "retained") == Bool(true) && Get(e, "volatile_preview") == Bool(false)
  }

  predicate IsPreview(e: Json) {
    Get(e, "retained") == Bool(false) && Get(e, "volatile_preview") == Bool(true)
  }

  lemma KindExactly(e: Json)
    ensures (Durable(e) <==> IsDurable(e)) && (Volatile(e) <==> IsPreview(e))
    ensures Classified(e) <==> IsDurable(e) || IsPreview(e)
  {
    hide Get;
  }

  /** The entries are those of the pages, page by page. */
  lemma {:induction false} EntriesInOrder(pages: seq<Json>, n: nat, i: nat)
    requires i < n <= |pages| && forall p :: p in pages ==> Get(p, "entries").Arr?
    ensures var before, items := |Entries(pages, i)|, Get(pages[i], "entries").items;
      && |Entries(pages, 0)| == 0 && |Entries(pages, i + 1)| == before + |items|
      && before + |items| <= |Entries(pages, n)| && Entries(pages, n)[before..before + |items|] == items
  {
    hide Get, Entries;
    EntriesStep(pages, i + 1);
    if i < n - 1 {
      EntriesInOrder(pages, n - 1, i);
      EntriesStep(pages, n);
      var before, items := |Entries(pages, i)|, Get(pages[i], "entries").items;
      SliceOfFirst(Entries(pages, n - 1), Get(pages[n - 1], "entries").items, before, before + |items|);
    }
  }

  lemma SliceOfFirst<T>(a: seq<T>, b: seq<T>, i: nat, j: nat)
    requires i <= j <= |a|
    ensures (a + b)[i..j] == a[i..j]
  {
  }

  lemma EntriesStep(pages: seq<Json>, n: nat)
    requires 0 < n <= |pages| && forall p :: p in pages ==> Get(p, "entries").Arr?
    ensures Entries(pages, 0) == [] && Entries(pages, n) == Entries(pages, n - 1) + Get(pages[n - 1], "entries").items
  {
    hide Get;
  }

  function DurablePlaces(q: seq<Json>): set<nat> {
    set i: nat | i < |q| && IsDurable(q[i])
  }

  lemma PlacesStep(q: seq<Json>)
    requires q != []
    ensures var n: nat := |q| - 1;
      |DurablePlaces(q)| == |DurablePlaces(q[..n])| + if IsDurable(q[n]) then 1 else 0
  {
    hide IsDurable;
    var n: nat := |q| - 1;
    assert forall i: nat :: i < n ==> q[..n][i] == q[i];
    assert n !in DurablePlaces(q[..n]);
    assert DurablePlaces(q) == DurablePlaces(q[..n]) + if IsDurable(q[n]) then {n} else {};
  }

  lemma {:induction false} DurableCounted(q: seq<Json>)
    ensures |DurableOf(q)| == |DurablePlaces(q)|
  {
    if q == [] {
      assert DurablePlaces(q) == {};
    } else {
      hide IsDurable, Durable, DurablePlaces;
      DurableCounted(q[..|q| - 1]);
      KindExactly(q[|q| - 1]);
      PlacesStep(q);
    }
  }

  lemma {:induction false} DurableExactly(q: seq<Json>, e: Json)
    ensures e in DurableOf(q) <==> e in q && IsDurable(e)
  {
    if q != [] {
      var n := |q| - 1;
      DurableExactly(q[..n], e);
      KindExactly(q[n]);
      hide IsDurable, Durable;
      assert q == q[..n] + [q[n]];
    }
  }

  lemma {:induction false} NoPreview(q: seq<Json>)
    ensures VolatileOf(q) == [] <==> forall i :: 0 <= i < |q| ==> !IsPreview(q[i])
  {
    if q != [] {
      var n := |q| - 1;
      NoPreview(q[..n]);
      KindExactly(q[n]);
      hide IsPreview, Volatile;
    }
  }

  /** Entry `i` is the only preview. */
  predicate OnlyPreview(q: seq<Json>, i: int) {
    0 <= i < |q| && IsPreview(q[i]) && forall j :: 0 <= j < |q| && j != i ==> !IsPreview(q[j])
  }

  lemma {:induction false} PreviewAlone(q: seq<Json>, i: nat)
    requires OnlyPreview(q, i)
    ensures VolatileOf(q) == [q[i]]
  {
    var n := |q| - 1;
    KindExactly(q[n]);
    hide IsPreview, Volatile;
    assert forall j :: 0 <= j < n ==> q[..n][j] == q[j];
    if i == n {
      NoPreview(q[..n]);
    } else {
      PreviewAlone(q[..n], i);
    }
  }

  lemma {:induction false} FindPreview(q: seq<Json>) returns (i: nat)
    requires |VolatileOf(q)| == 1
    ensures OnlyPreview(q, i)
  {
    var n := |q| - 1;
    KindExactly(q[n]);
    hide IsPreview, Volatile;
    assert forall j :: 0 <= j < n ==> q[..n][j] == q[j];
    if IsPreview(q[n]) {
      NoPreview(q[..n]);
      assert VolatileOf(q[..n]) == [];
      i := n;
    } else {
      i := FindPreview(q[..n]);
    }
  }

  /** The preview the first page announces is there, and no other. */
  ghost predicate PreviewFits(first: Json, entries: seq<Json>) {
    || (Get(first, "volatile_preview_present") == Bool(true) && Get(first, "volatile_preview_seq").Int?
        && Get(first, "volatile_preview_seq").n > 0
        && exists i :: OnlyPreview(entries, i) && Announced(first, entries[i]))
    || (Get(first, "volatile_preview_present") == Bool(false) && PyEq(Get(first, "volatile_preview_seq"), Int(0))
        && forall i :: 0 <= i < |entries| ==> !IsPreview(entries[i]))
  }

  predicate Announced(first: Json, entry: Json) {
    PyEq(Get(entry, "seq"), Get(first, "volatile_preview_seq"))
  }

  lemma PreviewExactly(first: Json, entries: seq<Json>)
    ensures PreviewConsistent(first, VolatileOf(entries)) <==> PreviewFits(first, entries)
  {
    NoPreview(entries);
    if |VolatileOf(entries)| == 1 {
      var i := FindPreview(entries);
      PreviewAlone(entries, i);
    }
    forall i | OnlyPreview(entries, i) ensures VolatileOf(entries) == [entries[i]] {
      PreviewAlone(entries, i);
    }
    hide PyEq, Get, OnlyPreview, VolatileOf, IsPreview;
  }

  /** The counts the first page announces are those of the durable entries. */
  predicate CountsFit(command: string, first: Json, durable: nat) {
    && Get(first, "count") == Int(durable)
    && if command == "messages public" then
         && PyEq(Get(first, "retained_public_count"), Int(durable))
         && Get(first, "retained_store_count").Int? && Get(first, "capacity").Int? && Get(first, "capacity").n > 0
         && durable <= Get(first, "retained_store_count").n <= Get(first, "capacity").n
       else PyEq(Get(first, "retained_count"), Int(durable))
  }

  lemma CountsExactly(command: string, first: Json, durable: nat)
    ensures CountsConsistent(command, first, durable) <==> CountsFit(command, first, durable)
  {
    hide Get, PyEq;
  }

  // ----- the listing

  /** The second page is where the first announces a further one. */
  predicate PageLinked(page: Json, next: Json) {
    && Get(page, "has_older") == Bool(true) && Get(next, "offset") == Get(page, "next_offset")
    && Get(page, "offset").Int? && Get(next, "offset").Int? && Get(page, "offset").n < Get(next, "offset").n
  }

  /** Each page is where the one before announced it, and the last announces no other. */
  ghost predicate PagesLinked(pages: seq<Json>)
    requires pages != []
  {
    && Get(pages[0], "offset") == Int(0) && Get(pages[|pages| - 1], "has_older") == Bool(false)
    && forall i, j :: 0 <= i && j == i + 1 && j < |pages| ==> PageLinked(pages[i], pages[j])
  }

  lemma {:induction false} CursorsGrow(pages: seq<Json>, n: nat)
    requires n <= |pages| && Linked(pages, n)
    ensures Cursor(pages, n) >= 0
  {
    if n > 0 {
      CursorsGrow(pages, n - 1);
    }
  }

  ghost predicate Offsets(pages: seq<Json>)
    requires pages != []
  {
    && (forall i :: 0 <= i < |pages| ==> Get(pages[i], "offset") == Int(Cursor(pages, i)))
    && Linked(pages, |pages| - 1) && Get(pages[|pages| - 1], "has_older") == Bool(false)
  }

  lemma LinkedAt(pages: seq<Json>, n: nat, i: nat)
    requires i < n <= |pages| && Linked(pages, n)
    ensures Get(pages[i], "has_older") == Bool(true) && Cursor(pages, i) < Cursor(pages, i + 1)
  {
  }

  lemma LinkAt(pages: seq<Json>, i: nat)
    requires i + 1 < |pages| && Offsets(pages)
    ensures PageLinked(pages[i], pages[i + 1])
  {
    hide Linked, Cursor, Get;
    var c, d := Cursor(pages, i), Cursor(pages, i + 1);
    assert Get(pages[i], "offset") == Int(c) && Get(pages[i + 1], "offset") == Int(d);
    LinkedAt(pages, |pages| - 1, i);
    AnnouncedOffset(pages, i);
  }

  lemma AnnouncedOffset(pages: seq<Json>, i: nat)
    requires i + 1 < |pages| && Linked(pages, |pages| - 1)
    ensures Get(pages[i], "next_offset") == Int(Cursor(pages, i + 1))
  {
    hide Get;
    assert Linked(pages, i + 1);
    CursorsGrow(pages, i + 1);
    hide Linked;
  }

  lemma OffsetsLink(pages: seq<Json>)
    requires pages != [] && Offsets(pages)
    ensures PagesLinked(pages)
  {
    hide PageLinked, Get, Linked;
    forall i, j | 0 <= i && j == i + 1 && j < |pages| ensures PageLinked(pages[i], pages[j]) {
      LinkAt(pages, i);
    }
    assert Get(pages[0], "offset") == Int(Cursor(pages, 0));
  }

  lemma LinksOffset(pages: seq<Json>)
    requires pages != [] && PagesLinked(pages)
    ensures Offsets(pages)
  {
    forall i | 0 <= i < |pages| ensures Get(pages[i], "offset") == Int(Cursor(pages, i)) {
      hide Get;
      if i > 0 {
        var h := i - 1;
        assert PageLinked(pages[h], pages[i]);
      }
    }
    hide Get;
    forall i | 0 <= i < |pages| - 1
      ensures Get(pages[i], "has_older") == Bool(true) && Cursor(pages, i) < Cursor(pages, i + 1)
    {
      var j := i + 1;
      assert PageLinked(pages[i], pages[j]);
      hide Cursor;
    }
    hide PageLinked, Cursor;
  }

  lemma LinkedExactly(pages: seq<Json>)
    requires pages != []
    ensures Offsets(pages) <==> PagesLinked(pages)
  {
    hide Offsets, PagesLinked;
    if Offsets(pages) { OffsetsLink(pages); }
    if PagesLinked(pages) { LinksOffset(pages); }
  }

  /** A listing is consistent exactly when all of this holds of its pages and its entries. */
  lemma ConsistentSpelledOut(command: string, pages: seq<Json>)
    ensures Consistent(command, pages) <==>
      && pages != []
      && (forall p :: p in pages ==> IsPage(command, p) && IsSettled(p) && SameStore(command, p, pages[0]))
      && PagesLinked(pages)
      && var entries := Entries(pages, |pages|);
      && PyEq(Get(pages[0], "total_matches"), Int(|entries|))
      && (forall e :: e in entries ==> Get(e, "seq").Int? && (IsDurable(e) || IsPreview(e)))
      && (forall i, j :: 0 <= i < j < |entries| ==> Get(entries[i], "seq") != Get(entries[j], "seq"))
      && PreviewFits(pages[0], entries) && CountsFit(command, pages[0], |DurablePlaces(entries)|)
  {
    if pages != [] {
      PagesExactly(command, pages);
      LinkedExactly(pages);
      EntriesExactly(command, pages[0], Entries(pages, |pages|));
      hide PageClean, IsPage, IsSettled, SameStore, Linked, PagesLinked, EntriesConsistent, PreviewFits, CountsFit, Entries,
        IsDurable, IsPreview, DurablePlaces, Cursor, Get, PyEq;
    }
  }

  lemma PagesExactly(command: string, pages: seq<Json>)
    requires pages != []
    ensures (forall i :: 0 <= i < |pages| ==> PageClean(command, pages[i], pages[0])) <==>
      forall p :: p in pages ==> IsPage(command, p) && IsSettled(p) && SameStore(command, p, pages[0])
  {
    forall p ensures PageClean(command, p, pages[0]) <==> IsPage(command, p) && IsSettled(p) && SameStore(command, p, pages[0]) {
      PageExactly(command, p, pages[0]);
    }
    hide PageClean, IsPage, IsSettled, SameStore;
    if forall p :: p in pages ==> IsPage(command, p) && IsSettled(p) && SameStore(command, p, pages[0]) {
      assert forall i :: 0 <= i < |pages| ==> pages[i] in pages;
    }
  }

  lemma SeqsApart(entries: seq<Json>)
    requires forall i :: 0 <= i < |entries| ==> Get(entries[i], "seq").Int?
    ensures DistinctSeqs(entries) <==>
      forall i, j :: 0 <= i < j < |entries| ==> Get(entries[i], "seq") != Get(entries[j], "seq")
  {
    assert forall i :: 0 <= i < |entries| ==> Get(entries[i], "seq") == Int(Seq(entries[i]));
    hide Get, Seq;
    if DistinctSeqs(entries) {
      forall i, j | 0 <= i < j < |entries| ensures Get(entries[i], "seq") != Get(entries[j], "seq") {
        assert Seq(entries[i]) != Seq(entries[j]);
      }
    }
    if forall i, j :: 0 <= i < j < |entries| ==> Get(entries[i], "seq") != Get(entries[j], "seq") {
      forall i, j | 0 <= i < j < |entries| ensures Seq(entries[i]) != Seq(entries[j]) {
        assert Get(entries[i], "seq") != Get(entries[j], "seq");
      }
    }
  }

  lemma EntriesExactly(command: string, first: Json, entries: seq<Json>)
    ensures EntriesConsistent(command, first, entries) <==>
      && PyEq(Get(first, "total_matches"), Int(|entries|))
      && (forall e :: e in entries ==> Get(e, "seq").Int? && (IsDurable(e) || IsPreview(e)))
      && (forall i, j :: 0 <= i < j < |entries| ==> Get(entries[i], "seq") != Get(entries[j], "seq"))
      && PreviewFits(first, entries) && CountsFit(command, first, |DurablePlaces(entries)|)
  {
    PreviewExactly(first, entries);
    DurableCounted(entries);
    CountsExactly(command, first, |DurableOf(entries)|);
    KindsExactly(entries);
    hide PyEq, IsDurable, IsPreview, Classified, PreviewFits, PreviewConsistent, CountsFit, CountsConsistent, DurableOf,
      VolatileOf, DurablePlaces, Get, DistinctSeqs;
    if forall e :: e in entries ==> Get(e, "seq").Int? && (IsDurable(e) || IsPreview(e)) {
      SeqsApart(entries);
    }
  }

  lemma KindsExactly(entries: seq<Json>)
    ensures (forall i :: 0 <= i < |entries| ==> Get(entries[i], "seq").Int? && Classified(entries[i])) <==>
      forall e :: e in entries ==> Get(e, "seq").Int? && (IsDurable(e) || IsPreview(e))
  {
    forall e ensures Classified(e) <==> IsDurable(e) || IsPreview(e) {
      KindExactly(e);
    }
    hide Classified, IsDurable, IsPreview, Get;
    if forall e :: e in entries ==> Get(e, "seq").Int? && (IsDurable(e) || IsPreview(e)) {
      assert forall i :: 0 <= i < |entries| ==> entries[i] in entries;
    }
  }

  /** The projection carries the metadata of the first page. */
  lemma MetadataSpelledOut(command: string, pages: seq<Json>)
    requires pages != []
    ensures var p, first := ProjectionOf(command, pages), pages[0];
      && p.count == Get(first, "count") && p.capacity == Get(first, "capacity")
      && p.storeCount == (if command == "messages public" then Get(first, "retained_store_count") else Null)
      && p.totalWritten == Get(first, "total_written") && p.droppedOldest == Get(first, "dropped_oldest")
      && p.epoch == Get(first, "retained_epoch") && p.revision == Get(first, "content_revision")
  {
    hide SortBySeq, Entries, DurableOf;
  }

  /** Its entries are exactly the durable ones of the pages, by growing sequence number. */
  lemma RowsSpelledOut(command: string, pages: seq<Json>)
    requires Consistent(command, pages)
    ensures var rows := ProjectionOf(command, pages).entries;
      && (forall e :: e in rows <==> e in Entries(pages, |pages|) && IsDurable(e))
      && SeqsGrow(rows)
  {
    var all := Entries(pages, |pages|);
    var durable := DurableOf(all);
    assert ProjectionOf(command, pages).entries == SortBySeq(durable) && DistinctSeqs(all);
    assert forall i :: 0 <= i < |all| ==> Get(all[i], "seq").Int?;
    hide Consistent, ProjectionOf, Entries, Get;
    RowsGrow(all);
    hide SeqsGrow, DistinctSeqs, SortBySeq, IsDurable, DurableOf;
  }

  predicate SeqBefore(a: Json, b: Json) {
    Get(a, "seq").Int? && Get(b, "seq").Int? && Get(a, "seq").n < Get(b, "seq").n
  }

  predicate SeqsGrow(rows: seq<Json>) {
    forall i, j :: 0 <= i < j < |rows| ==> SeqBefore(rows[i], rows[j])
  }

  lemma RowsGrow(all: seq<Json>)
    requires DistinctSeqs(all) && forall i :: 0 <= i < |all| ==> Get(all[i], "seq").Int?
    ensures var rows := SortBySeq(DurableOf(all));
      && (forall e :: e in rows <==> e in all && IsDurable(e))
      && SeqsGrow(rows)
  {
    var durable := DurableOf(all);
    var rows := SortBySeq(durable);
    DurableDistinct(all);
    SortKeeps(durable);
    forall e ensures e in rows <==> e in all && IsDurable(e) {
      Sorting.SortPermutes(Sorting.ByKey(Seq), durable);
      DurableExactly(all, e);
      hide DurableOf, IsDurable;
    }
    forall e | e in all ensures Get(e, "seq") == Int(Seq(e)) {
      var k :| 0 <= k < |all| && all[k] == e;
    }
    assert forall i, j :: 0 <= i < j < |rows| ==> Seq(rows[i]) < Seq(rows[j]);
    hide SortBySeq, DurableOf, Get, Seq, Increasing, IsDurable, DistinctSeqs;
  }
}
