/** Which listings are captured, and which recorded page sets are read back. */
module PagesMeaning {
  import opened Decimal
  import opened DefectPages
  import opened JsonModel
  import opened Results
  import opened Text

  // ----- ids

  predicate IdGiven(item: Json) {
    Get(item, "id").Int? && Get(item, "id").n > 0
  }

  /** All ids are positive and no two are the same. */
  ghost predicate IdsApart(items: seq<Json>) {
    && (forall e :: e in items ==> IdGiven(e))
    && forall i, j :: 0 <= i < j < |items| ==> Get(items[i], "id") != Get(items[j], "id")
  }

  function IdSet(items: seq<Json>): set<int> {
    set e | e in items && Get(e, "id").Int? :: Get(e, "id").n
  }

  lemma {:induction false} AddIdsExactly(items: seq<Json>)
    ensures AddIds(items, {}).Some? <==> IdsApart(items)
    ensures AddIds(items, {}).Some? ==> AddIds(items, {}).value == IdSet(items)
  {
    if items == [] {
      assert IdSet(items) == {};
    } else {
      var n := |items| - 1;
      AddIdsExactly(items[..n]);
      assert items == items[..n] + [items[n]];
      IdsStep(items);
      hide Get, IdsApart;
      if AddIds(items, {}).Some? {
        assert IdSet(items) == IdSet(items[..n]) + {Get(items[n], "id").n};
      }
    }
  }

  lemma IdsStep(items: seq<Json>)
    requires items != []
    ensures var n := |items| - 1;
      IdsApart(items) <==> IdsApart(items[..n]) && IdGiven(items[n]) && Get(items[n], "id").n !in IdSet(items[..n])
  {
    hide Get;
    var n := |items| - 1;
    var init := items[..n];
    assert items == init + [items[n]];
    if IdsApart(items) {
      assert IdGiven(items[n]);
      assert forall i :: 0 <= i < n ==> Get(items[i], "id") != Get(items[n], "id");
      assert forall i :: 0 <= i < n ==> init[i] == items[i];
    }
    if IdsApart(init) && IdGiven(items[n]) && Get(items[n], "id").n !in IdSet(init) {
      forall i, j | 0 <= i < j < |items| ensures Get(items[i], "id") != Get(items[j], "id") {
        if j == n {
          assert items[i] in init;
        } else {
          assert Get(init[i], "id") != Get(init[j], "id");
        }
      }
    }
  }

  lemma {:induction false} AddIdsConcat(a: seq<Json>, b: seq<Json>)
    ensures AddIds(a, {}).Some? ==> AddIds(a + b, {}) == AddIds(b, AddIds(a, {}).value)
    ensures AddIds(a, {}).None? ==> AddIds(a + b, {}).None?
  {
    hide Get;
    if b == [] {
      assert a + b == a;
    } else {
      var n := |b| - 1;
      AddIdsConcat(a, b[..n]);
      assert (a + b)[..|a| + n] == a + b[..n];
    }
  }

  // ----- a listing as it is captured

  /** One page of the listing: the reply to its request, a list of at most 100 objects. */
  predicate PageTells(t: Tools, base: string, page: Page, number: nat) {
    && page.number == number
    && page.endpoint == base + (if '?' in base then "&" else "?") + "per_page=100&page=" + Dec(number)
    && t.parse(page.raw) == Some(Arr(page.items)) && |page.items| <= 100
    && forall e :: e in page.items ==> e.Obj?
  }

  /** Pages 1, 2, ..., the last of them empty and no other, with ids that are positive and differ. */
  ghost predicate Listing(t: Tools, base: string, pages: seq<Page>) {
    && 1 <= |pages| <= 10000 && (forall i :: 0 <= i < |pages| ==> PageTells(t, base, pages[i], i + 1))
    && (forall i :: 0 <= i < |pages| ==> (pages[i].items == [] <==> i == |pages| - 1))
    && IdsApart(Items(pages, |pages|))
  }

  lemma PageExactly(t: Tools, base: string, page: Page, number: nat)
    ensures Fetched(t, base, page, number) <==> PageTells(t, base, page, number)
  {
    hide Dec;
    if PageTells(t, base, page, number) {
      assert forall i :: 0 <= i < |page.items| ==> page.items[i] in page.items;
    }
  }

  lemma {:induction false} IdsOfExactly(pages: seq<Page>, n: nat)
    requires n <= |pages|
    ensures IdsOf(pages, n) == AddIds(Items(pages, n), {})
  {
    hide AddIds;
    if n == 0 {
      NoItems();
    } else {
      IdsOfExactly(pages, n - 1);
      AddIdsConcat(Items(pages, n - 1), pages[n - 1].items);
    }
  }

  lemma NoItems()
    ensures AddIds([], {}) == Some({})
  {
  }

  lemma CompleteSpelledOut(t: Tools, base: string, pages: seq<Page>)
    ensures Complete(t, base, pages) <==> Listing(t, base, pages)
  {
    forall i | 0 <= i < |pages| ensures Fetched(t, base, pages[i], i + 1) <==> PageTells(t, base, pages[i], i + 1) {
      PageExactly(t, base, pages[i], i + 1);
    }
    IdsOfExactly(pages, |pages|);
    AddIdsExactly(Items(pages, |pages|));
    hide Fetched, PageTells, IdsOf, Items, AddIds, IdsApart;
  }

  lemma {:induction false} CapturesFrom(t: Tools, base: string, api: nat -> Option<Bytes>, pages: seq<Page>, n: nat)
    requires n < |pages| && Complete(t, base, pages)
    requires forall i :: 0 <= i < |pages| ==> api(i + 1) == Some(pages[i].raw)
    ensures IdsOf(pages, n).Some? && CaptureFrom(t, base, api, pages[..n], IdsOf(pages, n).value) == Some(pages)
    decreases |pages| - n
  {
    IdsSeen(pages, n);
    IdsSeen(pages, n + 1);
    assert Fetched(t, base, pages[n], n + 1);
    assert api(n + 1) == Some(pages[n].raw);
    hide AddIds, JsonArray, PageEndpoint;
    assert pages[..n + 1] == pages[..n] + [pages[n]];
    assert pages[n] == Page(n + 1, PageEndpoint(base, n + 1), pages[n].raw, pages[n].items);
    if n == |pages| - 1 {
      assert pages[..n + 1] == pages;
    } else {
      CapturesFrom(t, base, api, pages, n + 1);
    }
  }

  /** A capture returns these pages exactly when they are the replies and form a listing. */
  lemma CapturedExactly(t: Tools, base: string, api: nat -> Option<Bytes>, pages: seq<Page>)
    ensures CaptureFrom(t, base, api, [], {}) == Some(pages) <==>
      Listing(t, base, pages) && forall i :: 0 <= i < |pages| ==> api(i + 1) == Some(pages[i].raw)
  {
    CompleteSpelledOut(t, base, pages);
    hide Listing, Complete;
    if CaptureFrom(t, base, api, [], {}) == Some(pages) {
      CapturedIsComplete(t, base, api, [], {}, pages);
    }
    if Complete(t, base, pages) && forall i :: 0 <= i < |pages| ==> api(i + 1) == Some(pages[i].raw) {
      NotEmpty(t, base, pages);
      CapturesFrom(t, base, api, pages, 0);
      assert pages[..0] == [];
    }
  }

  lemma NotEmpty(t: Tools, base: string, pages: seq<Page>)
    requires Complete(t, base, pages)
    ensures pages != [] && IdsOf(pages, 0) == Some({})
  {
    hide Fetched;
  }

  lemma {:induction false} CapturedIsComplete(
      t: Tools, base: string, api: nat -> Option<Bytes>, sofar: seq<Page>, ids: set<int>, pages: seq<Page>)
    requires |sofar| <= MAX_PAGES && IdsOf(sofar, |sofar|) == Some(ids)
    requires CaptureFrom(t, base, api, sofar, ids) == Some(pages)
    requires forall i :: 0 <= i < |sofar| ==>
      Fetched(t, base, sofar[i], i + 1) && sofar[i].items != [] && api(i + 1) == Some(sofar[i].raw)
    ensures Complete(t, base, pages) && forall i :: 0 <= i < |pages| ==> api(i + 1) == Some(pages[i].raw)
    decreases MAX_PAGES - |sofar|
  {
    hide AddIds, JsonArray, PageEndpoint;
    var number := |sofar| + 1;
    var items := JsonArray(t, api(number).value).value;
    var page := Page(number, PageEndpoint(base, number), api(number).value, items);
    IdsSnoc(sofar, page);
    if items != [] {
      CapturedIsComplete(t, base, api, sofar + [page], AddIds(items, ids).value, pages);
    }
  }

  // ----- a page set that is read back

  /** The row stands for a file directly inside the directory that holds a page. */
  predicate RowReads(t: Tools, base: string, files: Files, dir: string, row: PageRow, number: nat, page: Page) {
    && PageTells(t, base, page, number) && row.page == number && row.endpoint == page.endpoint
    && row.itemCount == |page.items| && FileReads(t, files, dir, row.response, page.raw)
  }

  predicate FileReads(t: Tools, files: Files, dir: string, row: FileRow, raw: Bytes) {
    && row.path != "" && row.path[0] != '/' && '\\' !in row.path
    && |row.path| > |dir| + 1 && row.path[..|dir|] == dir && row.path[|dir|] == '/' && '/' !in row.path[|dir| + 1..]
    && row.path in files && files[row.path] == raw && row.size == |raw| && row.sha256 == t.digest(raw) && Hex(row.sha256, 64)
  }

  lemma FileExactly(t: Tools, files: Files, dir: string, row: FileRow, seen: set<string>, raw: Bytes)
    ensures ReceiptFile(t, files, dir, row, seen) == Some(raw) <==> FileReads(t, files, dir, row, raw) && row.path !in seen
  {
    hide Hex;
  }

  /** One page is accepted exactly when its row stands for a page, its file is new, and its ids are. */
  lemma OnePageExactly(
      t: Tools, base: string, files: Files, dir: string, row: PageRow, number: nat, last: bool, s: Recomputing)
    ensures var page := PageOf(t, base, files, row, number);
      var r := RecomputePage(t, base, files, dir, row, number, last, s);
      && (r.Some? <==>
          && RowReads(t, base, files, dir, row, number, page) && row.response.path !in s.seen
          && (last || page.items != []) && AddIds(page.items, s.ids).Some?)
      && (r.Some? ==>
          r.value == Recomputing(s.items + page.items, AddIds(page.items, s.ids).value, s.seen + {row.response.path}))
  {
    var page := PageOf(t, base, files, row, number);
    FileExactly(t, files, dir, row.response, s.seen, page.raw);
    if row.response.path in files {
      ArrayExactly(t, page.raw);
    }
    assert PageEndpoint(base, number) == base + (if '?' in base then "&" else "?") + "per_page=100&page=" + Dec(number);
    hide AddIds, JsonArray, PageEndpoint, Beside, Hex, FileReads, Dec;
  }

  lemma ArrayExactly(t: Tools, raw: Bytes)
    ensures var items := JsonArray(t, raw);
      && (items.Some? <==> exists list: seq<Json> :: t.parse(raw) == Some(Arr(list)) && forall e :: e in list ==> e.Obj?)
      && (items.Some? ==> t.parse(raw) == Some(Arr(items.value)) && forall e :: e in items.value ==> e.Obj?)
  {
    if list: seq<Json> :| t.parse(raw) == Some(Arr(list)) && forall e :: e in list ==> e.Obj? {
      assert forall i :: 0 <= i < |list| ==> list[i] in list;
    }
  }

  /** The files of the first `n` rows are different ones, and not used before. */
  ghost predicate FilesApart(rows: seq<PageRow>, n: nat, seen: set<string>)
    requires n <= |rows|
  {
    && (forall i :: 0 <= i < n ==> rows[i].response.path !in seen)
    && forall i, j :: 0 <= i < j < n ==> rows[i].response.path != rows[j].response.path
  }

  function PathsOf(rows: seq<PageRow>, n: nat): set<string>
    requires n <= |rows|
  {
    set i | 0 <= i < n :: rows[i].response.path
  }

  lemma FilesStep(rows: seq<PageRow>, n: nat, seen: set<string>)
    requires 0 < n <= |rows|
    ensures FilesApart(rows, n, seen) <==>
      FilesApart(rows, n - 1, seen) && rows[n - 1].response.path !in seen + PathsOf(rows, n - 1)
    ensures PathsOf(rows, n) == PathsOf(rows, n - 1) + {rows[n - 1].response.path}
  {
    var p := rows[n - 1].response.path;
    if p in PathsOf(rows, n - 1) {
      var i :| 0 <= i < n - 1 && rows[i].response.path == p;
    }
  }

  /** The first `n` rows stand for the first pages of a listing. */
  ghost predicate RowsRead(t: Tools, base: string, files: Files, dir: string, rows: seq<PageRow>, pages: seq<Page>, n: nat)
    requires n <= |rows| == |pages|
  {
    && (forall i :: 0 <= i < n ==> RowReads(t, base, files, dir, rows[i], i + 1, pages[i]))
    && forall i :: 0 <= i < n && i < |rows| - 1 ==> pages[i].items != []
  }

  lemma RowsReadStep(t: Tools, base: string, files: Files, dir: string, rows: seq<PageRow>, pages: seq<Page>, n: nat)
    requires 0 < n <= |rows| == |pages|
    ensures RowsRead(t, base, files, dir, rows, pages, n) <==>
      && RowsRead(t, base, files, dir, rows, pages, n - 1) && RowReads(t, base, files, dir, rows[n - 1], n, pages[n - 1])
      && (n == |rows| || pages[n - 1].items != [])
  {
    hide RowReads;
  }

  lemma {:induction false} PagesReadExactly(
      t: Tools, base: string, files: Files, dir: string, rows: seq<PageRow>, n: nat, seen: set<string>)
    requires n <= |rows|
    ensures var pages, r := PagesOf(t, base, files, rows), RecomputePages(t, base, files, dir, rows, n, seen);
      var ids := AddIds(Items(pages, n), {});
      && (r.Some? <==> RowsRead(t, base, files, dir, rows, pages, n) && FilesApart(rows, n, seen) && ids.Some?)
      && (r.Some? ==> r.value == Recomputing(Items(pages, n), ids.value, seen + PathsOf(rows, n)))
  {
    hide RecomputePage, AddIds, PageOf, RowReads;
    if n == 0 {
      NoItems();
      assert seen + PathsOf(rows, 0) == seen;
    } else {
      PagesReadExactly(t, base, files, dir, rows, n - 1, seen);
      var pages := PagesOf(t, base, files, rows);
      FilesStep(rows, n, seen);
      RowsReadStep(t, base, files, dir, rows, pages, n);
      AddIdsConcat(Items(pages, n - 1), pages[n - 1].items);
      hide PathsOf, FilesApart, RowsRead;
      var before := RecomputePages(t, base, files, dir, rows, n - 1, seen);
      if before.Some? {
        OnePageExactly(t, base, files, dir, rows[n - 1], n, n == |rows|, before.value);
        assert before.value.seen + {rows[n - 1].response.path} == seen + (PathsOf(rows, n - 1) + {rows[n - 1].response.path});
      }
    }
  }

  /** A set stands for these pages. */
  ghost predicate SetReads(
      t: Tools, base: string, files: Files, dir: string, pageSet: PageSet, seen: set<string>, pages: seq<Page>)
  {
    && |pages| == |pageSet.pages| > 0
    && pageSet.complete && pageSet.sentinel == |pages| && pageSet.pageCount == |pages|
    && pageSet.itemCount == |Items(pages, |pages|)|
    && RowsRead(t, base, files, dir, pageSet.pages, pages, |pages|) && pages[|pages| - 1].items == []
    && FilesApart(pageSet.pages, |pages|, seen) && IdsApart(Items(pages, |pages|))
  }

  /** A recorded page set is read back exactly when it stands for the pages of a listing; what is read are their items and
      the set itself. */
  lemma ReadBackExactly(
      t: Tools, base: string, files: Files, dir: string, pageSet: PageSet, seen: set<string>, items: seq<Json>, summary: PageSet)
    ensures Recompute(t, base, files, dir, pageSet, seen) == Some((items, summary)) <==>
      summary == pageSet && exists pages :: SetReads(t, base, files, dir, pageSet, seen, pages) && items == Items(pages, |pages|)
  {
    var rows := pageSet.pages;
    var own := PagesOf(t, base, files, rows);
    PagesReadExactly(t, base, files, dir, rows, |rows|, seen);
    AddIdsExactly(Items(own, |own|));
    forall pages | SetReads(t, base, files, dir, pageSet, seen, pages) ensures pages == own {
      OnlyPages(t, base, files, dir, rows, pages);
    }
    hide RecomputePages, AddIds, RowsRead, FilesApart, IdsApart, Items, PagesOf;
    if rows != [] && RecomputePages(t, base, files, dir, rows, |rows|, seen).Some? {
      LastRow(t, base, files, dir, rows, own);
    }
    assert Recompute(t, base, files, dir, pageSet, seen) ==
      if SetReads(t, base, files, dir, pageSet, seen, own) then Some((Items(own, |own|), pageSet)) else None;
    hide Recompute, SetReads;
  }

  lemma LastRow(t: Tools, base: string, files: Files, dir: string, rows: seq<PageRow>, pages: seq<Page>)
    requires 0 < |rows| == |pages| && RowsRead(t, base, files, dir, rows, pages, |rows|)
    ensures rows[|rows| - 1].itemCount == |pages[|rows| - 1].items|
  {
    assert RowReads(t, base, files, dir, rows[|rows| - 1], |rows| - 1 + 1, pages[|rows| - 1]);
    hide PageTells, FileReads;
  }

  /** The rows determine the pages they stand for. */
  lemma OnlyPages(t: Tools, base: string, files: Files, dir: string, rows: seq<PageRow>, pages: seq<Page>)
    requires |rows| == |pages| && RowsRead(t, base, files, dir, rows, pages, |rows|)
    ensures pages == PagesOf(t, base, files, rows)
  {
    forall i | 0 <= i < |pages| ensures pages[i] == PageOf(t, base, files, rows[i], i + 1) {
      assert RowReads(t, base, files, dir, rows[i], i + 1, pages[i]);
      ArrayExactly(t, pages[i].raw);
      assert PageEndpoint(base, i + 1) == pages[i].endpoint;
      hide JsonArray, PageEndpoint, Dec, Hex;
    }
  }
}
