/** The paginated capture of a GitHub listing, its raw pages on disk, and their recomputation. */
module DefectPages {
  import opened Results
  import opened JsonModel
  import opened Decimal
  import opened Text

  type Bytes = string

  const PAGE_SIZE := 100
  const MAX_PAGES := 10000

  /** JSON text and SHA-256; both are arbitrary here. */
  datatype Tools = Tools(parse: Bytes -> Option<Json>, digest: Bytes -> string)

  datatype Page = Page(number: nat, endpoint: string, raw: Bytes, items: seq<Json>)

  /** `_page_endpoint` */
  function PageEndpoint(base: string, page: nat): string {
    base + (if '?' in base then "&" else "?") + "per_page=100&page=" + Dec(page)
  }

  /** `_json_array`: a list of objects. */
  function JsonArray(t: Tools, raw: Bytes): Option<seq<Json>> {
    var value := t.parse(raw);
    if value.Some? && value.value.Arr? && forall i :: 0 <= i < |value.value.items| ==> value.value.items[i].Obj?
    then Some(value.value.items) else None
  }

  /** The ids so far with those of `items`; none if one is not a positive integer or repeats. */
  function AddIds(items: seq<Json>, ids: set<int>): Option<set<int>> {
    if items == [] then Some(ids)
    else
      var rest := AddIds(items[..|items| - 1], ids);
      var id := Get(items[|items| - 1], "id");
      if rest.None? || !id.Int? || id.n <= 0 || id.n in rest.value then None else Some(rest.value + {id.n})
  }

  /** The ids of the first `n` pages. */
  function IdsOf(pages: seq<Page>, n: nat): Option<set<int>>
    requires n <= |pages|
  {
    if n == 0 then Some({})
    else
      var sofar := IdsOf(pages, n - 1);
      if sofar.None? then None else AddIds(pages[n - 1].items, sofar.value)
  }

  function Items(pages: seq<Page>, n: nat): seq<Json>
    requires n <= |pages|
  {
    if n == 0 then [] else Items(pages, n - 1) + pages[n - 1].items
  }

  /** A page as it was fetched. */
  ghost predicate Fetched(t: Tools, base: string, page: Page, number: nat) {
    && page.number == number && page.endpoint == PageEndpoint(base, number)
    && JsonArray(t, page.raw) == Some(page.items) && |page.items| <= PAGE_SIZE
  }

  /** Consecutive pages with unique ids and one empty page, the last. */
  ghost predicate Complete(t: Tools, base: string, pages: seq<Page>) {
    && 0 < |pages| <= MAX_PAGES && IdsOf(pages, |pages|).Some?
    && (forall i :: 0 <= i < |pages| ==> Fetched(t, base, pages[i], i + 1))
    && (forall i :: 0 <= i < |pages| ==> (pages[i].items == [] <==> i == |pages| - 1))
  }

  /** The loop over the items of a page. */
  method CollectIds(items: seq<Json>, ids: set<int>) returns (r: Option<set<int>>)
    ensures r == AddIds(items, ids)
  {
    hide Get;
    var all := ids;
    var i := 0;
    assert items[..|items|] == items;
    while i < |items|
      invariant i <= |items| && AddIds(items[..i], ids) == Some(all)
    {
      assert items[..i + 1][..i] == items[..i];
      var id := Get(items[i], "id");
      if !id.Int? || id.n <= 0 || id.n in all {
        NoIds(items, i + 1, ids);
        return None;
      }
      all := all + {id.n};
      i := i + 1;
    }
    r := Some(all);
  }

  lemma {:induction false} NoIds(items: seq<Json>, i: nat, ids: set<int>)
    requires i <= |items| && AddIds(items[..i], ids).None?
    ensures AddIds(items, ids).None?
    decreases |items| - i
  {
    hide Get;
    if i < |items| {
      assert items[..i + 1][..i] == items[..i];
      NoIds(items, i + 1, ids);
    } else {
      assert items[..i] == items;
    }
  }

  /** What the capture makes of the replies behind the pages so far; `api(n)` is the reply to the
      request for page `n`, if there is one. */
  function CaptureFrom(t: Tools, base: string, api: nat -> Option<Bytes>, pages: seq<Page>, ids: set<int>): Option<seq<Page>>
    requires |pages| <= MAX_PAGES
    decreases MAX_PAGES - |pages|
  {
    var number := |pages| + 1;
    if |pages| == MAX_PAGES || api(number).None? then None
    else
      var items := JsonArray(t, api(number).value);
      if items.None? || |items.value| > PAGE_SIZE || AddIds(items.value, ids).None? then None
      else
        var all := pages + [Page(number, PageEndpoint(base, number), api(number).value, items.value)];
        if items.value == [] then Some(all) else CaptureFrom(t, base, api, all, AddIds(items.value, ids).value)
  }

  /** `_capture_pages`: what it returns is complete, and it refuses nothing else. */
  method CapturePages(t: Tools, base: string, api: nat -> Option<Bytes>) returns (r: Option<seq<Page>>)
    ensures r == CaptureFrom(t, base, api, [], {})
    ensures r.Some? ==> Complete(t, base, r.value)
    ensures r.Some? ==> forall i :: 0 <= i < |r.value| ==> api(i + 1) == Some(r.value[i].raw)
  {
    hide JsonArray, PageEndpoint, AddIds;
    var pages: seq<Page> := [];
    var ids: set<int> := {};
    while |pages| < MAX_PAGES
      invariant |pages| <= MAX_PAGES && IdsOf(pages, |pages|) == Some(ids)
      invariant CaptureFrom(t, base, api, pages, ids) == CaptureFrom(t, base, api, [], {})
      invariant forall i :: 0 <= i < |pages| ==> Fetched(t, base, pages[i], i + 1) && pages[i].items != []
      invariant forall i :: 0 <= i < |pages| ==> api(i + 1) == Some(pages[i].raw)
      decreases MAX_PAGES - |pages|
    {
      var number := |pages| + 1;
      var raw := api(number);
      if raw.None? {
        return None;
      }
      var items := JsonArray(t, raw.value);
      if items.None? || |items.value| > PAGE_SIZE {
        return None;
      }
      var more := CollectIds(items.value, ids);
      if more.None? {
        return None;
      }
      var page := Page(number, PageEndpoint(base, number), raw.value, items.value);
      IdsSnoc(pages, page);
      ids, pages := more.value, pages + [page];
      if items.value == [] {
        return Some(pages);
      }
    }
    r := None;
  }

  lemma IdsSnoc(pages: seq<Page>, page: Page)
    requires IdsOf(pages, |pages|).Some?
    ensures IdsOf(pages + [page], |pages| + 1) == AddIds(page.items, IdsOf(pages, |pages|).value)
  {
    IdsOfPrefix(pages, page, |pages|);
    hide AddIds;
  }

  lemma {:induction false} IdsOfPrefix(pages: seq<Page>, page: Page, n: nat)
    requires n <= |pages|
    ensures IdsOf(pages + [page], n) == IdsOf(pages, n)
  {
    hide AddIds;
    if n > 0 {
      IdsOfPrefix(pages, page, n - 1);
    }
  }

  // ----- the pages on disk

  datatype FileRow = FileRow(path: string, size: int, sha256: string)

  datatype PageRow = PageRow(page: int, endpoint: string, itemCount: int, response: FileRow)

  datatype PageSet = PageSet(complete: bool, sentinel: int, pageCount: int, itemCount: int, pages: seq<PageRow>)

  type Files = map<string, Bytes>

  function Name(prefix: string, number: nat): string {
    prefix + "_page_" + Pad4(number) + "_raw.json"
  }

  function PathOf(dir: string, prefix: string, number: nat): string {
    dir + "/" + Name(prefix, number)
  }

  function RowOf(t: Tools, dir: string, prefix: string, page: Page): PageRow {
    PageRow(
      page.number, page.endpoint, |page.items|, FileRow(PathOf(dir, prefix, page.number), |page.raw|, t.digest(page.raw)))
  }

  function RowsOf(t: Tools, dir: string, prefix: string, pages: seq<Page>): seq<PageRow> {
    seq(|pages|, i requires 0 <= i < |pages| => RowOf(t, dir, prefix, pages[i]))
  }

  /** What `_write_page_set` returns for complete pages. */
  function SetOf(t: Tools, dir: string, prefix: string, pages: seq<Page>): PageSet {
    PageSet(true, |pages|, |pages|, |Items(pages, |pages|)|, RowsOf(t, dir, prefix, pages))
  }

  /** The raw pages are on disk as they were fetched. */
  ghost predicate OnDisk(files: Files, dir: string, prefix: string, pages: seq<Page>) {
    forall i :: 0 <= i < |pages| ==>
      PathOf(dir, prefix, pages[i].number) in files && files[PathOf(dir, prefix, pages[i].number)] == pages[i].raw
  }

  ghost predicate Unwritten(files: Files, dir: string, prefix: string) {
    forall n: nat :: PathOf(dir, prefix, n) !in files
  }

  /** The files after the first `n` pages were written. */
  function Stored(files: Files, dir: string, prefix: string, pages: seq<Page>, n: nat): Files
    requires n <= |pages|
  {
    if n == 0 then files else Stored(files, dir, prefix, pages, n - 1)[PathOf(dir, prefix, pages[n - 1].number) := pages[n - 1].raw]
  }

  /** `_write_raw`: exclusive creation, and the row of the file at its final place. */
  method WriteRaw(t: Tools, dir: string, prefix: string, page: Page, files: Files) returns (files': Files, row: PageRow)
    requires PathOf(dir, prefix, page.number) !in files
    ensures row == RowOf(t, dir, prefix, page) && files' == files[PathOf(dir, prefix, page.number) := page.raw]
  {
    var path := PathOf(dir, prefix, page.number);
    files' := files[path := page.raw];
    row := PageRow(page.number, page.endpoint, |page.items|, FileRow(path, |page.raw|, t.digest(page.raw)));
  }

  /** `_write_page_set`: every page is created exclusively; nothing else changes. */
  method WritePageSet(t: Tools, base: string, dir: string, prefix: string, pages: seq<Page>, files: Files)
    returns (files': Files, r: PageSet)
    requires Complete(t, base, pages) && Unwritten(files, dir, prefix)
    ensures r == SetOf(t, dir, prefix, pages) && files' == Stored(files, dir, prefix, pages, |pages|)
  {
    hide PathOf, Complete, Unwritten, RowOf, RowsOf, Stored, Items;
    WriteStep(files, dir, prefix, pages, 0);
    files' := files;
    var rows: seq<PageRow> := [];
    var count := 0;
    while |rows| < |pages|
      invariant |rows| <= |pages| && count == |Items(pages, |rows|)| && files' == Stored(files, dir, prefix, pages, |rows|)
      invariant forall i :: 0 <= i < |rows| ==> rows[i] == RowOf(t, dir, prefix, pages[i])
      decreases |pages| - |rows|
    {
      Exclusive(t, base, files, dir, prefix, pages, |rows|);
      WriteStep(files, dir, prefix, pages, |rows| + 1);
      var row;
      files', row := WriteRaw(t, dir, prefix, pages[|rows|], files');
      count := count + |pages[|rows|].items|;
      rows := rows + [row];
    }
    AllRows(t, base, dir, prefix, pages, rows);
    r := PageSet(true, rows[|rows| - 1].page, |rows|, count, rows);
  }

  lemma WriteStep(files: Files, dir: string, prefix: string, pages: seq<Page>, n: nat)
    requires n <= |pages|
    ensures Stored(files, dir, prefix, pages, n) == if n == 0 then files
      else Stored(files, dir, prefix, pages, n - 1)[PathOf(dir, prefix, pages[n - 1].number) := pages[n - 1].raw]
    ensures |Items(pages, n)| == if n == 0 then 0 else |Items(pages, n - 1)| + |pages[n - 1].items|
  {
    hide PathOf;
  }

  lemma AllRows(t: Tools, base: string, dir: string, prefix: string, pages: seq<Page>, rows: seq<PageRow>)
    requires Complete(t, base, pages) && |rows| == |pages|
    requires forall i :: 0 <= i < |rows| ==> rows[i] == RowOf(t, dir, prefix, pages[i])
    ensures rows == RowsOf(t, dir, prefix, pages) && rows != [] && rows[|rows| - 1].page == |pages|
  {
    hide PathOf;
    assert Fetched(t, base, pages[|pages| - 1], |pages| - 1 + 1);
  }

  /** The next page's file does not exist yet. */
  lemma Exclusive(t: Tools, base: string, files: Files, dir: string, prefix: string, pages: seq<Page>, n: nat)
    requires Complete(t, base, pages) && Unwritten(files, dir, prefix) && n < |pages|
    ensures PathOf(dir, prefix, pages[n].number) !in Stored(files, dir, prefix, pages, n)
  {
    hide PathOf, Fetched;
    NewPath(dir, prefix, pages, n, t, base);
    StoredOnly(files, dir, prefix, pages, n, PathOf(dir, prefix, pages[n].number));
  }

  /** Writing adds the files of the pages and touches no other. */
  lemma {:induction false} StoredOnly(files: Files, dir: string, prefix: string, pages: seq<Page>, n: nat, p: string)
    requires n <= |pages| && forall i :: 0 <= i < n ==> PathOf(dir, prefix, pages[i].number) != p
    ensures p in Stored(files, dir, prefix, pages, n) <==> p in files
    ensures p in files ==> Stored(files, dir, prefix, pages, n)[p] == files[p]
  {
    hide PathOf;
    if n > 0 {
      StoredOnly(files, dir, prefix, pages, n - 1, p);
    }
  }

  lemma {:induction false} StoredAt(
      t: Tools, base: string, files: Files, dir: string, prefix: string, pages: seq<Page>, n: nat, i: nat)
    requires Complete(t, base, pages) && i < n <= |pages|
    ensures PathOf(dir, prefix, pages[i].number) in Stored(files, dir, prefix, pages, n)
    ensures Stored(files, dir, prefix, pages, n)[PathOf(dir, prefix, pages[i].number)] == pages[i].raw
  {
    hide PathOf, Fetched;
    if i < n - 1 {
      StoredAt(t, base, files, dir, prefix, pages, n - 1, i);
      NewPath(dir, prefix, pages, n - 1, t, base);
    }
  }

  /** Every page is on disk afterwards. */
  lemma StoredOnDisk(t: Tools, base: string, files: Files, dir: string, prefix: string, pages: seq<Page>)
    requires Complete(t, base, pages)
    ensures OnDisk(Stored(files, dir, prefix, pages, |pages|), dir, prefix, pages)
  {
    hide PathOf, Fetched;
    forall i | 0 <= i < |pages|
      ensures PathOf(dir, prefix, pages[i].number) in Stored(files, dir, prefix, pages, |pages|)
      ensures Stored(files, dir, prefix, pages, |pages|)[PathOf(dir, prefix, pages[i].number)] == pages[i].raw
    {
      StoredAt(t, base, files, dir, prefix, pages, |pages|, i);
    }
  }

  /** Page numbers differ, so do their names. */
  lemma NewPath(dir: string, prefix: string, pages: seq<Page>, n: nat, t: Tools, base: string)
    requires n < |pages| && forall i :: 0 <= i < |pages| ==> Fetched(t, base, pages[i], i + 1)
    ensures forall i :: 0 <= i < n ==> PathOf(dir, prefix, pages[i].number) != PathOf(dir, prefix, pages[n].number)
  {
    hide PathOf, JsonArray, PageEndpoint;
    forall i | 0 <= i < n ensures PathOf(dir, prefix, pages[i].number) != PathOf(dir, prefix, pages[n].number) {
      assert Fetched(t, base, pages[i], i + 1) && Fetched(t, base, pages[n], n + 1);
      PathsDiffer(dir, prefix, pages[i].number, pages[n].number);
    }
  }

  lemma PathsDiffer(dir: string, prefix: string, m: nat, n: nat)
    requires m != n
    ensures PathOf(dir, prefix, m) != PathOf(dir, prefix, n)
  {
    if PathOf(dir, prefix, m) == PathOf(dir, prefix, n) {
      var head := dir + "/" + prefix + "_page_";
      assert PathOf(dir, prefix, m) == head + Pad4(m) + "_raw.json";
      assert PathOf(dir, prefix, n) == head + Pad4(n) + "_raw.json";
      SameMiddle(head, Pad4(m), Pad4(n), "_raw.json");
      Pad4Injective(m, n);
    }
    hide Pad4;
  }

  // ----- recomputation

  /** A repository path as it is written in a receipt, directly inside `dir`. */
  predicate Beside(dir: string, path: string) {
    && path != "" && path[0] != '/' && '\\' !in path
    && |path| > |dir| + 1 && path[..|dir|] == dir && path[|dir|] == '/' && '/' !in path[|dir| + 1..]
  }

  /** `_validated_receipt_file`: the bytes of an intact, unused file beside the receipt. */
  function ReceiptFile(t: Tools, files: Files, dir: string, row: FileRow, seen: set<string>): Option<Bytes> {
    if Beside(dir, row.path) && row.path !in seen && row.path in files && row.size == |files[row.path]|
       && Hex(row.sha256, 64) && row.sha256 == t.digest(files[row.path])
    then Some(files[row.path]) else None
  }

  datatype Recomputing = Recomputing(items: seq<Json>, ids: set<int>, seen: set<string>)

  /** The checks of one page. */
  function RecomputePage(
      t: Tools, base: string, files: Files, dir: string, row: PageRow, number: nat, last: bool, s: Recomputing): Option<Recomputing>
  {
    if row.page != number || row.endpoint != PageEndpoint(base, number) then None
    else
      var raw := ReceiptFile(t, files, dir, row.response, s.seen);
      if raw.None? then None
      else
        var items := JsonArray(t, raw.value);
        if items.None? || |items.value| > PAGE_SIZE || row.itemCount != |items.value| then None
        else if !last && items.value == [] then None
        else
          var ids := AddIds(items.value, s.ids);
          if ids.None? then None else Some(Recomputing(s.items + items.value, ids.value, s.seen + {row.response.path}))
  }

  function RecomputePages(
      t: Tools, base: string, files: Files, dir: string, rows: seq<PageRow>, n: nat, seen: set<string>): Option<Recomputing>
    requires n <= |rows|
  {
    if n == 0 then Some(Recomputing([], {}, seen))
    else
      var s := RecomputePages(t, base, files, dir, rows, n - 1, seen);
      if s.None? then None else RecomputePage(t, base, files, dir, rows[n - 1], n, n == |rows|, s.value)
  }

  /** The items and the summary of an accepted page set. */
  function Recompute(t: Tools, base: string, files: Files, dir: string, pageSet: PageSet, seen: set<string>)
    : Option<(seq<Json>, PageSet)>
  {
    if !pageSet.complete || pageSet.pages == [] then None
    else
      var s := RecomputePages(t, base, files, dir, pageSet.pages, |pageSet.pages|, seen);
      if s.None? || pageSet.pages[|pageSet.pages| - 1].itemCount != 0 then None
      else
        var recomputed := PageSet(true, |pageSet.pages|, |pageSet.pages|, |s.value.items|, pageSet.pages);
        if pageSet != recomputed then None else Some((s.value.items, recomputed))
  }

  /** `_recompute_raw_page_set`; a refusal is its ValueError. */
  method RecomputeRawPageSet(t: Tools, base: string, files: Files, dir: string, pageSet: PageSet, seen: set<string>)
    returns (r: Option<(seq<Json>, PageSet)>)
    ensures r == Recompute(t, base, files, dir, pageSet, seen)
  {
    hide ReceiptFile, JsonArray, PageEndpoint, AddIds, RecomputePage;
    if !pageSet.complete || pageSet.pages == [] {
      return None;
    }
    var rows := pageSet.pages;
    var s := Recomputing([], {}, seen);
    var n := 0;
    while n < |rows|
      invariant n <= |rows| && RecomputePages(t, base, files, dir, rows, n, seen) == Some(s)
    {
      var next := RecomputeOnePage(t, base, files, dir, rows[n], n + 1, n + 1 == |rows|, s);
      if next.None? {
        StaysRefused(t, base, files, dir, rows, n + 1, |rows|, seen);
        return None;
      }
      s, n := next.value, n + 1;
    }
    if rows[|rows| - 1].itemCount != 0 {
      return None;
    }
    var recomputed := PageSet(true, |rows|, |rows|, |s.items|, rows);
    if pageSet != recomputed {
      return None;
    }
    r := Some((s.items, recomputed));
  }

  method RecomputeOnePage(
      t: Tools, base: string, files: Files, dir: string, row: PageRow, number: nat, last: bool, s: Recomputing)
    returns (r: Option<Recomputing>)
    ensures r == RecomputePage(t, base, files, dir, row, number, last, s)
  {
    hide ReceiptFile, JsonArray, PageEndpoint, AddIds;
    if row.page != number || row.endpoint != PageEndpoint(base, number) {
      return None;
    }
    var raw := ReceiptFile(t, files, dir, row.response, s.seen);
    if raw.None? {
      return None;
    }
    var items := JsonArray(t, raw.value);
    if items.None? || |items.value| > PAGE_SIZE || row.itemCount != |items.value| {
      return None;
    }
    if !last && items.value == [] {
      return None;
    }
    var ids := CollectIds(items.value, s.ids);
    if ids.None? {
      return None;
    }
    r := Some(Recomputing(s.items + items.value, ids.value, s.seen + {row.response.path}));
  }

  lemma {:induction false} StaysRefused(
      t: Tools, base: string, files: Files, dir: string, rows: seq<PageRow>, i: nat, n: nat, seen: set<string>)
    requires i <= n <= |rows| && RecomputePages(t, base, files, dir, rows, i, seen).None?
    ensures RecomputePages(t, base, files, dir, rows, n, seen).None?
  {
    hide RecomputePage;
    if i < n {
      StaysRefused(t, base, files, dir, rows, i, n - 1, seen);
    }
  }

  // ----- round trip

  /** The directory of a receipt as it appears in its paths. */
  predicate Directory(dir: string) {
    dir != "" && dir[0] != '/'
  }

  /** Prefixes the capture writes under. */
  predicate Plain(prefix: string) {
    '/' !in prefix && '\\' !in prefix
  }

  lemma PathBeside(dir: string, prefix: string, n: nat)
    requires Directory(dir) && Plain(prefix)
    ensures Beside(dir, PathOf(dir, prefix, n)) <==> '\\' !in dir
  {
    var path, name := PathOf(dir, prefix, n), Name(prefix, n);
    assert path[..|dir|] == dir && path[|dir| + 1..] == name;
    assert forall c :: c in Pad4(n) ==> IsDigit(c);
    assert '/' !in name && '\\' !in name;
    assert path == dir + "/" + name;
    if '\\' in dir {
      var i :| 0 <= i < |dir| && dir[i] == '\\';
      assert path[i] == '\\';
    }
    hide Pad4, Name;
  }

  lemma {:induction false} IdsSeen(pages: seq<Page>, n: nat)
    requires n <= |pages| && IdsOf(pages, |pages|).Some?
    ensures IdsOf(pages, n).Some?
    decreases |pages| - n
  {
    hide AddIds;
    if n < |pages| {
      IdsSeen(pages, n + 1);
    }
  }

  function Paths(dir: string, prefix: string, n: nat): set<string> {
    if n == 0 then {} else Paths(dir, prefix, n - 1) + {PathOf(dir, prefix, n)}
  }

  lemma {:induction false} NotYet(dir: string, prefix: string, n: nat, m: nat)
    requires n < m
    ensures PathOf(dir, prefix, m) !in Paths(dir, prefix, n)
  {
    hide PathOf;
    if n > 0 {
      NotYet(dir, prefix, n - 1, m);
      PathsDiffer(dir, prefix, n, m);
    }
  }

  lemma OnePageRoundTrip(
      t: Tools, base: string, dir: string, prefix: string, pages: seq<Page>, files: Files, seen: set<string>, i: nat)
    requires Complete(t, base, pages) && OnDisk(files, dir, prefix, pages) && (forall x :: Hex(t.digest(x), 64))
    requires i < |pages| && Beside(dir, PathOf(dir, prefix, i + 1)) && PathOf(dir, prefix, i + 1) !in seen
    ensures IdsOf(pages, i).Some? && IdsOf(pages, i + 1).Some?
    ensures RecomputePage(
        t, base, files, dir, RowsOf(t, dir, prefix, pages)[i], i + 1, i + 1 == |pages|,
        Recomputing(Items(pages, i), IdsOf(pages, i).value, seen))
      == Some(Recomputing(Items(pages, i + 1), IdsOf(pages, i + 1).value, seen + {PathOf(dir, prefix, i + 1)}))
  {
    hide PathOf, Beside, JsonArray, PageEndpoint, AddIds, Hex;
    IdsSeen(pages, i);
    IdsSeen(pages, i + 1);
    assert Fetched(t, base, pages[i], i + 1);
    assert PathOf(dir, prefix, pages[i].number) in files;
  }

  lemma {:induction false} PagesRoundTrip(
      t: Tools, base: string, dir: string, prefix: string, pages: seq<Page>, files: Files, seen: set<string>, n: nat)
    requires Complete(t, base, pages) && OnDisk(files, dir, prefix, pages) && (forall x :: Hex(t.digest(x), 64))
    requires Directory(dir) && Plain(prefix) && '\\' !in dir && n <= |pages|
    requires forall m: nat :: PathOf(dir, prefix, m) !in seen
    ensures IdsOf(pages, n).Some?
    ensures RecomputePages(t, base, files, dir, RowsOf(t, dir, prefix, pages), n, seen)
      == Some(Recomputing(Items(pages, n), IdsOf(pages, n).value, seen + Paths(dir, prefix, n)))
  {
    hide PathOf, Complete, OnDisk, RowOf, RecomputePage, Beside, AddIds, Hex, Plain, Directory;
    IdsSome(t, base, pages, n);
    if n == 0 {
      assert seen + {} == seen;
    } else {
      PagesRoundTrip(t, base, dir, prefix, pages, files, seen, n - 1);
      PathBeside(dir, prefix, n);
      NotYet(dir, prefix, n - 1, n);
      var before := seen + Paths(dir, prefix, n - 1);
      assert PathOf(dir, prefix, n) !in before;
      OnePageRoundTrip(t, base, dir, prefix, pages, files, before, n - 1);
      assert before + {PathOf(dir, prefix, n)} == seen + Paths(dir, prefix, n);
    }
  }

  lemma IdsSome(t: Tools, base: string, pages: seq<Page>, n: nat)
    requires Complete(t, base, pages) && n <= |pages|
    ensures IdsOf(pages, n).Some?
  {
    IdsSeen(pages, n);
    hide AddIds, Fetched;
  }

  /** For every API behaviour on which the capture succeeds, the pages it writes are read back from
      the untouched files exactly when the directory's name has no backslash: the same items and the
      same summary. */
  lemma WrittenPagesAreReadBack(
      t: Tools, base: string, dir: string, prefix: string, pages: seq<Page>, files: Files, seen: set<string>)
    requires Complete(t, base, pages) && OnDisk(files, dir, prefix, pages) && (forall x :: Hex(t.digest(x), 64))
    requires Directory(dir) && Plain(prefix) && forall m: nat :: PathOf(dir, prefix, m) !in seen
    ensures Recompute(t, base, files, dir, SetOf(t, dir, prefix, pages), seen)
      == if '\\' in dir then None else Some((Items(pages, |pages|), SetOf(t, dir, prefix, pages)))
  {
    hide PathOf, Fetched, RecomputePage, Beside, AddIds, Hex, Plain, Directory, IdsOf, Items, Paths;
    var n := |pages|;
    var rows := RowsOf(t, dir, prefix, pages);
    if '\\' in dir {
      FirstPageRefused(t, base, dir, prefix, pages, files, seen);
      StaysRefused(t, base, files, dir, rows, 1, n, seen);
    } else {
      PagesRoundTrip(t, base, dir, prefix, pages, files, seen, n);
      assert rows[n - 1].itemCount == 0;
    }
  }

  lemma FirstPageRefused(
      t: Tools, base: string, dir: string, prefix: string, pages: seq<Page>, files: Files, seen: set<string>)
    requires Complete(t, base, pages) && Directory(dir) && Plain(prefix) && '\\' in dir
    ensures RecomputePages(t, base, files, dir, RowsOf(t, dir, prefix, pages), 1, seen).None?
  {
    hide PathOf, Beside, JsonArray, PageEndpoint, AddIds, Hex, Plain, Directory, IdsOf;
    assert Fetched(t, base, pages[0], 0 + 1);
    PathBeside(dir, prefix, 1);
  }

  /** Every file holds an empty list. */
  function EmptyListing(): Tools {
    Tools(_ => Some(Arr([])), _ => seq(64, i => '0'))
  }

  /** The pages of an empty listing, written under a directory with a backslash, are refused. */
  lemma BackslashRefused()
    ensures var t, pages := EmptyListing(), [Page(1, PageEndpoint("repo", 1), "[]", [])];
      var files := Stored(map[], "a\\b", "issues", pages, 1);
      && Complete(t, "repo", pages) && Unwritten(map[], "a\\b", "issues") && OnDisk(files, "a\\b", "issues", pages)
      && Recompute(t, "repo", files, "a\\b", SetOf(t, "a\\b", "issues", pages), {}) == None
  {
    var t, pages := EmptyListing(), [Page(1, PageEndpoint("repo", 1), "[]", [])];
    assert JsonArray(t, "[]") == Some([]);
    assert IdsOf(pages, 0) == Some({}) && AddIds([], {}) == Some({}) && IdsOf(pages, 1) == Some({});
    var dir := "a\\b";
    assert '\\' in dir && '/' !in "issues" && '\\' !in "issues" by {
      assert dir[1] == '\\';
    }
    hide PathOf, PageEndpoint, JsonArray, AddIds, Recompute;
    assert Stored(map[], dir, "issues", pages, 0) == map[];
    WrittenPagesAreReadBack(t, "repo", dir, "issues", pages, Stored(map[], dir, "issues", pages, 1), {});
  }

  // ----- whatever is accepted is a complete listing

  /** The pages an accepted set stands for, read from the files. */
  function PagesOf(t: Tools, base: string, files: Files, rows: seq<PageRow>): seq<Page> {
    seq(|rows|, i requires 0 <= i < |rows| => PageOf(t, base, files, rows[i], i + 1))
  }

  function PageOf(t: Tools, base: string, files: Files, row: PageRow, number: nat): Page {
    var raw := if row.response.path in files then files[row.response.path] else "";
    var items := JsonArray(t, raw);
    Page(number, PageEndpoint(base, number), raw, if items.Some? then items.value else [])
  }

  lemma AcceptedPage(
      t: Tools, base: string, files: Files, dir: string, row: PageRow, number: nat, last: bool, s: Recomputing)
    requires RecomputePage(t, base, files, dir, row, number, last, s).Some?
    ensures var page, next := PageOf(t, base, files, row, number), RecomputePage(t, base, files, dir, row, number, last, s).value;
      && Fetched(t, base, page, number) && row.itemCount == |page.items| && (last || page.items != [])
      && row.response.path in files && row.response.sha256 == t.digest(page.raw)
      && AddIds(page.items, s.ids) == Some(next.ids) && next.items == s.items + page.items
  {
    hide AddIds, JsonArray, PageEndpoint, Beside, Hex;
  }

  lemma {:induction false} AcceptedPages(
      t: Tools, base: string, files: Files, dir: string, rows: seq<PageRow>, n: nat, seen: set<string>)
    requires n <= |rows| && RecomputePages(t, base, files, dir, rows, n, seen).Some?
    ensures var s, pages := RecomputePages(t, base, files, dir, rows, n, seen).value, PagesOf(t, base, files, rows);
      && IdsOf(pages, n) == Some(s.ids) && s.items == Items(pages, n)
      && (forall i :: 0 <= i < n ==> Fetched(t, base, pages[i], i + 1) && rows[i].itemCount == |pages[i].items|)
      && (forall i :: 0 <= i < n ==> i == |rows| - 1 || pages[i].items != [])
  {
    hide RecomputePage, AddIds, PageOf, Fetched;
    if n > 0 {
      AcceptedPages(t, base, files, dir, rows, n - 1, seen);
      var s := RecomputePages(t, base, files, dir, rows, n - 1, seen).value;
      AcceptedPage(t, base, files, dir, rows[n - 1], n, n == |rows|, s);
    }
  }

  /** Whatever set is accepted, its files hold consecutive pages with unique ids and one empty page,
      the last, and the items are theirs. */
  lemma AcceptedSetIsComplete(t: Tools, base: string, files: Files, dir: string, pageSet: PageSet, seen: set<string>)
    requires Recompute(t, base, files, dir, pageSet, seen).Some? && |pageSet.pages| <= MAX_PAGES
    ensures var pages := PagesOf(t, base, files, pageSet.pages);
      Complete(t, base, pages) && Recompute(t, base, files, dir, pageSet, seen).value.0 == Items(pages, |pages|)
  {
    hide RecomputePages, Fetched, IdsOf, Items, PageOf;
    AcceptedPages(t, base, files, dir, pageSet.pages, |pageSet.pages|, seen);
  }

  /** The three listings of one capture never write the same file. */
  lemma ListingsApart(dir: string, m: nat, n: nat)
    ensures PathOf(dir, "issues", m) != PathOf(dir, "issue_comments", n)
    ensures PathOf(dir, "issues", m) != PathOf(dir, "issues_verification", n)
    ensures PathOf(dir, "issue_comments", m) != PathOf(dir, "issues_verification", n)
  {
    hide Pad4;
    var k := |dir| + 1;
    assert PathOf(dir, "issues", m)[k + 5] == 's' && PathOf(dir, "issues", m)[k + 7] == 'p';
    assert PathOf(dir, "issue_comments", n)[k + 5] == '_' && PathOf(dir, "issue_comments", m)[k + 5] == '_';
    assert PathOf(dir, "issues_verification", n)[k + 5] == 's' && PathOf(dir, "issues_verification", n)[k + 7] == 'v';
  }
}
