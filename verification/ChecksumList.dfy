/** The `SHA256SUMS.txt` list of a release package: one canonical text per inventory. */
module ChecksumList {
  import opened Results
  import opened Ordering
  import opened PosixPath
  import opened Text

  datatype ChecksumError = MalformedList | InventoryMismatch | DigestMismatch

  datatype Row = Row(digest: string, path: string)

  const SUMS := "SHA256SUMS.txt"

  /** A digest and path that the row pattern matches, the path being safe. */
  predicate Listable(row: Row) {
    Hex(row.digest, 64) && '\n' !in row.path && SafeRelativePath(row.path)
  }

  function Print(row: Row): string {
    row.digest + "  ./" + row.path
  }

  /** The row pattern, giving the two groups it captures. */
  function Parse(line: string): (r: Option<Row>)
    ensures r.Some? ==> line == Print(r.value) && Listable(r.value)
  {
    if |line| > 68 && line[64..68] == "  ./" && Listable(Row(line[..64], line[68..]))
    then Some(Row(line[..64], line[68..])) else None
  }

  /** Printing a row and reading it gives the row back. */
  lemma ParsePrint(row: Row)
    requires Listable(row)
    ensures Parse(Print(row)) == Some(row)
  {
    var line := Print(row);
    assert row.path != "";
    assert line[..64] == row.digest && line[64..68] == "  ./" && line[68..] == row.path;
  }

  // Each row list is read from its end, as the loop extends it.

  function PrintAll(rows: seq<Row>): (lines: seq<string>)
    ensures |lines| == |rows|
  {
    if rows == [] then [] else PrintAll(rows[..|rows| - 1]) + [Print(rows[|rows| - 1])]
  }

  function Order(rows: seq<Row>): (order: seq<string>)
    ensures |order| == |rows| && forall i :: 0 <= i < |rows| ==> order[i] == rows[i].path
  {
    if rows == [] then [] else Order(rows[..|rows| - 1]) + [rows[|rows| - 1].path]
  }

  function RowMap(rows: seq<Row>): (m: map<string, string>)
    ensures forall p :: p in m <==> p in Order(rows)
  {
    if rows == [] then map[]
    else
      var last := rows[|rows| - 1];
      assert Order(rows) == Order(rows[..|rows| - 1]) + [last.path];
      RowMap(rows[..|rows| - 1])[last.path := last.digest]
  }

  /** Well-formed rows that name no path twice. */
  predicate WellFormed(rows: seq<Row>) {
    rows == [] ||
    var init, last := rows[..|rows| - 1], rows[|rows| - 1];
    WellFormed(init) && Listable(last) && last.path !in Order(init)
  }

  lemma Snoc(rows: seq<Row>, row: Row)
    ensures PrintAll(rows + [row]) == PrintAll(rows) + [Print(row)]
    ensures Order(rows + [row]) == Order(rows) + [row.path]
    ensures RowMap(rows + [row]) == RowMap(rows)[row.path := row.digest]
    ensures WellFormed(rows + [row]) <==> WellFormed(rows) && Listable(row) && row.path !in Order(rows)
  {
    assert (rows + [row])[..|rows|] == rows;
  }

  /** The printed text determines well-formed rows. */
  lemma {:induction false} PrintAllInjective(p: seq<Row>, q: seq<Row>)
    requires WellFormed(p) && WellFormed(q) && PrintAll(p) == PrintAll(q)
    ensures p == q
  {
    hide Print;
    assert |PrintAll(p)| == |PrintAll(q)|;
    if p != [] {
      var n := |p| - 1;
      assert PrintAll(p)[..n] == PrintAll(p[..n]) && PrintAll(q)[..n] == PrintAll(q[..n]);
      PrintAllInjective(p[..n], q[..n]);
      assert PrintAll(p)[n] == Print(p[n]) && PrintAll(q)[n] == Print(q[n]);
      ParsePrint(p[n]);
      ParsePrint(q[n]);
      assert p == p[..n] + [p[n]] && q == q[..n] + [q[n]];
    }
  }

  lemma {:induction false} Prefix(rows: seq<Row>, n: nat)
    requires WellFormed(rows) && n <= |rows|
    ensures WellFormed(rows[..n]) && PrintAll(rows[..n]) == PrintAll(rows)[..n]
  {
    if n < |rows| {
      var init := rows[..|rows| - 1];
      Prefix(init, n);
      assert init[..n] == rows[..n];
    } else {
      assert rows[..n] == rows;
    }
  }

  /** The rows that the lines print. */
  ghost predicate Reads(rows: seq<Row>, lines: seq<string>) {
    WellFormed(rows) && PrintAll(rows) == lines
  }

  /** Rows that read more lines continue those that read fewer. */
  lemma NextRow(lines: seq<string>, n: nat, rows: seq<Row>, all: seq<Row>)
    requires n < |lines| && Reads(rows, lines[..n]) && Reads(all, lines)
    ensures n < |all| && Continues(rows, all[n], lines[n])
  {
    hide Print, Listable;
    Prefix(all, n);
    PrintAllInjective(rows, all[..n]);
    Prefix(all, n + 1);
    assert all[..n + 1] == rows + [all[n]];
    Snoc(rows, all[n]);
    assert PrintAll(rows + [all[n]])[n] == Print(all[n]);
    hide WellFormed, PrintAll;
  }

  /** If no row read from the next line continues the rows, the text is not well formed. */
  lemma BadRow(lines: seq<string>, n: nat, rows: seq<Row>, all: seq<Row>)
    requires n < |lines| && Reads(rows, lines[..n]) && forall row :: !Continues(rows, row, lines[n])
    ensures !Reads(all, lines)
  {
    hide Reads, Continues;
    if Reads(all, lines) {
      NextRow(lines, n, rows, all);
    }
  }

  lemma GoodRow(lines: seq<string>, n: nat, rows: seq<Row>, row: Row)
    requires n < |lines| && Reads(rows, lines[..n]) && Continues(rows, row, lines[n])
    ensures Reads(rows + [row], lines[..n + 1]) && WellFormed(rows + [row])
  {
    hide WellFormed, PrintAll, Print, RowMap, Order;
    Snoc(rows, row);
    assert lines[..n + 1] == lines[..n] + [lines[n]];
  }

  ghost predicate Continues(rows: seq<Row>, row: Row, line: string) {
    WellFormed(rows + [row]) && Print(row) == line
  }

  method ReadRow(line: string, parsed: map<string, string>, order: seq<string>, ghost rows: seq<Row>)
      returns (r: Option<Row>)
    requires parsed == RowMap(rows) && order == Order(rows) && WellFormed(rows)
    ensures r.Some? ==> Continues(rows, r.value, line)
    ensures r.None? ==> forall row :: !Continues(rows, row, line)
  {
    r := Parse(line);
    if r.Some? {
      Snoc(rows, r.value);
      ParsePrint(r.value);
      if r.value.path in parsed {
        forall row ensures !Continues(rows, row, line) {
          Snoc(rows, row);
          if Continues(rows, row, line) { ParsePrint(row); }
        }
        r := None;
      }
    } else {
      forall row ensures !Continues(rows, row, line) {
        Snoc(rows, row);
        if Continues(rows, row, line) { ParsePrint(row); }
      }
    }
  }

  /** The loop over the rows: it stops at a malformed or repeated row. */
  method ReadRows(lines: seq<string>)
      returns (ok: bool, parsed: map<string, string>, order: seq<string>, ghost rows: seq<Row>)
    ensures ok ==> Reads(rows, lines) && parsed == RowMap(rows) && order == Order(rows)
    ensures !ok ==> forall all :: !Reads(all, lines)
  {
    parsed, order, rows := map[], [], [];
    assert Reads(rows, lines[..0]) && parsed == RowMap(rows) && order == Order(rows);
    hide Reads, WellFormed, PrintAll, RowMap, Order, Print, Listable, Continues;
    for n := 0 to |lines|
      invariant Reads(rows, lines[..n]) && WellFormed(rows) && parsed == RowMap(rows) && order == Order(rows)
    {
      var row := ReadRow(lines[n], parsed, order, rows);
      if row.None? {
        forall all ensures !Reads(all, lines) {
          BadRow(lines, n, rows, all);
        }
        return false, parsed, order, rows;
      }
      GoodRow(lines, n, rows, row.value);
      Snoc(rows, row.value);
      parsed := parsed[row.value.path := row.value.digest];
      order := order + [row.value.path];
      rows := rows + [row.value];
    }
    assert lines[..|lines|] == lines;
    ok := true;
  }

  /** The text `lines` lists `inventory`: well-formed rows, in path order, for every other file. */
  ghost predicate Lists(lines: seq<string>, inventory: map<string, string>) {
    exists rows :: Reads(rows, lines) && ListsRows(rows, inventory)
  }

  ghost predicate ListsRows(rows: seq<Row>, inventory: map<string, string>) {
    RowMap(rows) == inventory - {SUMS} && Order(rows) == SortedSeq(RowMap(rows).Keys)
  }

  /** `checksum_manifest` accepts a text exactly when it lists the inventory. */
  method ChecksumManifest(lines: seq<string>, inventory: map<string, string>)
      returns (r: Result<map<string, string>, ChecksumError>)
    ensures r.Success? <==> Lists(lines, inventory) && lines != []
    ensures r.Success? ==> r.value == inventory - {SUMS}
  {
    hide WellFormed, PrintAll, RowMap, Order, StrictlySorted;
    if lines == [] {
      return Failure(MalformedList);
    }
    var ok, parsed, order, rows := ReadRows(lines);
    if !ok {
      return Failure(MalformedList);
    }
    OneReading(lines, inventory, rows);
    hide Lists, Reads;
    var sorted := SortSet(parsed.Keys);
    if order != sorted {
      return Failure(MalformedList);
    }
    var expected := inventory.Keys - {SUMS};
    if parsed.Keys != expected {
      return Failure(InventoryMismatch);
    }
    if exists p :: p in parsed && inventory[p] != parsed[p] {
      return Failure(DigestMismatch);
    }
    assert parsed == inventory - {SUMS};
    return Success(parsed);
  }

  lemma OneReading(lines: seq<string>, inventory: map<string, string>, rows: seq<Row>)
    requires Reads(rows, lines)
    ensures Lists(lines, inventory) <==> ListsRows(rows, inventory)
  {
    if Lists(lines, inventory) {
      var other :| Reads(other, lines) && ListsRows(other, inventory);
      PrintAllInjective(rows, other);
    }
  }

  lemma {:induction false} RowsDetermined(p: seq<Row>, q: seq<Row>)
    requires WellFormed(p) && WellFormed(q) && Order(p) == Order(q) && RowMap(p) == RowMap(q)
    ensures p == q
  {
    assert |Order(p)| == |Order(q)|;
    forall i | 0 <= i < |p| ensures p[i] == q[i] {
      MappedRow(p, i);
      MappedRow(q, i);
    }
  }

  lemma {:induction false} MappedRow(rows: seq<Row>, i: nat)
    requires WellFormed(rows) && i < |rows|
    ensures rows[i].path in RowMap(rows) && RowMap(rows)[rows[i].path] == rows[i].digest
  {
    var init := rows[..|rows| - 1];
    if i < |rows| - 1 {
      MappedRow(init, i);
      assert Order(init)[i] in Order(init);
    }
  }

  /** One accepted text for an inventory, and one listed inventory for a text. */
  lemma OneTextPerInventory(lines: seq<string>, lines': seq<string>,
                            inventory: map<string, string>, inventory': map<string, string>)
    requires Lists(lines, inventory) && Lists(lines', inventory')
    ensures lines == lines' <==> inventory - {SUMS} == inventory' - {SUMS}
  {
    hide WellFormed, PrintAll, RowMap, Order, StrictlySorted;
    var p :| Reads(p, lines) && ListsRows(p, inventory);
    var q :| Reads(q, lines') && ListsRows(q, inventory');
    if lines == lines' { PrintAllInjective(p, q); }
    if inventory - {SUMS} == inventory' - {SUMS} { RowsDetermined(p, q); }
  }

  lemma AddThenRemove(m: map<string, string>, k: string, v: string)
    requires k !in m
    ensures m[k := v] - {k} == m
  {
  }

  /** Printing well-formed rows in path order gives a text that lists exactly those files. */
  lemma PrintedRowsListTheirFiles(rows: seq<Row>, sumsDigest: string)
    requires WellFormed(rows) && StrictlySorted(Order(rows)) && SUMS !in RowMap(rows)
    ensures Lists(PrintAll(rows), RowMap(rows)[SUMS := sumsDigest])
  {
    var order, listed := Order(rows), RowMap(rows);
    ListingUnique(order, SortedSeq(listed.Keys), listed.Keys);
    AddThenRemove(listed, SUMS, sumsDigest);
    assert ListsRows(rows, listed[SUMS := sumsDigest]);
  }
}
