/** What an accepted checksum list looks like, line by line. */
module ReleaseMeaning {
  import opened ChecksumList
  import Ordering
  import PosixPath
  import opened Text

  /** The line of a listed file: its digest, two spaces, "./" and its path, which stays below the package. */
  predicate IsLine(line: string, path: string, inventory: map<string, string>) {
    && path in inventory && path != "SHA256SUMS.txt" && line == inventory[path] + "  ./" + path
    && Hex(inventory[path], 64) && path != "" && path[0] != '/' && '\\' !in path && '\n' !in path
    && ".." !in PosixPath.Parts(path)
  }

  /** The lines are those of all files but the list itself, by growing path. */
  ghost predicate LinesOf(lines: seq<string>, paths: seq<string>, inventory: map<string, string>) {
    && |paths| == |lines| && (forall i, j :: 0 <= i < j < |paths| ==> Ordering.Less(paths[i], paths[j]))
    && (forall i :: 0 <= i < |lines| ==> IsLine(lines[i], paths[i], inventory))
    && forall p :: p in inventory && p != "SHA256SUMS.txt" ==> p in paths
  }

  lemma {:induction false} RowAt(rows: seq<Row>, i: nat)
    requires WellFormed(rows) && i < |rows|
    ensures Listable(rows[i]) && PrintAll(rows)[i] == Print(rows[i])
  {
    hide Print, Listable;
    if i < |rows| - 1 {
      RowAt(rows[..|rows| - 1], i);
    }
  }

  lemma {:induction false} PrintedAt(rows: seq<Row>, i: nat)
    requires i < |rows|
    ensures PrintAll(rows)[i] == Print(rows[i])
  {
    hide Print;
    if i < |rows| - 1 {
      PrintedAt(rows[..|rows| - 1], i);
    }
  }

  lemma {:induction false} ListableRows(rows: seq<Row>)
    requires forall i :: 0 <= i < |rows| ==> Listable(rows[i])
    requires forall i, j :: 0 <= i < j < |rows| ==> rows[i].path != rows[j].path
    ensures WellFormed(rows)
  {
    hide Listable;
    if rows != [] {
      ListableRows(rows[..|rows| - 1]);
    }
  }

  lemma LineAt(rows: seq<Row>, lines: seq<string>, inventory: map<string, string>, i: nat)
    requires Reads(rows, lines) && RowMap(rows) == inventory - {SUMS} && i < |lines| == |rows|
    ensures IsLine(lines[i], rows[i].path, inventory)
  {
    RowAt(rows, i);
    MappedRow(rows, i);
    var row, map' := rows[i], RowMap(rows);
    assert row.path in map' && map'[row.path] == row.digest;
    hide WellFormed, PrintAll, RowMap, Order, PosixPath.Parts, Hex;
  }

  lemma PathsListed(rows: seq<Row>, inventory: map<string, string>)
    requires ListsRows(rows, inventory)
    ensures Ordering.StrictlySorted(Order(rows))
    ensures forall p :: p in Order(rows) <==> p in inventory && p != SUMS
  {
    hide Order, RowMap, Ordering.StrictlySorted, Ordering.SortedSeq;
    var keys := RowMap(rows).Keys;
    assert keys == inventory.Keys - {SUMS};
    assert Ordering.Lists(Order(rows), keys);
  }

  lemma ListedHaveLines(rows: seq<Row>, lines: seq<string>, inventory: map<string, string>)
    requires Reads(rows, lines) && ListsRows(rows, inventory)
    ensures LinesOf(lines, Order(rows), inventory)
  {
    hide Ordering.SortedSeq, Ordering.Less, WellFormed, PrintAll, Order, RowMap, IsLine;
    PathsListed(rows, inventory);
    forall i | 0 <= i < |lines| ensures IsLine(lines[i], Order(rows)[i], inventory) {
      LineAt(rows, lines, inventory, i);
    }
    hide ListsRows, Reads;
  }

  /** The rows behind the lines. */
  lemma RowsBehind(paths: seq<string>, lines: seq<string>, inventory: map<string, string>) returns (rows: seq<Row>)
    requires LinesOf(lines, paths, inventory)
    ensures WellFormed(rows) && PrintAll(rows) == lines && Order(rows) == paths && |rows| == |paths|
    ensures forall i :: 0 <= i < |rows| ==> paths[i] in inventory && rows[i] == Row(inventory[paths[i]], paths[i])
  {
    hide Hex, PosixPath.Parts, Ordering.Less;
    assert forall i :: 0 <= i < |paths| ==> paths[i] in inventory by {
      forall i | 0 <= i < |paths| ensures paths[i] in inventory {
        assert IsLine(lines[i], paths[i], inventory);
      }
    }
    rows := seq(|paths|, i requires 0 <= i < |paths| && paths[i] in inventory => Row(inventory[paths[i]], paths[i]));
    forall i | 0 <= i < |rows| ensures Listable(rows[i]) && Print(rows[i]) == lines[i] {
      assert IsLine(lines[i], paths[i], inventory);
    }
    hide Listable, Print, IsLine;
    forall i, j | 0 <= i < j < |rows| ensures rows[i].path != rows[j].path {
      LessApart(paths[i], paths[j]);
    }
    hide LinesOf;
    ListableRows(rows);
    forall i | 0 <= i < |lines| ensures PrintAll(rows)[i] == lines[i] {
      PrintedAt(rows, i);
    }
    hide WellFormed, PrintAll, Order;
    assert PrintAll(rows) == lines;
    assert Order(rows) == paths;
  }

  lemma PathsAre(paths: seq<string>, lines: seq<string>, inventory: map<string, string>)
    requires LinesOf(lines, paths, inventory)
    ensures forall p :: p in paths <==> p in inventory && p != SUMS
  {
    hide Hex, PosixPath.Parts, Ordering.Less;
    forall p | p in paths ensures p in inventory && p != SUMS {
      var i :| 0 <= i < |paths| && paths[i] == p;
      assert IsLine(lines[i], paths[i], inventory);
    }
  }

  lemma LinesList(paths: seq<string>, lines: seq<string>, inventory: map<string, string>)
    requires LinesOf(lines, paths, inventory)
    ensures Lists(lines, inventory)
  {
    var rows := RowsBehind(paths, lines, inventory);
    PathsAre(paths, lines, inventory);
    assert Ordering.StrictlySorted(paths) by {
      hide Ordering.Less, IsLine;
    }
    hide WellFormed, PrintAll, Order, RowMap, LinesOf, Ordering.StrictlySorted, Ordering.SortedSeq;
    RowsMap(rows, inventory);
    Ordering.ListingUnique(paths, Ordering.SortedSeq(RowMap(rows).Keys), RowMap(rows).Keys);
    assert Reads(rows, lines) && ListsRows(rows, inventory);
  }

  lemma LessApart(a: string, b: string)
    requires Ordering.Less(a, b)
    ensures a != b
  {
    Ordering.LessTrichotomy(a, b);
  }

  lemma RowsMap(rows: seq<Row>, inventory: map<string, string>)
    requires WellFormed(rows) && forall p :: p in Order(rows) <==> p in inventory && p != SUMS
    requires forall i :: 0 <= i < |rows| ==> rows[i].path in inventory && rows[i].digest == inventory[rows[i].path]
    ensures RowMap(rows) == inventory - {SUMS}
  {
    hide WellFormed, Order, RowMap;
    var rest := inventory - {SUMS};
    forall p | p in RowMap(rows) ensures p in rest && RowMap(rows)[p] == rest[p] {
      var i :| 0 <= i < |rows| && Order(rows)[i] == p;
      MappedRow(rows, i);
    }
    assert forall p :: p in rest ==> p in RowMap(rows);
  }

  /** Exactly the texts that list an inventory. */
  lemma ListSpelledOut(lines: seq<string>, inventory: map<string, string>)
    ensures Lists(lines, inventory) <==> exists paths :: LinesOf(lines, paths, inventory)
  {
    hide LinesOf, Reads, ListsRows;
    if Lists(lines, inventory) {
      var rows :| Reads(rows, lines) && ListsRows(rows, inventory);
      ListedHaveLines(rows, lines, inventory);
    }
    if paths :| LinesOf(lines, paths, inventory) {
      LinesList(paths, lines, inventory);
    }
  }
}
