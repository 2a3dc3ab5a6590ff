/** What a capture asks a device for, and what the comparison of two captures says of their JSON. */
module CaptureMeaning {
  import opened Decimal
  import opened JsonModel
  import opened RowPreservation
  import opened StateCapture
  import P = StatePreservation

  // ----- the commands

  /** The reply to a listing command announces a further page at `next`. */
  predicate Announces(result: Json, command: string, offset: nat, next: nat) {
    && result.Obj? && PyEq(Get(result, "schema"), Int(1)) && Get(result, "ok") == Bool(true)
    && Get(result, "cmd") == Str(command) && Get(result, "has_older") == Bool(true)
    && Get(result, "next_offset") == Int(next) && offset < next
  }

  ghost predicate IsLast(result: Json, command: string, offset: nat) {
    forall next: nat :: !Announces(result, command, offset, next)
  }

  lemma ContinuesExactly(result: Json, command: string, offset: nat)
    ensures Continues(result, command, offset) ==>
      Get(result, "next_offset").Int? && Get(result, "next_offset").n > 0
      && Announces(result, command, offset, Get(result, "next_offset").n)
    ensures IsLast(result, command, offset) <==> !Continues(result, command, offset)
  {
    hide Get, PyEq;
  }

  function Asking(command: string, offset: nat): string {
    if offset == 0 then command else command + " offset " + Dec(offset)
  }

  /** Page `i` was asked for at offset `offsets[i]`: the first at `offsets[0]`, every other where the page before it
      announced it; the last announces nothing unless there are `most` of them. */
  ghost predicate Tells(device: nat -> Json, sent: nat, command: string, rows: seq<Row>, offsets: seq<nat>, most: nat) {
    && 1 <= |rows| == |offsets| <= most
    && (forall i :: 0 <= i < |rows| ==>
          rows[i] == Row(Asking(command, offsets[i]), device(sent + i)))
    && (forall i, j :: 0 <= i && j == i + 1 && j < |rows| ==> Announces(rows[i].result, command, offsets[i], offsets[j]))
    && (|rows| < most ==> IsLast(rows[|rows| - 1].result, command, offsets[|rows| - 1]))
  }

  lemma {:induction false} ListingFrom(device: nat -> Json, sent: nat, command: string, offset: nat, left: nat)
    returns (offsets: seq<nat>)
    requires left > 0
    ensures offsets != [] && offsets[0] == offset
    ensures Tells(device, sent, command, Pages(device, sent, command, offset, left), offsets, left)
    decreases left
  {
    hide Get, PyEq, Dec, Announces, IsLast;
    ContinuesExactly(device(sent), command, offset);
    offsets := [offset];
    var row := Row(Request(command, offset), device(sent));
    if Continues(device(sent), command, offset) && left > 1 {
      var next := Get(device(sent), "next_offset").n;
      var rows := Pages(device, sent + 1, command, next, left - 1);
      var rest := ListingFrom(device, sent + 1, command, next, left - 1);
      offsets := [offset] + rest;
      assert Pages(device, sent, command, offset, left) == [row] + rows;
      hide Pages, Continues;
      TellsMore(device, sent, command, row, rows, offset, rest, left);
    }
  }

  lemma TellsMore(
      device: nat -> Json, sent: nat, command: string, row: Row, rows: seq<Row>, offset: nat, rest: seq<nat>, left: nat)
    requires left > 0 && Tells(device, sent + 1, command, rows, rest, left - 1)
    requires row == Row(Asking(command, offset), device(sent))
    requires Announces(row.result, command, offset, rest[0])
    ensures Tells(device, sent, command, [row] + rows, [offset] + rest, left)
  {
    hide Announces, IsLast, Asking;
    var all, offsets := [row] + rows, [offset] + rest;
    forall i | 0 <= i < |all|
      ensures all[i] == Row(Asking(command, offsets[i]), device(sent + i))
    {
      if i > 0 {
        assert all[i] == rows[i - 1] && offsets[i] == rest[i - 1] && sent + i == sent + 1 + (i - 1);
      }
    }
    forall i, j | 0 <= i && j == i + 1 && j < |all| ensures Announces(all[i].result, command, offsets[i], offsets[j]) {
      if i > 0 {
        assert Announces(rows[i - 1].result, command, rest[i - 1], rest[j - 1]);
      }
    }
  }

  /** A listing asks for the first page and then for every page that is announced, up to 32. */
  lemma ListingSpelledOut(device: nat -> Json, sent: nat, command: string) returns (offsets: seq<nat>)
    ensures offsets != [] && offsets[0] == 0
    ensures Tells(device, sent, command, Pages(device, sent, command, 0, MAX_PAGES), offsets, 32)
  {
    offsets := ListingFrom(device, sent, command, 0, 32);
    hide Pages, Tells;
  }

  /** The whole capture: five commands, the two listings, two more. */
  lemma CaptureSpelledOut(device: nat -> Json)
    ensures var publicRows := Pages(device, 5, "messages public", 0, 32);
      var n := 5 + |publicRows|;
      var dmRows := Pages(device, n, "messages dm", 0, 32);
      var k := n + |dmRows|;
      Capture(device) ==
        [Row("version", device(0)), Row("identity status", device(1)), Row("health", device(2)), Row("crashlog", device(3)),
         Row("settings get", device(4))]
        + publicRows + dmRows + [Row("messages unread", device(k)), Row("contacts", device(k + 1))]
  {
    hide Pages;
  }

  predicate AsksAt(command: string, request: string, n: nat) {
    n > 0 && request == command + " offset " + Dec(n)
  }

  ghost predicate AsksSomewhere(command: string, request: string) {
    exists n :: AsksAt(command, request, n)
  }

  /** The requests for a listing: the command, then the command with positive decimal offsets. */
  ghost predicate Requests(command: string, requests: seq<string>) {
    requests != [] && requests[0] == command && forall i :: 1 <= i < |requests| ==> AsksSomewhere(command, requests[i])
  }

  lemma OffsetExactly(command: string, request: string)
    ensures AsksForOffset(command, request) <==> AsksSomewhere(command, request)
  {
    var head := command + " offset ";
    if AsksForOffset(command, request) {
      var digits := request[|head|..];
      assert request == head + digits;
      DecOfValue(digits);
      assert AsksAt(command, request, Value(digits));
    }
    if n :| AsksAt(command, request, n) {
      RequestAsks(command, n);
    }
  }

  lemma ListingExactly(command: string, requests: seq<string>)
    ensures Listing(command, requests) <==> Requests(command, requests)
  {
    hide AsksForOffset, AsksSomewhere;
    forall i | 0 <= i < |requests| ensures AsksForOffset(command, requests[i]) <==> AsksSomewhere(command, requests[i]) {
      OffsetExactly(command, requests[i]);
    }
  }

  /** Exactly the command lists that pass as the order of a capture. */
  lemma OrderSpelledOut(commands: seq<string>)
    ensures InOrder(commands) <==>
      exists p, d :: Requests("messages public", p) && Requests("messages dm", d)
        && commands == ["version", "identity status", "health", "crashlog", "settings get"] + p + d
                       + ["messages unread", "contacts"]
  {
    hide Listing, Requests;
    forall command: string, requests: seq<string> ensures Listing(command, requests) <==> Requests(command, requests) {
      ListingExactly(command, requests);
    }
  }

  // ----- the comparison of two captures

  predicate Grows(before: Json, after: Json, field: string) {
    Get(before, field).Int? && Get(after, field).Int? && Get(before, field).n <= Get(after, field).n
  }

  predicate IsEntry(projection: Json, row: Json) {
    Get(projection, "entries").Arr? && row in Get(projection, "entries").items
  }

  /** Every row before has a row after with the same text. */
  ghost predicate NoneLost(text: Json -> string, before: Json, after: Json) {
    forall x :: IsEntry(before, x) ==> exists y :: IsEntry(after, y) && text(x) == text(y)
  }

  /** A message store: nothing lost, and nothing counted down. */
  ghost predicate StoreKept(text: Json -> string, before: Json, after: Json) {
    && before.Obj? && after.Obj? && NoneLost(text, before, after)
    && Grows(before, after, "total_written") && Grows(before, after, "dropped_oldest")
    && Grows(before, after, "content_revision")
  }

  lemma EntriesKeptExactly(text: Json -> string, before: Json, after: Json)
    ensures RowsKept(text, P.Entries(before), P.Entries(after)) <==> NoneLost(text, before, after)
  {
    var earlier, later := P.Entries(before), P.Entries(after);
    RowsKeptExactly(text, earlier, later);
    assert forall x :: IsEntry(before, x) <==> x in earlier;
    assert forall x :: IsEntry(after, x) <==> x in later;
    hide P.Entries, IsEntry, RowsKept;
  }

  lemma StoreKeptExactly(text: Json -> string, before: Json, after: Json)
    ensures P.MessagesKept(text, before, after) <==> StoreKept(text, before, after)
  {
    EntriesKeptExactly(text, before, after);
    hide RowsKept, NoneLost, Get;
    var fields := P.COUNTERS;
    assert AllNotRegressed(before, after, fields) <==> forall i :: 0 <= i < |fields| ==> Grows(before, after, fields[i]) by {
      if AllNotRegressed(before, after, fields) {
        assert forall i :: 0 <= i < |fields| ==> NotRegressed(Get(before, fields[i]), Get(after, fields[i]));
      }
      if forall i :: 0 <= i < |fields| ==> Grows(before, after, fields[i]) {
        assert forall i :: 0 <= i < |fields| ==> NotRegressed(Get(before, fields[i]), Get(after, fields[i]));
      }
    }
    hide AllNotRegressed, Grows, NotRegressed;
    assert fields[0] == "total_written" && fields[1] == "dropped_oldest" && fields[2] == "content_revision";
  }

  /** No message is recorded exactly when all of this holds of the two captures. */
  lemma PreservedSpelledOut(text: Json -> string, a: Json, b: Json)
    ensures P.Preserved(text, a, b) <==>
      && PyEq(Get(a, "settings"), Get(b, "settings")) && PyEq(Get(a, "read_state"), Get(b, "read_state"))
      && StoreKept(text, Get(a, "public_messages"), Get(b, "public_messages"))
      && StoreKept(text, Get(a, "direct_messages"), Get(b, "direct_messages"))
      && Get(a, "contacts").Obj? && Get(b, "contacts").Obj? && NoneLost(text, Get(a, "contacts"), Get(b, "contacts"))
  {
    StoreKeptExactly(text, Get(a, "public_messages"), Get(b, "public_messages"));
    StoreKeptExactly(text, Get(a, "direct_messages"), Get(b, "direct_messages"));
    EntriesKeptExactly(text, Get(a, "contacts"), Get(b, "contacts"));
    hide Get, PyEq, P.MessagesKept, StoreKept, RowsKept, NoneLost;
    assert P.MESSAGE_KEYS[0] == "public_messages" && P.MESSAGE_KEYS[1] == "direct_messages";
  }
}
