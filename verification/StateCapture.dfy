/** The capture of a device's retained state: which commands are sent, in which order, and how a
    paginated listing is read. */
module StateCapture {
  import opened JsonModel
  import opened Decimal

  const BASE := ["version", "identity status", "health", "crashlog", "settings get"]
  const TAIL := ["messages unread", "contacts"]
  const PUBLIC := "messages public"
  const DM := "messages dm"
  const MAX_PAGES := 32

  /** A command receipt: what was sent, and the result it ended with. */
  datatype Row = Row(command: string, result: Json)

  /** `_command_ok` */
  predicate CommandOk(result: Json, command: string) {
    result.Obj? && PyEq(Get(result, "schema"), Int(1)) && Get(result, "ok") == Bool(true) && Get(result, "cmd") == Str(command)
  }

  function Request(command: string, offset: nat): string {
    if offset == 0 then command else command + " offset " + Dec(offset)
  }

  /** The result announces a further page behind `offset`. */
  predicate Continues(result: Json, command: string, offset: nat) {
    && CommandOk(result, command) && Get(result, "has_older") == Bool(true)
    && Get(result, "next_offset").Int? && Get(result, "next_offset").n > offset
  }

  /** The rows of a listing, when command `sent` is the next the device answers. */
  function Pages(device: nat -> Json, sent: nat, command: string, offset: nat, left: nat): seq<Row>
    decreases left
  {
    if left == 0 then []
    else
      var row := Row(Request(command, offset), device(sent));
      if Continues(row.result, command, offset)
      then [row] + Pages(device, sent + 1, command, Get(row.result, "next_offset").n, left - 1)
      else [row]
  }

  lemma NoPages(device: nat -> Json, sent: nat, command: string, offset: nat)
    ensures Pages(device, sent, command, offset, 0) == []
  {
  }

  lemma PagesStep(device: nat -> Json, sent: nat, command: string, offset: nat, left: nat, next: nat)
    requires left > 0
    requires Continues(device(sent), command, offset) ==> Get(device(sent), "next_offset") == Int(next) && next > offset
    requires !Continues(device(sent), command, offset) ==> next <= offset
    ensures var row := Row(Request(command, offset), device(sent));
      Pages(device, sent, command, offset, left) ==
      if next > offset then [row] + Pages(device, sent + 1, command, next, left - 1) else [row]
  {
    hide Continues, Request;
  }

  lemma Assoc(a: seq<Row>, b: seq<Row>, c: seq<Row>)
    ensures a + (b + c) == a + b + c
  {
  }

  /** `_capture_pages` */
  method CapturePages(device: nat -> Json, sent: nat, command: string) returns (rows: seq<Row>)
    ensures rows == Pages(device, sent, command, 0, MAX_PAGES)
  {
    hide Continues, Request, Pages;
    rows := [];
    var offset := 0;
    var left := MAX_PAGES;
    while left > 0
      invariant 0 <= offset && 0 <= left <= MAX_PAGES && |rows| == MAX_PAGES - left
      invariant rows + Pages(device, sent + |rows|, command, offset, left) == Pages(device, sent, command, 0, MAX_PAGES)
    {
      var row := Row(Request(command, offset), device(sent + |rows|));
      left := left - 1;
      var next := NextOffset(row.result, command, offset);
      PagesStep(device, sent + |rows|, command, offset, left + 1, next);
      rows := rows + [row];
      if next <= offset {
        return;
      }
      Assoc(rows[..|rows| - 1], [row], Pages(device, sent + |rows|, command, next, left));
      offset := next;
    }
    NoPages(device, sent + |rows|, command, offset);
  }

  /** The checks between two pages; the offset itself when there is no further page. */
  method NextOffset(result: Json, command: string, offset: nat) returns (next: nat)
    ensures Continues(result, command, offset) ==> Get(result, "next_offset") == Int(next) && next > offset
    ensures !Continues(result, command, offset) ==> next == offset
  {
    if !CommandOk(result, command) {
      return offset;
    }
    if Get(result, "has_older") != Bool(true) {
      return offset;
    }
    var nextOffset := Get(result, "next_offset");
    if !nextOffset.Int? || nextOffset.n <= offset {
      return offset;
    }
    next := nextOffset.n;
  }

  // ----- what a listing asks for

  /** `re.fullmatch(rf"{command} offset [1-9][0-9]*", request)` */
  predicate AsksForOffset(command: string, request: string) {
    var head := command + " offset ";
    && |request| > |head| && request[..|head|] == head
    && '1' <= request[|head|] <= '9' && forall i :: |head| < i < |request| ==> IsDigit(request[i])
  }

  ghost predicate Listing(command: string, requests: seq<string>) {
    requests != [] && requests[0] == command && forall i :: 1 <= i < |requests| ==> AsksForOffset(command, requests[i])
  }

  function Commands(rows: seq<Row>): seq<string> {
    seq(|rows|, i requires 0 <= i < |rows| => rows[i].command)
  }

  lemma RequestAsks(command: string, offset: nat)
    requires offset > 0
    ensures AsksForOffset(command, Request(command, offset))
  {
    var head, digits := command + " offset ", Dec(offset);
    var request := Request(command, offset);
    assert request[..|head|] == head;
    forall i | |head| <= i < |request| ensures IsDigit(request[i]) && (i == |head| ==> request[i] != '0') {
      assert request[i] == digits[i - |head|];
    }
  }

  /** At most `left` pages, each asked for by an offset beyond that of the page before. */
  lemma {:induction false} PagesAdvance(device: nat -> Json, sent: nat, command: string, offset: nat, left: nat)
      returns (offsets: seq<nat>)
    requires left > 0
    ensures var rows := Pages(device, sent, command, offset, left);
      && 1 <= |rows| == |offsets| <= left && offsets[0] == offset
      && (forall i :: 0 <= i < |rows| ==> rows[i].command == Request(command, offsets[i]))
    ensures forall i, j :: 0 <= i < j < |offsets| ==> offsets[i] < offsets[j]
    decreases left
  {
    var result := device(sent);
    offsets := [offset];
    if Continues(result, command, offset) && left > 1 {
      var rest := PagesAdvance(device, sent + 1, command, Get(result, "next_offset").n, left - 1);
      offsets := [offset] + rest;
    }
    hide Request;
  }

  lemma PagesAreListing(device: nat -> Json, sent: nat, command: string)
    ensures Listing(command, Commands(Pages(device, sent, command, 0, MAX_PAGES)))
  {
    var offsets := PagesAdvance(device, sent, command, 0, MAX_PAGES);
    var rows := Pages(device, sent, command, 0, MAX_PAGES);
    assert rows[0].command == Request(command, offsets[0]) == command;
    forall i | 1 <= i < |rows| ensures AsksForOffset(command, Commands(rows)[i]) {
      assert offsets[0] < offsets[i];
      RequestAsks(command, offsets[i]);
    }
  }

  // ----- the whole capture

  function Each(device: nat -> Json, sent: nat, commands: seq<string>): seq<Row> {
    seq(|commands|, i requires 0 <= i < |commands| => Row(commands[i], device(sent + i)))
  }

  function PublicRows(device: nat -> Json): seq<Row> {
    Pages(device, |BASE|, PUBLIC, 0, MAX_PAGES)
  }

  function DmRows(device: nat -> Json): seq<Row> {
    Pages(device, |BASE| + |PublicRows(device)|, DM, 0, MAX_PAGES)
  }

  /** The rows of a capture; the device answers the commands in the order they are sent. */
  function Capture(device: nat -> Json): seq<Row> {
    var p, d := PublicRows(device), DmRows(device);
    Each(device, 0, BASE) + p + d + Each(device, |BASE| + |p| + |d|, TAIL)
  }

  method SendEach(device: nat -> Json, sent: nat, commands: seq<string>) returns (rows: seq<Row>)
    ensures rows == Each(device, sent, commands)
  {
    rows := [];
    for i := 0 to |commands|
      invariant |rows| == i && forall j :: 0 <= j < i ==> rows[j] == Row(commands[j], device(sent + j))
    {
      rows := rows + [Row(commands[i], device(sent + i))];
    }
  }

  /** `capture_state` */
  method CaptureState(device: nat -> Json) returns (rows: seq<Row>)
    ensures rows == Capture(device)
  {
    hide Each, Pages;
    rows := SendEach(device, 0, BASE);
    var sent := |BASE|;
    var publicRows := CapturePages(device, sent, PUBLIC);
    sent := sent + |publicRows|;
    var dmRows := CapturePages(device, sent, DM);
    sent := sent + |dmRows|;
    var tail := SendEach(device, sent, TAIL);
    rows := rows + publicRows + dmRows + tail;
  }

  // ----- the order check

  /** The base commands, one listing of each kind, and the tail. */
  ghost predicate InOrder(commands: seq<string>) {
    exists p, d :: Listing(PUBLIC, p) && Listing(DM, d) && commands == BASE + p + d + TAIL
  }

  function CommandsOf(receipts: seq<Json>): seq<string>
    requires forall i :: 0 <= i < |receipts| ==> Get(receipts[i], "command").Str?
  {
    seq(|receipts|, i requires 0 <= i < |receipts| => Get(receipts[i], "command").s)
  }

  method IsListing(command: string, requests: seq<string>) returns (ok: bool)
    ensures ok <==> Listing(command, requests)
  {
    if requests == [] || requests[0] != command {
      return false;
    }
    for i := 1 to |requests|
      invariant forall j :: 1 <= j < i ==> AsksForOffset(command, requests[j])
    {
      if !AsksForOffset(command, requests[i]) {
        return false;
      }
    }
    ok := true;
  }

  method IndexOf(x: string, xs: seq<string>) returns (n: nat)
    ensures n <= |xs| && (forall i :: 0 <= i < n ==> xs[i] != x) && (n < |xs| ==> xs[n] == x)
  {
    n := 0;
    while n < |xs| && xs[n] != x
      invariant n <= |xs| && forall i :: 0 <= i < n ==> xs[i] != x
    {
      n := n + 1;
    }
  }

  /** `_state_command_order_errors`: no errors. */
  method OrderIsValid(receipts: seq<Json>) returns (ok: bool)
    ensures ok <==> (forall i :: 0 <= i < |receipts| ==> Get(receipts[i], "command").Str?) && InOrder(CommandsOf(receipts))
  {
    hide Get, Listing;
    for i := 0 to |receipts|
      invariant forall j :: 0 <= j < i ==> Get(receipts[j], "command").Str?
    {
      if !Get(receipts[i], "command").Str? {
        return false;
      }
    }
    var commands := CommandsOf(receipts);
    ok := CommandsInOrder(commands);
  }

  method CommandsInOrder(commands: seq<string>) returns (ok: bool)
    ensures ok <==> InOrder(commands)
  {
    hide Listing;
    var n, base, tail := |commands|, |BASE|, |TAIL|;
    if exists p, d :: Listing(PUBLIC, p) && Listing(DM, d) && commands == BASE + p + d + TAIL {
      var p, d :| Listing(PUBLIC, p) && Listing(DM, d) && commands == BASE + p + d + TAIL;
      Parts(commands, p, d);
    }
    if n < base || commands[..base] != BASE {
      return false;
    }
    if n < tail || commands[n - tail..] != TAIL {
      return false;
    }
    var paginated := if base <= n - tail then commands[base..n - tail] else [];
    var start := IndexOf(DM, paginated);
    if start == |paginated| {
      return false;
    }
    var publicOk := IsListing(PUBLIC, paginated[..start]);
    var dmOk := IsListing(DM, paginated[start..]);
    ok := publicOk && dmOk;
    if ok {
      Whole(commands, start);
    }
  }

  /** How an ordered command list falls into its parts. */
  lemma Parts(commands: seq<string>, p: seq<string>, d: seq<string>)
    requires Listing(PUBLIC, p) && Listing(DM, d) && commands == BASE + p + d + TAIL
    ensures var n := |commands|;
      && |BASE| <= n - |TAIL| && commands[..|BASE|] == BASE && commands[n - |TAIL|..] == TAIL
      && var paginated := commands[|BASE|..n - |TAIL|];
      && |p| < |paginated| && paginated[|p|] == DM && paginated[..|p|] == p && paginated[|p|..] == d
      && forall i :: 0 <= i < |p| ==> paginated[i] != DM
  {
    var n := |commands|;
    assert commands[|BASE|..n - |TAIL|] == p + d;
    forall i | 0 <= i < |p| ensures p[i] != DM {
      assert p[i][..|PUBLIC|] == PUBLIC by {
        if i > 0 { assert p[i][..|PUBLIC + " offset "|][..|PUBLIC|] == PUBLIC; }
      }
      assert |DM| < |PUBLIC|;
    }
  }

  lemma Whole(commands: seq<string>, start: nat)
    requires |BASE| + |TAIL| + start <= |commands|
    requires commands[..|BASE|] == BASE && commands[|commands| - |TAIL|..] == TAIL
    requires Listing(PUBLIC, commands[|BASE|..|commands| - |TAIL|][..start])
    requires Listing(DM, commands[|BASE|..|commands| - |TAIL|][start..])
    ensures InOrder(commands)
  {
    hide Listing;
    var paginated := commands[|BASE|..|commands| - |TAIL|];
    assert paginated == paginated[..start] + paginated[start..];
    assert commands == BASE + paginated + TAIL;
    assert commands == BASE + paginated[..start] + paginated[start..] + TAIL;
  }

  lemma {:induction false} CommandsOfRows(a: seq<Row>, b: seq<Row>)
    ensures Commands(a + b) == Commands(a) + Commands(b)
  {
  }

  lemma CommandsOfEach(device: nat -> Json, sent: nat, commands: seq<string>)
    ensures Commands(Each(device, sent, commands)) == commands
  {
  }

  /** Whatever the device replies, a capture has the command order that is accepted. */
  lemma CaptureInOrder(device: nat -> Json)
    ensures InOrder(Commands(Capture(device)))
  {
    var p, d := PublicRows(device), DmRows(device);
    var base, tail := Each(device, 0, BASE), Each(device, |BASE| + |p| + |d|, TAIL);
    PagesAreListing(device, |BASE|, PUBLIC);
    PagesAreListing(device, |BASE| + |p|, DM);
    CommandsOfRows(base + p + d, tail);
    CommandsOfRows(base + p, d);
    CommandsOfRows(base, p);
    CommandsOfEach(device, 0, BASE);
    CommandsOfEach(device, |BASE| + |p| + |d|, TAIL);
    assert Commands(Capture(device)) == BASE + Commands(p) + Commands(d) + TAIL;
  }
}
