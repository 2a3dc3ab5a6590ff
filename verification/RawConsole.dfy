/** One console command over the serial line: the receipt that keeps the raw bytes, and its
    recomputation from them. */
module RawConsole {
  import opened Results
  import opened JsonModel
  import opened Base64

  type Bytes = seq<Byte>

  const MAX_RAW_LINE_BYTES := 131072

  /** SHA-256; the object a line holds, if it is UTF-8 and a JSON line; the name a command is
      answered under. All three are arbitrary here. */
  datatype Tools = Tools(digest: Bytes -> string, line: Bytes -> Option<map<string, Json>>, answeredAs: string -> string)

  /** `_raw_line` */
  function RawLine(t: Tools, raw: Bytes, observedAt: string): Json {
    Obj(map[
      "observed_at" := Str(observedAt), "size" := Int(|raw|), "sha256" := Str(t.digest(raw)), "base64" := Str(Encode(raw))])
  }

  /** The reply a line holds, if it answers `expected`. */
  function Answer(t: Tools, raw: Bytes, expected: string): Option<Json> {
    var parsed := t.line(raw);
    if parsed.Some? && Get(Obj(parsed.value), "cmd") == Str(expected) then Some(Obj(parsed.value)) else None
  }

  /** A line after which nothing more is read. */
  predicate Last(t: Tools, raw: Bytes, expected: string) {
    |raw| > MAX_RAW_LINE_BYTES || Answer(t, raw, expected).Some?
  }

  /** The lines that are kept of what the port returns from read `i` on, behind those kept so far. */
  function Kept(t: Tools, incoming: seq<Bytes>, i: nat, sofar: seq<Bytes>, expected: string): seq<Bytes>
    requires i <= |incoming|
    decreases |incoming| - i
  {
    if i == |incoming| then sofar
    else if incoming[i] == [] then Kept(t, incoming, i + 1, sofar, expected)
    else if Last(t, incoming[i], expected) then sofar + [incoming[i]]
    else Kept(t, incoming, i + 1, sofar + [incoming[i]], expected)
  }

  /** The reply the producer sees: the first answering line, unless an overlong line comes first. */
  function Reply(t: Tools, incoming: seq<Bytes>, i: nat, expected: string): Option<Json>
    requires i <= |incoming|
    decreases |incoming| - i
  {
    if i == |incoming| || |incoming[i]| > MAX_RAW_LINE_BYTES then None
    else if incoming[i] != [] && Answer(t, incoming[i], expected).Some? then Answer(t, incoming[i], expected)
    else Reply(t, incoming, i + 1, expected)
  }

  function NoReply(expected: string): Json {
    Obj(map["schema" := Int(1), "ok" := Bool(false), "cmd" := Str(expected), "code" := Str("TIMEOUT_OR_INVALID_RAW")])
  }

  /** The rows of kept lines; `now(k)` is the time the `k`-th was observed. */
  function Rows(t: Tools, lines: seq<Bytes>, now: nat -> string): seq<Json> {
    if lines == [] then []
    else Rows(t, lines[..|lines| - 1], now) + [RawLine(t, lines[|lines| - 1], now(|lines| - 1))]
  }

  function Receipt(command: string, expected: string, rows: seq<Json>, result: Json): Json {
    Obj(map["command" := Str(command), "expected_cmd" := Str(expected), "raw_lines" := Arr(rows), "result" := result])
  }

  lemma RowsEmpty(t: Tools, now: nat -> string)
    ensures Rows(t, [], now) == []
  {
  }

  lemma {:induction false} RowsSnoc(t: Tools, lines: seq<Bytes>, raw: Bytes, now: nat -> string)
    ensures Rows(t, lines + [raw], now) == Rows(t, lines, now) + [RawLine(t, raw, now(|lines|))]
  {
    assert (lines + [raw])[..|lines|] == lines;
  }

  /** Some line from read `i` on ends the reading. */
  predicate Stops(t: Tools, incoming: seq<Bytes>, i: nat, expected: string)
    requires i <= |incoming|
    decreases |incoming| - i
  {
    i < |incoming| && ((incoming[i] != [] && Last(t, incoming[i], expected)) || Stops(t, incoming, i + 1, expected))
  }

  /** What the port and the clocks do: the reads until the deadline, or until a call raises, and
      whether one does; whether the clock answers when the receipt is closed. */
  datatype Session = Session(incoming: seq<Bytes>, interrupted: bool, closes: bool)

  /** An exception escapes. */
  predicate Escapes(t: Tools, session: Session, expected: string) {
    !session.closes || (session.interrupted && !Stops(t, session.incoming, 0, expected))
  }

  /** The result in the receipt: none yet when an exception escapes. */
  function ResultOf(t: Tools, session: Session, expected: string): Json {
    var reply := Reply(t, session.incoming, 0, expected);
    if Escapes(t, session, expected) then Null else if reply.Some? then reply.value else NoReply(expected)
  }

  /** The receipt in the command log when the call is over. */
  function Logged(t: Tools, command: string, session: Session, now: nat -> string): Json {
    var expected := t.answeredAs(command);
    Receipt(
      command, expected, Rows(t, Kept(t, session.incoming, 0, [], expected), now), ResultOf(t, session, expected))
  }

  /** `read_raw_command`: the receipt is in the command log from the start and filled in as it goes. */
  method ReadRawCommand(t: Tools, command: string, session: Session, now: nat -> string) returns (receipt: Json, raised: bool)
    ensures receipt == Logged(t, command, session, now)
    ensures raised == Escapes(t, session, t.answeredAs(command))
  {
    hide RawLine, Rows, Answer;
    var incoming := session.incoming;
    var expected := t.answeredAs(command);
    var rows, result, stopped := [], None, false;
    ghost var lines := [];
    RowsEmpty(t, now);
    var i := 0;
    while i < |incoming|
      invariant i <= |incoming|
      invariant rows == Rows(t, lines, now) && |rows| == |lines|
      invariant Kept(t, incoming, i, lines, expected) == Kept(t, incoming, 0, [], expected)
      invariant result == None && Reply(t, incoming, i, expected) == Reply(t, incoming, 0, expected)
      invariant !stopped && Stops(t, incoming, i, expected) == Stops(t, incoming, 0, expected)
    {
      var raw := incoming[i];
      i := i + 1;
      if raw == [] {
        continue;
      }
      RowsSnoc(t, lines, raw, now);
      rows := rows + [RawLine(t, raw, now(|rows|))];
      lines := lines + [raw];
      if |raw| > MAX_RAW_LINE_BYTES {
        stopped := true;
        break;
      }
      result := FindAnswer(t, raw, expected);
      if result.Some? {
        stopped := true;
        break;
      }
    }
    assert lines == Kept(t, incoming, 0, [], expected) && result == Reply(t, incoming, 0, expected);
    assert stopped == Stops(t, incoming, 0, expected);
    raised := (session.interrupted && !stopped) || !session.closes;
    receipt := Receipt(
      command, expected, rows, if raised then Null else if result.Some? then result.value else NoReply(expected));
  }

  /** The body of the loop behind the read: the parsed line, if it answers the command. */
  method FindAnswer(t: Tools, raw: Bytes, expected: string) returns (found: Option<Json>)
    ensures found == Answer(t, raw, expected)
  {
    found := None;
    var parsed := t.line(raw);
    if parsed.Some? && Get(Obj(parsed.value), "cmd") == Str(expected) {
      found := Some(Obj(parsed.value));
    }
  }

  // ----- recomputation

  /** `decode_raw_line`: the bytes, if there are any, and the number of errors. */
  function DecodeRawLine(t: Tools, row: Json): (Option<Bytes>, nat) {
    var raw := if Get(row, "base64").Str? then Decode(Get(row, "base64").s) else None;
    if raw.None? then (None, 1)
    else
      (raw,
       Count(Get(row, "size") != Int(|raw.value|)) + Count(Get(row, "sha256") != Str(t.digest(raw.value)))
       + Count(!Get(row, "observed_at").Str?))
  }

  /** The errors a row adds. */
  function RowErrors(t: Tools, row: Json): nat {
    var (raw, errors) := DecodeRawLine(t, row);
    errors + Count(raw.Some? && |raw.value| > MAX_RAW_LINE_BYTES)
  }

  /** The reply a row holds. */
  function RowAnswer(t: Tools, row: Json, expected: Json): seq<Json> {
    var (raw, _) := DecodeRawLine(t, row);
    if raw.None? || |raw.value| > MAX_RAW_LINE_BYTES then []
    else
      var parsed := t.line(raw.value);
      if parsed.Some? && PyEq(Get(Obj(parsed.value), "cmd"), expected) then [Obj(parsed.value)] else []
  }

  function Errors(t: Tools, rows: seq<Json>): nat {
    if rows == [] then 0 else Errors(t, rows[..|rows| - 1]) + RowErrors(t, rows[|rows| - 1])
  }

  function Answers(t: Tools, rows: seq<Json>, expected: Json): seq<Json> {
    if rows == [] then []
    else Answers(t, rows[..|rows| - 1], expected) + RowAnswer(t, rows[|rows| - 1], expected)
  }

  datatype Recomputed = Recomputed(result: Option<Json>, errors: nat)

  /** What `recompute_raw_command` returns. */
  function Recompute(t: Tools, row: Json): Recomputed {
    var command, expected, lines := Get(row, "command"), Get(row, "expected_cmd"), Get(row, "raw_lines");
    if !command.Str? || command.s == "" then Recomputed(None, 1)
    else
      var errors := Count(!PyEq(expected, Str(t.answeredAs(command.s))));
      if !lines.Arr? || lines.items == [] then Recomputed(None, errors + 1)
      else
        var found := Answers(t, lines.items, expected);
        var all := errors + Errors(t, lines.items);
        if |found| != 1 then Recomputed(None, all + 1)
        else Recomputed(Some(found[0]), all + Count(!PyEq(Get(row, "result"), found[0])))
  }

  method RecomputeRawCommand(t: Tools, row: Json) returns (r: Recomputed)
    ensures r == Recompute(t, row)
  {
    if !row.Obj? {
      return Recomputed(None, 1);
    }
    var command, expected, lines := Get(row, "command"), Get(row, "expected_cmd"), Get(row, "raw_lines");
    if !command.Str? || command.s == "" {
      return Recomputed(None, 1);
    }
    var errors := Count(!PyEq(expected, Str(t.answeredAs(command.s))));
    if !lines.Arr? || lines.items == [] {
      return Recomputed(None, errors + 1);
    }
    ghost var before := errors;
    var matched := [];
    assert lines.items[..|lines.items|] == lines.items;
    for i := 0 to |lines.items|
      invariant errors == before + Errors(t, lines.items[..i])
      invariant matched == Answers(t, lines.items[..i], expected)
    {
      assert lines.items[..i + 1][..i] == lines.items[..i];
      var (raw, found) := DecodeRawLine(t, lines.items[i]);
      errors := errors + found;
      if raw.None? || |raw.value| > MAX_RAW_LINE_BYTES {
        errors := errors + Count(raw.Some?);
        continue;
      }
      var parsed := t.line(raw.value);
      if parsed.Some? && PyEq(Get(Obj(parsed.value), "cmd"), expected) {
        matched := matched + [Obj(parsed.value)];
      }
    }
    if |matched| != 1 {
      return Recomputed(None, errors + 1);
    }
    r := Recomputed(Some(matched[0]), errors + Count(!PyEq(Get(row, "result"), matched[0])));
  }

  // ----- a receipt is accepted exactly when it was answered

  lemma RowDecodes(t: Tools, raw: Bytes, observedAt: string)
    ensures DecodeRawLine(t, RawLine(t, raw, observedAt)) == (Some(raw), 0)
  {
    DecodeEncode(raw);
    hide Encode, Decode;
  }

  /** What a kept line adds when it is recomputed. */
  lemma RowRecomputes(t: Tools, raw: Bytes, observedAt: string, expected: string)
    ensures RowErrors(t, RawLine(t, raw, observedAt)) == Count(|raw| > MAX_RAW_LINE_BYTES)
    ensures var answer := Answer(t, raw, expected);
      RowAnswer(t, RawLine(t, raw, observedAt), Str(expected)) ==
      if |raw| > MAX_RAW_LINE_BYTES || answer.None? then [] else [answer.value]
  {
    RowDecodes(t, raw, observedAt);
    var parsed := t.line(raw);
    if parsed.Some? { PyEqString(Get(Obj(parsed.value), "cmd"), Str(expected)); }
    hide RawLine, DecodeRawLine, PyEq;
  }

  lemma RowsRecompute(t: Tools, sofar: seq<Bytes>, raw: Bytes, now: nat -> string, expected: string)
    requires Silent(t, sofar, now, expected)
    ensures var rows := Rows(t, sofar + [raw], now);
      && rows != [] && Errors(t, rows) == Count(|raw| > MAX_RAW_LINE_BYTES)
      && Answers(t, rows, Str(expected)) ==
         if |raw| > MAX_RAW_LINE_BYTES || Answer(t, raw, expected).None? then [] else [Answer(t, raw, expected).value]
  {
    hide RawLine, RowErrors, RowAnswer, Answer;
    RowsSnoc(t, sofar, raw, now);
    RowRecomputes(t, raw, now(|sofar|), expected);
    var rows := Rows(t, sofar + [raw], now);
    assert rows[..|rows| - 1] == Rows(t, sofar, now);
  }

  /** Kept lines without an error and without an answer. */
  predicate Silent(t: Tools, lines: seq<Bytes>, now: nat -> string, expected: string) {
    Errors(t, Rows(t, lines, now)) == 0 && Answers(t, Rows(t, lines, now), Str(expected)) == []
  }

  /** The kept lines recompute to the reply and nothing else; without a reply they are in error,
      answer nothing, or are not there. */
  lemma {:induction false} KeptRecomputes(
      t: Tools, incoming: seq<Bytes>, i: nat, sofar: seq<Bytes>, now: nat -> string, expected: string)
    requires i <= |incoming| && Silent(t, sofar, now, expected)
    ensures var rows := Rows(t, Kept(t, incoming, i, sofar, expected), now);
      var reply := Reply(t, incoming, i, expected);
      && (reply.Some? ==> rows != [] && Errors(t, rows) == 0 && Answers(t, rows, Str(expected)) == [reply.value])
      && (reply.None? ==> Answers(t, rows, Str(expected)) == [])
    decreases |incoming| - i
  {
    hide Rows, Answer, Errors, Answers;
    if i < |incoming| {
      var raw := incoming[i];
      if raw == [] {
        KeptRecomputes(t, incoming, i + 1, sofar, now, expected);
      } else {
        RowsRecompute(t, sofar, raw, now, expected);
        if !Last(t, raw, expected) {
          KeptRecomputes(t, incoming, i + 1, sofar + [raw], now, expected);
        }
      }
    }
  }

  lemma RecomputeReceipt(t: Tools, command: string, rows: seq<Json>, result: Json)
    requires command != ""
    ensures var expected := t.answeredAs(command);
      var found := Answers(t, rows, Str(expected));
      var r := Recompute(t, Receipt(command, expected, rows, result));
      && (rows == [] || |found| != 1 ==> r.errors > 0 && r.result == None)
      && (rows != [] && |found| == 1 ==> r.result == Some(found[0]))
      && (rows != [] && |found| == 1 ==> r.errors == Errors(t, rows) + Count(!PyEq(result, found[0])))
  {
    hide Errors, Answers, PyEq;
    var row := Receipt(command, t.answeredAs(command), rows, result);
    assert Get(row, "command") == Str(command) && Get(row, "expected_cmd") == Str(t.answeredAs(command));
    assert Get(row, "raw_lines") == Arr(rows) && Get(row, "result") == result;
    PyEqString(Get(row, "expected_cmd"), Str(t.answeredAs(command)));
    hide Receipt;
  }

  lemma {:induction false} ReplyIsObject(t: Tools, incoming: seq<Bytes>, i: nat, expected: string)
    requires i <= |incoming|
    ensures Reply(t, incoming, i, expected).Some? ==> Reply(t, incoming, i, expected).value.Obj?
    decreases |incoming| - i
  {
    if i < |incoming| {
      ReplyIsObject(t, incoming, i + 1, expected);
    }
  }

  lemma ResultMatches(t: Tools, session: Session, expected: string)
    ensures var reply := Reply(t, session.incoming, 0, expected);
      reply.Some? ==> (PyEq(ResultOf(t, session, expected), reply.value) <==> !Escapes(t, session, expected))
  {
    ReplyIsObject(t, session.incoming, 0, expected);
    hide Reply, Escapes;
  }

  /** For every byte stream, every non-empty command and every exception on the way, the logged
      receipt recomputes without an error exactly when the call returned and saw an answer; it always
      recomputes to the answer that came. */
  lemma AcceptedExactlyWhenAnswered(t: Tools, command: string, session: Session, now: nat -> string)
    requires command != ""
    ensures var expected := t.answeredAs(command);
      var reply := Reply(t, session.incoming, 0, expected);
      var recomputed := Recompute(t, Logged(t, command, session, now));
      && (recomputed.errors == 0 <==> reply.Some? && !Escapes(t, session, expected)) && recomputed.result == reply
  {
    var expected := t.answeredAs(command);
    RowsEmpty(t, now);
    assert Silent(t, [], now, expected);
    hide Rows, Kept, Reply, Recompute, Receipt, PyEq, ResultOf, Escapes, Silent, Errors, Answers;
    KeptRecomputes(t, session.incoming, 0, [], now, expected);
    ResultMatches(t, session, expected);
    RecomputeReceipt(
      t, command, Rows(t, Kept(t, session.incoming, 0, [], expected), now), ResultOf(t, session, expected));
  }
}
