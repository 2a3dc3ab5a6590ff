/** What the receipt of a console command says, told from the reads of the port. */
module ConsoleMeaning {
  import opened Base64
  import opened JsonModel
  import opened RawConsole
  import opened Results
  import StateCapture

  /** The read is a line that answers the command. */
  predicate IsAnswer(t: Tools, raw: Bytes, expected: string) {
    0 < |raw| <= 131072 && t.line(raw).Some? && Get(Obj(t.line(raw).value), "cmd") == Str(expected)
  }

  /** Nothing more is read behind this read. */
  predicate IsLast(t: Tools, raw: Bytes, expected: string) {
    |raw| > 131072 || IsAnswer(t, raw, expected)
  }

  /** The reading ends with read `k`. */
  predicate EndsAt(t: Tools, incoming: seq<Bytes>, expected: string, k: int) {
    0 <= k < |incoming| && IsLast(t, incoming[k], expected) && forall j :: 0 <= j < k ==> !IsLast(t, incoming[j], expected)
  }

  ghost predicate Endless(t: Tools, incoming: seq<Bytes>, expected: string) {
    forall k :: !EndsAt(t, incoming, expected, k)
  }

  /** An exception escapes: the clock raises at the end, or a call raises before a read ends the reading. */
  ghost predicate Raises(t: Tools, session: Session, expected: string) {
    !session.closes || (session.interrupted && Endless(t, session.incoming, expected))
  }

  // ----- the recursive descriptions, told from the reads

  lemma {:induction false} StopsExactly(t: Tools, incoming: seq<Bytes>, i: nat, expected: string)
    requires i <= |incoming|
    ensures Stops(t, incoming, i, expected) <==> exists k :: i <= k < |incoming| && IsLast(t, incoming[k], expected)
    decreases |incoming| - i
  {
    if i < |incoming| {
      StopsExactly(t, incoming, i + 1, expected);
      hide Get;
    }
  }

  lemma {:induction false} FirstLast(t: Tools, incoming: seq<Bytes>, expected: string, k: nat) returns (first: nat)
    requires k < |incoming| && IsLast(t, incoming[k], expected)
    ensures EndsAt(t, incoming, expected, first)
  {
    hide IsLast;
    if j :| 0 <= j < k && IsLast(t, incoming[j], expected) {
      first := FirstLast(t, incoming, expected, j);
    } else {
      first := k;
    }
  }

  lemma EscapesExactly(t: Tools, session: Session, expected: string)
    ensures Escapes(t, session, expected) <==> Raises(t, session, expected)
  {
    StopsExactly(t, session.incoming, 0, expected);
    hide IsLast, Stops;
    if k :| 0 <= k < |session.incoming| && IsLast(t, session.incoming[k], expected) {
      var first := FirstLast(t, session.incoming, expected, k);
    }
  }

  lemma {:induction false} ReplyExactly(t: Tools, incoming: seq<Bytes>, i: nat, expected: string)
    requires i <= |incoming| && forall j :: 0 <= j < i ==> !IsLast(t, incoming[j], expected)
    ensures Endless(t, incoming, expected) ==> Reply(t, incoming, i, expected).None?
    ensures forall k :: EndsAt(t, incoming, expected, k) ==>
      Reply(t, incoming, i, expected) == if IsAnswer(t, incoming[k], expected) then Some(Obj(t.line(incoming[k]).value)) else None
    decreases |incoming| - i
  {
    hide Get;
    if i < |incoming| {
      if IsLast(t, incoming[i], expected) {
        assert EndsAt(t, incoming, expected, i);
        forall k | EndsAt(t, incoming, expected, k) ensures k == i {
          assert !(k < i) && !(i < k);
        }
      } else {
        ReplyExactly(t, incoming, i + 1, expected);
      }
    }
  }

  /** The reads that are kept: those that are not empty, up to the one that ends the reading. */
  predicate IsKept(t: Tools, incoming: seq<Bytes>, expected: string, i: int) {
    0 <= i < |incoming| && incoming[i] != [] && forall j :: 0 <= j < i ==> !IsLast(t, incoming[j], expected)
  }

  predicate Places(incoming: seq<Bytes>, lines: seq<Bytes>, places: seq<nat>, bound: nat) {
    && |places| == |lines| && bound <= |incoming|
    && (forall k :: 0 <= k < |places| ==> places[k] < bound && lines[k] == incoming[places[k]])
    && forall j, k :: 0 <= j < k < |places| ==> places[j] < places[k]
  }

  lemma {:induction false} KeptExactly(
      t: Tools, incoming: seq<Bytes>, i: nat, sofar: seq<Bytes>, expected: string, before: seq<nat>)
    returns (places: seq<nat>)
    requires i <= |incoming| && Places(incoming, sofar, before, i)
    requires forall j :: 0 <= j < i ==> !IsLast(t, incoming[j], expected) && (j in before <==> incoming[j] != [])
    ensures Places(incoming, Kept(t, incoming, i, sofar, expected), places, |incoming|)
    ensures forall k: nat :: k in places <==> IsKept(t, incoming, expected, k)
    decreases |incoming| - i
  {
    hide Get, IsLast, Last;
    if i == |incoming| {
      places := before;
    } else if incoming[i] == [] {
      EmptyNotLast(t, expected);
      places := KeptExactly(t, incoming, i + 1, sofar, expected, before);
    } else {
      places := before + [i];
      LastExactly(t, incoming[i], expected);
      OnePlaceMore(incoming, sofar, before, i);
      hide Places;
      if !IsLast(t, incoming[i], expected) {
        places := KeptExactly(t, incoming, i + 1, sofar + [incoming[i]], expected, places);
      } else {
        KeptUpTo(t, incoming, i, expected, places);
      }
    }
  }

  lemma OnePlaceMore(incoming: seq<Bytes>, lines: seq<Bytes>, places: seq<nat>, i: nat)
    requires i < |incoming| && Places(incoming, lines, places, i)
    ensures Places(incoming, lines + [incoming[i]], places + [i], i + 1)
    ensures Places(incoming, lines + [incoming[i]], places + [i], |incoming|)
  {
  }

  /** The reading ends with read `i`. */
  lemma KeptUpTo(t: Tools, incoming: seq<Bytes>, i: nat, expected: string, places: seq<nat>)
    requires i < |incoming| && incoming[i] != [] && IsLast(t, incoming[i], expected)
    requires forall j :: 0 <= j < i ==> !IsLast(t, incoming[j], expected)
    requires forall k: nat :: k in places <==> k <= i && incoming[k] != []
    ensures forall k: nat :: k in places <==> IsKept(t, incoming, expected, k)
  {
    hide IsLast;
  }

  lemma EmptyNotLast(t: Tools, expected: string)
    ensures !IsLast(t, [], expected)
  {
  }

  lemma LastExactly(t: Tools, raw: Bytes, expected: string)
    requires raw != []
    ensures Last(t, raw, expected) <==> IsLast(t, raw, expected)
  {
  }

  // ----- the receipt

  /** The row of a line: its time, size, digest and bytes. */
  predicate RowTells(t: Tools, row: Json, raw: Bytes, observedAt: string) {
    && Get(row, "observed_at") == Str(observedAt) && Get(row, "size") == Int(|raw|)
    && Get(row, "sha256") == Str(t.digest(raw)) && Get(row, "base64") == Str(Encode(raw))
  }

  lemma {:induction false} RowsTell(t: Tools, lines: seq<Bytes>, now: nat -> string)
    ensures |Rows(t, lines, now)| == |lines|
    ensures forall k: nat :: k < |lines| ==> RowTells(t, Rows(t, lines, now)[k], lines[k], now(k))
  {
    hide Encode;
    if lines != [] {
      var n := |lines| - 1;
      RowsTell(t, lines[..n], now);
      RowTold(t, lines[n], now(n));
      hide RawLine, RowTells;
    }
  }

  lemma RowTold(t: Tools, raw: Bytes, observedAt: string)
    ensures RowTells(t, RawLine(t, raw, observedAt), raw, observedAt)
  {
    hide Encode;
  }

  /** The receipt keeps the command and every non-empty read up to the one that ends the reading, in order. */
  lemma ReceiptKeepsReads(t: Tools, command: string, session: Session, now: nat -> string) returns (places: seq<nat>)
    ensures var receipt, incoming := Logged(t, command, session, now), session.incoming;
      var rows := Get(receipt, "raw_lines");
      && Get(receipt, "command") == Str(command) && Get(receipt, "expected_cmd") == Str(t.answeredAs(command))
      && rows.Arr? && |rows.items| == |places| && (forall j, k :: 0 <= j < k < |places| ==> places[j] < places[k])
      && (forall i: nat :: i in places <==> IsKept(t, incoming, t.answeredAs(command), i))
      && forall k: nat :: k < |places| ==>
          places[k] < |incoming| && RowTells(t, rows.items[k], incoming[places[k]], now(k))
  {
    var expected := t.answeredAs(command);
    var lines := Kept(t, session.incoming, 0, [], expected);
    var receipt := Logged(t, command, session, now);
    assert Get(receipt, "command") == Str(command) && Get(receipt, "expected_cmd") == Str(expected)
        && Get(receipt, "raw_lines") == Arr(Rows(t, lines, now)) by {
      hide Kept, Rows, ResultOf;
    }
    hide Logged, Kept, Rows, RowTells, IsKept, Get;
    places := KeptExactly(t, session.incoming, 0, [], expected, []);
    RowsTell(t, lines, now);
  }

  /** What the call found out: the reply of the line that ended the reading, if it answers, and a timeout otherwise;
      nothing when an exception escapes. */
  lemma ResultSpelledOut(t: Tools, command: string, session: Session, now: nat -> string)
    ensures var result := Get(Logged(t, command, session, now), "result");
      var expected, incoming := t.answeredAs(command), session.incoming;
      && (Escapes(t, session, expected) <==> Raises(t, session, expected))
      && (Raises(t, session, expected) ==> result == Null)
      && (!Raises(t, session, expected) ==>
            && (forall k :: EndsAt(t, incoming, expected, k) && IsAnswer(t, incoming[k], expected) ==>
                  result == Obj(t.line(incoming[k]).value))
            && ((forall k :: EndsAt(t, incoming, expected, k) ==> !IsAnswer(t, incoming[k], expected)) ==>
                  && result.Obj? && result.fields.Keys == {"schema", "ok", "cmd", "code"}
                  && Get(result, "schema") == Int(1) && Get(result, "ok") == Bool(false)
                  && Get(result, "cmd") == Str(expected) && Get(result, "code") == Str("TIMEOUT_OR_INVALID_RAW")))
  {
    var expected, incoming := t.answeredAs(command), session.incoming;
    EscapesExactly(t, session, expected);
    ReplyExactly(t, incoming, 0, expected);
    assert Get(Logged(t, command, session, now), "result") == ResultOf(t, session, expected) by {
      hide Rows, Kept, ResultOf;
    }
    hide Escapes, Raises, Reply, IsAnswer, EndsAt, Logged;
    if k :| EndsAt(t, incoming, expected, k) {
      OnlyOneEnd(t, incoming, expected, k);
    }
  }

  lemma OnlyOneEnd(t: Tools, incoming: seq<Bytes>, expected: string, k: int)
    requires EndsAt(t, incoming, expected, k)
    ensures forall j :: EndsAt(t, incoming, expected, j) ==> j == k
  {
    hide IsLast;
  }

  /** A result that passes for a success is the reply of a line that came and said so. */
  lemma SuccessWasAnswered(t: Tools, command: string, session: Session, now: nat -> string, name: string) returns (k: nat)
    requires StateCapture.CommandOk(Get(Logged(t, command, session, now), "result"), name)
    ensures var expected, incoming := t.answeredAs(command), session.incoming;
      && !Raises(t, session, expected) && EndsAt(t, incoming, expected, k) && IsAnswer(t, incoming[k], expected)
      && StateCapture.CommandOk(Obj(t.line(incoming[k]).value), name)
  {
    ResultSpelledOut(t, command, session, now);
    hide Logged, Raises, IsLast, IsAnswer, Get, PyEq;
    k :| EndsAt(t, session.incoming, t.answeredAs(command), k)
      && IsAnswer(t, session.incoming[k], t.answeredAs(command));
  }

  // ----- the recomputation

  /** A kept row is intact: it decodes to the bytes it describes, and they are not too many. */
  predicate Intact(t: Tools, row: Json) {
    && Get(row, "base64").Str? && Decode(Get(row, "base64").s).Some?
    && var raw := Decode(Get(row, "base64").s).value;
    && |raw| <= 131072 && Get(row, "size") == Int(|raw|) && Get(row, "sha256") == Str(t.digest(raw))
    && Get(row, "observed_at").Str?
  }

  /** The row holds a reply to the command. */
  predicate Holds(t: Tools, row: Json, expected: Json) {
    && Get(row, "base64").Str? && Decode(Get(row, "base64").s).Some?
    && var raw := Decode(Get(row, "base64").s).value;
    && |raw| <= 131072 && t.line(raw).Some? && PyEq(Get(Obj(t.line(raw).value), "cmd"), expected)
  }

  /** The reply it holds. */
  function Held(t: Tools, row: Json, expected: Json): Json
    requires Holds(t, row, expected)
  {
    Obj(t.line(Decode(Get(row, "base64").s).value).value)
  }

  lemma RowIntact(t: Tools, row: Json)
    ensures RowErrors(t, row) == 0 <==> Intact(t, row)
  {
    hide Decode;
  }

  lemma RowHolds(t: Tools, row: Json, expected: Json)
    ensures RowAnswer(t, row, expected) == if Holds(t, row, expected) then [Held(t, row, expected)] else []
  {
    hide Decode, PyEq;
  }

  lemma {:induction false} RowsIntact(t: Tools, rows: seq<Json>)
    ensures Errors(t, rows) == 0 <==> forall i :: 0 <= i < |rows| ==> Intact(t, rows[i])
  {
    if rows != [] {
      var n := |rows| - 1;
      RowsIntact(t, rows[..n]);
      RowIntact(t, rows[n]);
      hide Intact, RowErrors;
    }
  }

  lemma {:induction false} NoAnswers(t: Tools, rows: seq<Json>, expected: Json)
    ensures Answers(t, rows, expected) == [] <==> forall j :: 0 <= j < |rows| ==> !Holds(t, rows[j], expected)
  {
    if rows != [] {
      var n := |rows| - 1;
      NoAnswers(t, rows[..n], expected);
      RowHolds(t, rows[n], expected);
      hide Holds, RowAnswer;
    }
  }

  /** Row `i` holds a reply and no other row does. */
  predicate HoldsAlone(t: Tools, rows: seq<Json>, expected: Json, i: int) {
    && 0 <= i < |rows| && Holds(t, rows[i], expected)
    && forall j :: 0 <= j < |rows| && j != i ==> !Holds(t, rows[j], expected)
  }

  lemma {:induction false} AloneAnswers(t: Tools, rows: seq<Json>, expected: Json, i: nat)
    requires HoldsAlone(t, rows, expected, i)
    ensures Answers(t, rows, expected) == [Held(t, rows[i], expected)]
  {
    var n := |rows| - 1;
    var init := rows[..n];
    RowHolds(t, rows[n], expected);
    hide Holds, Held, RowAnswer, Answers;
    assert forall j :: 0 <= j < n ==> init[j] == rows[j];
    if i == n {
      NoAnswers(t, init, expected);
    } else {
      assert HoldsAlone(t, init, expected, i);
      AloneAnswers(t, init, expected, i);
    }
    AnswersSplit(t, rows, expected);
  }

  lemma AnswersSplit(t: Tools, rows: seq<Json>, expected: Json)
    requires rows != []
    ensures Answers(t, rows, expected) ==
      Answers(t, rows[..|rows| - 1], expected) + RowAnswer(t, rows[|rows| - 1], expected)
  {
  }

  lemma {:induction false} FindAlone(t: Tools, rows: seq<Json>, expected: Json) returns (i: nat)
    requires |Answers(t, rows, expected)| == 1
    ensures HoldsAlone(t, rows, expected, i)
  {
    var n := |rows| - 1;
    var init := rows[..n];
    AnswersSplit(t, rows, expected);
    RowHolds(t, rows[n], expected);
    hide Holds, Held, RowAnswer, Answers;
    assert forall j :: 0 <= j < n ==> init[j] == rows[j];
    if Holds(t, rows[n], expected) {
      NoAnswers(t, init, expected);
      i := n;
      assert forall j :: 0 <= j < |rows| && j != n ==> !Holds(t, rows[j], expected) by {
        assert Answers(t, init, expected) == [];
      }
    } else {
      i := FindAlone(t, init, expected);
      AloneExtends(t, rows, expected, i);
    }
  }

  lemma AloneExtends(t: Tools, rows: seq<Json>, expected: Json, i: nat)
    requires rows != [] && HoldsAlone(t, rows[..|rows| - 1], expected, i) && !Holds(t, rows[|rows| - 1], expected)
    ensures HoldsAlone(t, rows, expected, i)
  {
    hide Holds;
    var init := rows[..|rows| - 1];
    assert forall j :: 0 <= j < |init| ==> init[j] == rows[j];
  }

  /** A receipt recomputes without an error exactly when it names its command, its rows are intact, one row alone
      holds a reply, and the receipt's result is that reply; with or without errors it recomputes to that reply. */
  lemma RecomputedExactly(t: Tools, row: Json)
    ensures var command, expected, lines := Get(row, "command"), Get(row, "expected_cmd"), Get(row, "raw_lines");
      Recompute(t, row).errors == 0 <==>
        && command.Str? && command.s != "" && PyEq(expected, Str(t.answeredAs(command.s))) && lines.Arr?
        && (forall k :: 0 <= k < |lines.items| ==> Intact(t, lines.items[k]))
        && exists i :: HoldsAlone(t, lines.items, expected, i)
                       && PyEq(Get(row, "result"), Held(t, lines.items[i], expected))
    ensures var command, expected, lines := Get(row, "command"), Get(row, "expected_cmd"), Get(row, "raw_lines");
      forall reply :: Recompute(t, row).result == Some(reply) <==>
        && command.Str? && command.s != "" && lines.Arr?
        && exists i :: HoldsAlone(t, lines.items, expected, i) && reply == Held(t, lines.items[i], expected)
  {
    var command, expected, lines := Get(row, "command"), Get(row, "expected_cmd"), Get(row, "raw_lines");
    if lines.Arr? {
      RowsIntact(t, lines.items);
      if |Answers(t, lines.items, expected)| == 1 {
        var i := FindAlone(t, lines.items, expected);
        AloneAnswers(t, lines.items, expected, i);
      }
      forall i | HoldsAlone(t, lines.items, expected, i)
        ensures Answers(t, lines.items, expected) == [Held(t, lines.items[i], expected)]
      {
        AloneAnswers(t, lines.items, expected, i);
      }
    }
    hide Intact, Errors, Answers, PyEq, Get, Holds, Held;
  }
}
