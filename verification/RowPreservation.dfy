/** What the two comparisons of retained state share: numbered rows, rows that may only be added, counters that may
    only grow, and chains of comparisons. */
module RowPreservation {
  import opened JsonModel
  import Sorting

  /** The sequence number of a row, if it has one. */
  function Seq(row: Json): int {
    if Get(row, "seq").Int? then Get(row, "seq").n else 0
  }

  ghost predicate DistinctSeqs(rows: seq<Json>) {
    Sorting.Distinct(Seq, rows)
  }

  /** The canonical texts of rows. */
  function TextsOf(text: Json -> string, rows: seq<Json>): set<string> {
    set e | e in rows :: text(e)
  }

  /** Every row before has a row after with the same text. */
  predicate RowsKept(text: Json -> string, before: seq<Json>, after: seq<Json>) {
    TextsOf(text, before) <= TextsOf(text, after)
  }

  predicate NotRegressed(before: Json, after: Json) {
    before.Int? && after.Int? && before.n <= after.n
  }

  predicate AllNotRegressed(before: Json, after: Json, fields: seq<string>) {
    forall i :: 0 <= i < |fields| ==> NotRegressed(Get(before, fields[i]), Get(after, fields[i]))
  }

  method Texts(text: Json -> string, rows: seq<Json>) returns (texts: set<string>)
    ensures texts == TextsOf(text, rows)
  {
    texts := {};
    for i := 0 to |rows|
      invariant forall s :: s in texts ==> s in TextsOf(text, rows)
      invariant forall j :: 0 <= j < i ==> text(rows[j]) in texts
    {
      assert rows[i] in rows;
      texts := texts + {text(rows[i])};
    }
  }

  /** The two set comprehensions and their subset test. */
  method RowsAreKept(text: Json -> string, before: seq<Json>, after: seq<Json>) returns (ok: bool)
    ensures ok <==> RowsKept(text, before, after)
  {
    var earlier := Texts(text, before);
    var later := Texts(text, after);
    ok := earlier <= later;
  }

  lemma RowsKeptExactly(text: Json -> string, before: seq<Json>, after: seq<Json>)
    ensures RowsKept(text, before, after) <==> forall x :: x in before ==> exists y :: y in after && text(x) == text(y)
  {
    if RowsKept(text, before, after) {
      forall x | x in before ensures exists y :: y in after && text(x) == text(y) {
        assert text(x) in TextsOf(text, before);
        var y :| y in after && text(y) == text(x);
      }
    }
  }

  lemma NotRegressedTransitive(a: Json, b: Json, c: Json, fields: seq<string>)
    requires AllNotRegressed(a, b, fields) && AllNotRegressed(b, c, fields)
    ensures AllNotRegressed(a, c, fields)
  {
    hide Get;
    forall i | 0 <= i < |fields| ensures NotRegressed(Get(a, fields[i]), Get(c, fields[i])) {
      assert NotRegressed(Get(a, fields[i]), Get(b, fields[i])) && NotRegressed(Get(b, fields[i]), Get(c, fields[i]));
    }
  }

  /** Nothing regresses against itself exactly when all fields are integers. */
  lemma NotRegressedItself(a: Json, fields: seq<string>)
    ensures AllNotRegressed(a, a, fields) <==> forall i :: 0 <= i < |fields| ==> Get(a, fields[i]).Int?
  {
    hide Get;
    if AllNotRegressed(a, a, fields) {
      assert forall i :: 0 <= i < |fields| ==> NotRegressed(Get(a, fields[i]), Get(a, fields[i]));
    }
  }

  ghost predicate Transitive<T(!new)>(preserved: (T, T) -> bool) {
    forall x, y, z :: preserved(x, y) && preserved(y, z) ==> preserved(x, z)
  }

  /** Checking each state against the one before checks the last against the first. */
  lemma {:induction false} EndToEnd<T(!new)>(preserved: (T, T) -> bool, states: seq<T>)
    requires Transitive(preserved)
    requires |states| >= 2 && forall i :: 0 <= i < |states| - 1 ==> preserved(states[i], states[i + 1])
    ensures preserved(states[0], states[|states| - 1])
  {
    if |states| == 2 {
      assert preserved(states[0], states[0 + 1]);
    } else {
      var n := |states| - 1;
      forall i | 0 <= i < n - 1 ensures preserved(states[..n][i], states[..n][i + 1]) {
        assert preserved(states[i], states[i + 1]);
      }
      EndToEnd(preserved, states[..n]);
      assert preserved(states[n - 1], states[n - 1 + 1]);
    }
  }
}
