/** `state_preserved`: nothing retained is lost between two captures of one device. */
module StatePreservation {
  import opened JsonModel
  import opened RowPreservation

  const MESSAGE_KEYS := ["public_messages", "direct_messages"]
  const COUNTERS := ["total_written", "dropped_oldest", "content_revision"]

  /** `projection.get("entries", [])` */
  function Entries(projection: Json): seq<Json> {
    if Get(projection, "entries").Arr? then Get(projection, "entries").items else []
  }

  predicate MessagesKept(text: Json -> string, before: Json, after: Json) {
    && before.Obj? && after.Obj? && RowsKept(text, Entries(before), Entries(after))
    && AllNotRegressed(before, after, COUNTERS)
  }

  predicate Preserved(text: Json -> string, baseline: Json, observed: Json) {
    && PyEq(Get(baseline, "settings"), Get(observed, "settings"))
    && PyEq(Get(baseline, "read_state"), Get(observed, "read_state"))
    && (forall i :: 0 <= i < |MESSAGE_KEYS| ==>
          MessagesKept(text, Get(baseline, MESSAGE_KEYS[i]), Get(observed, MESSAGE_KEYS[i])))
    && Get(baseline, "contacts").Obj? && Get(observed, "contacts").Obj?
    && RowsKept(text, Entries(Get(baseline, "contacts")), Entries(Get(observed, "contacts")))
  }

  /** The checks, in order; `errors` is the number of messages collected. */
  method StatePreserved(text: Json -> string, baseline: Json, observed: Json) returns (ok: bool, errors: nat)
    ensures ok <==> Preserved(text, baseline, observed)
    ensures ok <==> errors == 0
  {
    hide Get, PyEq, RowsKept, NotRegressed;
    errors := 0;
    if !PyEq(Get(baseline, "settings"), Get(observed, "settings")) { errors := errors + 1; }
    if !PyEq(Get(baseline, "read_state"), Get(observed, "read_state")) { errors := errors + 1; }
    ghost var sofar := errors;
    for i := 0 to |MESSAGE_KEYS|
      invariant errors >= sofar
      invariant errors == sofar <==> forall k :: 0 <= k < i ==>
        MessagesKept(text, Get(baseline, MESSAGE_KEYS[k]), Get(observed, MESSAGE_KEYS[k]))
    {
      var more := MessageErrors(text, Get(baseline, MESSAGE_KEYS[i]), Get(observed, MESSAGE_KEYS[i]));
      errors := errors + more;
    }
    var before, after := Get(baseline, "contacts"), Get(observed, "contacts");
    if !before.Obj? || !after.Obj? {
      errors := errors + 1;
    } else {
      var kept := RowsAreKept(text, Entries(before), Entries(after));
      if !kept { errors := errors + 1; }
    }
    ok := errors == 0;
  }

  method MessageErrors(text: Json -> string, before: Json, after: Json) returns (errors: nat)
    ensures errors == 0 <==> MessagesKept(text, before, after)
  {
    hide Get, RowsKept, NotRegressed;
    if !before.Obj? || !after.Obj? {
      return 1;
    }
    var kept := RowsAreKept(text, Entries(before), Entries(after));
    errors := if kept then 0 else 1;
    for i := 0 to |COUNTERS|
      invariant errors == 0 <==>
        && RowsKept(text, Entries(before), Entries(after))
        && forall k :: 0 <= k < i ==> NotRegressed(Get(before, COUNTERS[k]), Get(after, COUNTERS[k]))
    {
      if !NotRegressed(Get(before, COUNTERS[i]), Get(after, COUNTERS[i])) {
        errors := errors + 1;
      }
    }
  }

  // ----- a preorder

  lemma MessagesKeptTransitive(text: Json -> string, a: Json, b: Json, c: Json)
    requires MessagesKept(text, a, b) && MessagesKept(text, b, c)
    ensures MessagesKept(text, a, c)
  {
    hide TextsOf, Entries, AllNotRegressed;
    NotRegressedTransitive(a, b, c, COUNTERS);
  }

  /** The check of a cycle against its baseline follows from baseline to pre and pre to post. */
  lemma PreservedTransitive(text: Json -> string, a: Json, b: Json, c: Json)
    requires Preserved(text, a, b) && Preserved(text, b, c)
    ensures Preserved(text, a, c)
  {
    hide TextsOf, Entries, MessagesKept, Get;
    forall i | 0 <= i < |MESSAGE_KEYS|
      ensures MessagesKept(text, Get(a, MESSAGE_KEYS[i]), Get(c, MESSAGE_KEYS[i]))
    {
      MessagesKeptTransitive(text, Get(a, MESSAGE_KEYS[i]), Get(b, MESSAGE_KEYS[i]), Get(c, MESSAGE_KEYS[i]));
    }
  }

  /** The projections that are preserved by doing nothing. */
  predicate Comparable(state: Json) {
    && Get(state, "contacts").Obj?
    && forall i :: 0 <= i < |MESSAGE_KEYS| ==>
         && Get(state, MESSAGE_KEYS[i]).Obj?
         && forall k :: 0 <= k < |COUNTERS| ==> Get(Get(state, MESSAGE_KEYS[i]), COUNTERS[k]).Int?
  }

  lemma PreservedByNothing(text: Json -> string, a: Json)
    ensures Preserved(text, a, a) <==> Comparable(a)
  {
    hide Get, TextsOf, Entries, AllNotRegressed;
    forall i | 0 <= i < |MESSAGE_KEYS|
      ensures AllNotRegressed(Get(a, MESSAGE_KEYS[i]), Get(a, MESSAGE_KEYS[i]), COUNTERS) <==>
        forall k :: 0 <= k < |COUNTERS| ==> Get(Get(a, MESSAGE_KEYS[i]), COUNTERS[k]).Int?
    {
      NotRegressedItself(Get(a, MESSAGE_KEYS[i]), COUNTERS);
    }
    if Preserved(text, a, a) {
      assert forall i :: 0 <= i < |MESSAGE_KEYS| ==> MessagesKept(text, Get(a, MESSAGE_KEYS[i]), Get(a, MESSAGE_KEYS[i]));
    }
  }

  /** Checking each capture against the one before covers the whole history. */
  lemma PreservedAlongHistory(text: Json -> string, states: seq<Json>)
    requires |states| >= 2 && forall i :: 0 <= i < |states| - 1 ==> Preserved(text, states[i], states[i + 1])
    ensures Preserved(text, states[0], states[|states| - 1])
  {
    hide Preserved;
    var preserved := (x, y) => Preserved(text, x, y);
    forall x, y, z | preserved(x, y) && preserved(y, z) ensures preserved(x, z) {
      PreservedTransitive(text, x, y, z);
    }
    EndToEnd(preserved, states);
  }
}
