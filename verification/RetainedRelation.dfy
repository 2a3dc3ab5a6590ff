/** `retained_state_preserved`: what a reflash may change of the retained state. */
module RetainedRelation {
  import opened Results
  import opened JsonModel
  import opened Ordering
  import C = ContactRetention
  import Channels = RetainedChannels
  import Store = RetainedStore
  import opened RetainedState
  import opened RowPreservation

  const SAME_FIELDS := ["settings", "channels", "identity_public_key", "direct_messages_state"]
  const PUBLIC_COUNTED := [
    "count", "retained_store_count", "retained_public_count", "total_written", "dropped_oldest", "content_revision"]

  predicate AllSame(before: Json, after: Json, fields: seq<string>) {
    forall i :: 0 <= i < |fields| ==> PyEq(Get(before, fields[i]), Get(after, fields[i]))
  }

  predicate ChannelsKept(state: Json, state': Json, cursors: Json, cursors': Json) {
    && state.Obj? && state'.Obj? && AllSame(state, state', ["capacity", "active_channel_id"])
    && NotRegressed(Get(state, "revision"), Get(state', "revision"))
    && cursors.Obj? && cursors'.Obj? && cursors.fields.Keys == cursors'.fields.Keys
    && forall id :: id in cursors.fields ==> ChannelCursorKept(cursors.fields[id], Get(cursors', id))
  }

  predicate ChannelCursorKept(before: Json, after: Json) {
    before.Obj? && after.Obj? && AllNotRegressed(before, after, Channels.CURSOR_FIELDS)
  }

  predicate PublicStateKept(before: Json, after: Json) {
    && before.Obj? && after.Obj? && AllSame(before, after, ["capacity", "retained_epoch"])
    && AllNotRegressed(before, after, PUBLIC_COUNTED)
  }

  /** `state.get(field, [])` */
  function Items(v: Json): seq<Json> {
    if v.Arr? then v.items else []
  }

  predicate ReadStateKept(before: Json, after: Json) {
    var cursors, cursors' := Get(before, "persisted_dm_cursors"), Get(after, "persisted_dm_cursors");
    && before.Obj? && after.Obj? && AllSame(before, after, ["cursor_capacity"]) && AllNotRegressed(before, after, READ_FIELDS)
    && cursors.Obj? && cursors'.Obj?
    && forall f :: f in cursors.fields ==> NotRegressed(cursors.fields[f], Get(cursors', f))
  }

  predicate ContactsStateKept(before: Json, after: Json) {
    && before.Obj? && after.Obj? && AllSame(before, after, ["capacity"])
    && Store.AtLeast(Get(before, "persistence_failures"), 0) && Store.AtLeast(Get(after, "persistence_failures"), 0)
    && AllNotRegressed(before, after, CONTACT_COUNTERS)
  }

  /** A contact keeps its user state; a placeholder may gain a key, and a key is never lost or replaced. */
  predicate ContactKept(before: C.Contact, after: C.Contact) {
    && before.fingerprint == after.fingerprint && before.alias == after.alias && before.favorite == after.favorite
    && before.muted == after.muted && before.createdMs == after.createdMs
    && (before.publicKey == "" || after.publicKey == before.publicKey)
  }

  predicate ContactsKept(before: map<string, C.Contact>, after: map<string, C.Contact>) {
    forall f :: f in before ==> f in after && ContactKept(before[f], after[f])
  }

  predicate Preserved(t: Tools, a: Json, b: Json) {
    && AllSame(a, b, SAME_FIELDS)
    && ChannelsKept(Get(a, "channel_state"), Get(b, "channel_state"), Get(a, "channel_cursors"), Get(b, "channel_cursors"))
    && PublicStateKept(Get(a, "public_messages_state"), Get(b, "public_messages_state"))
    && RowsKept(t.text, Items(Get(a, "public_messages")), Items(Get(b, "public_messages")))
    && RowsKept(t.text, Items(Get(a, "direct_messages")), Items(Get(b, "direct_messages")))
    && ReadStateKept(Get(a, "read_state"), Get(b, "read_state"))
    && ContactsStateKept(Get(a, "contacts_state"), Get(b, "contacts_state"))
    && var x, y := C.Projection(t, Get(a, "contacts")), C.Projection(t, Get(b, "contacts"));
    && x.Some? && y.Some? && ContactsKept(x.value, y.value)
  }

  // ----- the comparison

  /** The loop over the contacts before. */
  method ContactsAreKept(before: map<string, C.Contact>, after: map<string, C.Contact>) returns (ok: bool)
    ensures ok <==> ContactsKept(before, after)
  {
    var left := before.Keys;
    while left != {}
      invariant left <= before.Keys
      invariant forall f :: f in before.Keys - left ==> f in after && ContactKept(before[f], after[f])
      decreases |left|
    {
      var f :| f in left;
      if f !in after {
        return false;
      }
      var earlier, later := before[f], after[f];
      if earlier.fingerprint != later.fingerprint || earlier.alias != later.alias || earlier.favorite != later.favorite
         || earlier.muted != later.muted || earlier.createdMs != later.createdMs {
        return false;
      }
      if earlier.publicKey != "" && later.publicKey != earlier.publicKey {
        return false;
      }
      left := left - {f};
    }
    ok := true;
  }

  method RetainedStatePreserved(t: Tools, a: Json, b: Json) returns (ok: bool)
    ensures ok <==> Preserved(t, a, b)
  {
    hide Get, AllSame, ChannelsKept, PublicStateKept, RowsKept, ReadStateKept, ContactsStateKept, ContactsKept,
      C.Projection;
    if !AllSame(a, b, SAME_FIELDS) {
      return false;
    }
    if !ChannelsKept(
      Get(a, "channel_state"), Get(b, "channel_state"), Get(a, "channel_cursors"), Get(b, "channel_cursors")) {
      return false;
    }
    if !PublicStateKept(Get(a, "public_messages_state"), Get(b, "public_messages_state")) {
      return false;
    }
    var publicKept := RowsAreKept(t.text, Items(Get(a, "public_messages")), Items(Get(b, "public_messages")));
    if !publicKept {
      return false;
    }
    var directKept := RowsAreKept(t.text, Items(Get(a, "direct_messages")), Items(Get(b, "direct_messages")));
    if !directKept {
      return false;
    }
    if !ReadStateKept(Get(a, "read_state"), Get(b, "read_state")) {
      return false;
    }
    var x := C.ContactRetentionProjection(t, Get(a, "contacts"));
    var y := C.ContactRetentionProjection(t, Get(b, "contacts"));
    if x.None? || y.None? || !ContactsStateKept(Get(a, "contacts_state"), Get(b, "contacts_state")) {
      return false;
    }
    ok := ContactsAreKept(x.value, y.value);
  }

  // ----- transitive on all snapshots

  lemma SameTransitive(a: Json, b: Json, c: Json, fields: seq<string>)
    requires AllSame(a, b, fields) && AllSame(b, c, fields)
    ensures AllSame(a, c, fields)
  {
    hide Get;
    forall i | 0 <= i < |fields| ensures PyEq(Get(a, fields[i]), Get(c, fields[i])) {
      assert PyEq(Get(a, fields[i]), Get(b, fields[i])) && PyEq(Get(b, fields[i]), Get(c, fields[i]));
    }
  }

  lemma ChannelsTransitive(s: Json, s': Json, s'': Json, k: Json, k': Json, k'': Json)
    requires ChannelsKept(s, s', k, k') && ChannelsKept(s', s'', k', k'')
    ensures ChannelsKept(s, s'', k, k'')
  {
    hide AllSame, AllNotRegressed;
    SameTransitive(s, s', s'', ["capacity", "active_channel_id"]);
    forall id | id in k.fields ensures ChannelCursorKept(k.fields[id], Get(k'', id)) {
      assert id in k'.fields;
      NotRegressedTransitive(k.fields[id], k'.fields[id], k''.fields[id], Channels.CURSOR_FIELDS);
    }
  }

  lemma ReadStateTransitive(a: Json, b: Json, c: Json)
    requires ReadStateKept(a, b) && ReadStateKept(b, c)
    ensures ReadStateKept(a, c)
  {
    hide AllSame, AllNotRegressed;
    SameTransitive(a, b, c, ["cursor_capacity"]);
    NotRegressedTransitive(a, b, c, READ_FIELDS);
    var x, y, z := Get(a, "persisted_dm_cursors"), Get(b, "persisted_dm_cursors"), Get(c, "persisted_dm_cursors");
    forall f | f in x.fields ensures NotRegressed(x.fields[f], Get(z, f)) {
      assert f in y.fields;
    }
  }

  /** Placeholders that gain a key once keep it from then on. */
  lemma ContactsTransitive(a: map<string, C.Contact>, b: map<string, C.Contact>, c: map<string, C.Contact>)
    requires ContactsKept(a, b) && ContactsKept(b, c)
    ensures ContactsKept(a, c)
  {
    forall f | f in a ensures f in c && ContactKept(a[f], c[f]) {
      assert f in b && ContactKept(a[f], b[f]) && ContactKept(b[f], c[f]);
    }
  }

  /** Preservation over two reflashes is preservation from the first state to the last. */
  lemma PreservedTransitive(t: Tools, a: Json, b: Json, c: Json)
    requires Preserved(t, a, b) && Preserved(t, b, c)
    ensures Preserved(t, a, c)
  {
    hide Get, AllSame, AllNotRegressed, ChannelsKept, ReadStateKept, ContactsKept, C.Projection, TextsOf, Items;
    SameTransitive(a, b, c, SAME_FIELDS);
    ChannelsTransitive(
      Get(a, "channel_state"), Get(b, "channel_state"), Get(c, "channel_state"),
      Get(a, "channel_cursors"), Get(b, "channel_cursors"), Get(c, "channel_cursors"));
    PublicStateTransitive(Get(a, "public_messages_state"), Get(b, "public_messages_state"), Get(c, "public_messages_state"));
    ReadStateTransitive(Get(a, "read_state"), Get(b, "read_state"), Get(c, "read_state"));
    ContactsStateTransitive(Get(a, "contacts_state"), Get(b, "contacts_state"), Get(c, "contacts_state"));
    ContactsTransitive(
      C.Projection(t, Get(a, "contacts")).value, C.Projection(t, Get(b, "contacts")).value,
      C.Projection(t, Get(c, "contacts")).value);
    hide PublicStateKept, ContactsStateKept;
  }

  lemma PublicStateTransitive(a: Json, b: Json, c: Json)
    requires PublicStateKept(a, b) && PublicStateKept(b, c)
    ensures PublicStateKept(a, c)
  {
    hide AllSame, AllNotRegressed;
    SameTransitive(a, b, c, ["capacity", "retained_epoch"]);
    NotRegressedTransitive(a, b, c, PUBLIC_COUNTED);
  }

  lemma ContactsStateTransitive(a: Json, b: Json, c: Json)
    requires ContactsStateKept(a, b) && ContactsStateKept(b, c)
    ensures ContactsStateKept(a, c)
  {
    hide AllSame, AllNotRegressed, Get;
    SameTransitive(a, b, c, ["capacity"]);
    NotRegressedTransitive(a, b, c, CONTACT_COUNTERS);
  }

  /** Any number of reflashes, each checked against the one before, is checked end to end. */
  lemma PreservedAlongReflashes(t: Tools, states: seq<Json>)
    requires |states| >= 2 && forall i :: 0 <= i < |states| - 1 ==> Preserved(t, states[i], states[i + 1])
    ensures Preserved(t, states[0], states[|states| - 1])
  {
    hide Preserved;
    var preserved := (x, y) => Preserved(t, x, y);
    forall x, y, z | preserved(x, y) && preserved(y, z) ensures preserved(x, z) {
      PreservedTransitive(t, x, y, z);
    }
    EndToEnd(preserved, states);
  }

  // ----- reflexive on what the projection returns

  lemma SameAsItself(a: Json, fields: seq<string>)
    ensures AllSame(a, a, fields)
  {
  }

  lemma PublicStateItself(state: Json)
    requires AllInts(state, PUBLIC_COUNTERS)
    ensures PublicStateKept(state, state) <==> Get(state, "retained_public_count").Int?
  {
    hide AllSame, AllNotRegressed, Get;
    SameAsItself(state, ["capacity", "retained_epoch"]);
    NotRegressedItself(state, PUBLIC_COUNTED);
    assert forall i :: 0 <= i < |PUBLIC_COUNTERS| ==> Get(state, PUBLIC_COUNTERS[i]).Int?;
    assert PUBLIC_COUNTED == [
      PUBLIC_COUNTERS[0], PUBLIC_COUNTERS[1], "retained_public_count", PUBLIC_COUNTERS[2], PUBLIC_COUNTERS[3],
      PUBLIC_COUNTERS[4]];
    assert PUBLIC_COUNTED[2] == "retained_public_count";
  }

  /** A projected state is preserved by a reflash that changes nothing exactly when the count of
      retained Public rows is an integer; the projection itself only compares it with `!=`. */
  lemma ReflexiveExactly(t: Tools, s: Json)
    requires Valid(t, s)
    ensures Preserved(t, s, s) <==> Get(Get(s, "public_messages_state"), "retained_public_count").Int?
  {
    hide AllSame, AllNotRegressed, Get, C.Projection, StoreValid, AllInts, PyEq;
    SameAsItself(s, SAME_FIELDS);
    PublicStateItself(Get(s, "public_messages_state"));
    ChannelsItself(Get(s, "channel_state"), Get(s, "channel_cursors"));
    ReadStateItself(Get(s, "read_state"));
    ContactsStateItself(t, Get(s, "contacts"), Get(s, "contacts_state"));
    hide PublicStateKept, ChannelsKept, ReadStateKept, ContactsStateKept, ContactsValid, ReadStateValid;
  }

  lemma ChannelsItself(state: Json, cursors: Json)
    requires Channels.Comparable(state, cursors)
    ensures ChannelsKept(state, state, cursors, cursors)
  {
    hide AllSame, AllNotRegressed;
    SameAsItself(state, ["capacity", "active_channel_id"]);
    forall id | id in cursors.fields ensures ChannelCursorKept(cursors.fields[id], Get(cursors, id)) {
      assert Channels.CursorValid(cursors.fields[id]);
      NotRegressedItself(cursors.fields[id], Channels.CURSOR_FIELDS);
    }
  }

  lemma ReadStateItself(state: Json)
    requires ReadStateValid(state)
    ensures ReadStateKept(state, state)
  {
    hide AllSame, AllNotRegressed;
    SameAsItself(state, ["cursor_capacity"]);
    NotRegressedItself(state, READ_FIELDS);
  }

  lemma ContactsStateItself(t: Tools, rows: Json, state: Json)
    requires ContactsValid(t, rows, state)
    ensures ContactsStateKept(state, state)
  {
    hide AllSame, AllNotRegressed, Get, C.Projection;
    SameAsItself(state, ["capacity"]);
    NotRegressedItself(state, CONTACT_COUNTERS);
  }

  // ----- what the cardinalities force

  /** The canonical text tells these rows apart. */
  ghost predicate TextsApart(t: Tools, rows: seq<Json>) {
    forall x, y :: x in rows && y in rows && t.text(x) == t.text(y) ==> x == y
  }

  function TextList(t: Tools, rows: seq<Json>): seq<string> {
    seq(|rows|, i requires 0 <= i < |rows| => t.text(rows[i]))
  }

  lemma TextsListed(t: Tools, rows: seq<Json>)
    requires TextsApart(t, rows) && Store.SortedByText(t, rows) && DistinctSeqs(rows)
    ensures Lists(TextList(t, rows), TextsOf(t.text, rows))
  {
    hide Less, Seq;
    var q := TextList(t, rows);
    forall i, j | 0 <= i < j < |q| ensures Less(q[i], q[j]) {
      LessTrichotomy(t.text(rows[i]), t.text(rows[j]));
      assert Seq(rows[i]) != Seq(rows[j]);
      assert t.text(rows[i]) != t.text(rows[j]);
    }
    forall k ensures k in q <==> k in TextsOf(t.text, rows) {
      if k in q {
        var i :| 0 <= i < |q| && q[i] == k;
        assert rows[i] in rows;
      }
      if k in TextsOf(t.text, rows) {
        var e :| e in rows && t.text(e) == k;
        var i :| 0 <= i < |rows| && rows[i] == e;
        assert q[i] == k;
      }
    }
  }

  lemma {:induction false} ListSize(q: seq<string>, s: set<string>)
    requires Lists(q, s)
    ensures |q| == |s|
  {
    ListingUnique(q, SortedSeq(s), s);
  }

  lemma SubsetOfSameSize<T>(a: set<T>, b: set<T>)
    requires a <= b && |a| >= |b|
    ensures a == b
  {
    assert |b - a| == |b| - |a|;
  }

  /** Sorted rows with distinct sequence numbers that lose nothing and do not grow are the same rows. */
  lemma KeptAndNotGrownIsSame(t: Tools, a: seq<Json>, b: seq<Json>)
    requires TextsApart(t, a + b) && Store.SortedByText(t, a) && DistinctSeqs(a)
    requires Store.SortedByText(t, b) && DistinctSeqs(b)
    requires TextsOf(t.text, a) <= TextsOf(t.text, b) && |a| >= |b|
    ensures a == b
  {
    assert forall x :: x in a || x in b ==> x in a + b;
    TextsListed(t, a);
    TextsListed(t, b);
    ListSize(TextList(t, a), TextsOf(t.text, a));
    ListSize(TextList(t, b), TextsOf(t.text, b));
    SubsetOfSameSize(TextsOf(t.text, a), TextsOf(t.text, b));
    ListingUnique(TextList(t, a), TextList(t, b), TextsOf(t.text, a));
    forall i | 0 <= i < |a| ensures a[i] == b[i] {
      assert TextList(t, a)[i] == TextList(t, b)[i];
    }
    hide TextsOf, Lists, Store.SortedByText, DistinctSeqs;
  }

  lemma PyEqField(x: Json, y: Json, k: string)
    requires PyEq(x, y) && x.Obj? && y.Obj?
    ensures PyEq(Get(x, k), Get(y, k))
  {
    var cx, cy := Canonical(x), Canonical(y);
    assert cx.fields.Keys == x.fields.Keys && cy.fields.Keys == y.fields.Keys;
    if k in x.fields {
      assert cx.fields[k] == Canonical(x.fields[k]) && cy.fields[k] == Canonical(y.fields[k]);
    }
  }

  /** A preserved direct-message store is the same list. */
  lemma DirectMessagesIdentical(t: Tools, a: Json, b: Json)
    requires Valid(t, a) && Valid(t, b) && Preserved(t, a, b)
    requires TextsApart(t, Items(Get(a, "direct_messages")) + Items(Get(b, "direct_messages")))
    ensures Get(a, "direct_messages") == Get(b, "direct_messages")
  {
    hide Get, ChannelsKept, PublicStateKept, ReadStateKept, ContactsStateKept, ContactsKept, C.Projection, ContactsValid,
      ReadStateValid, AllInts, TextsApart, TextsOf, PyEq;
    var x, y := Get(a, "direct_messages_state"), Get(b, "direct_messages_state");
    assert SAME_FIELDS[3] == "direct_messages_state";
    assert PyEq(x, y);
    PyEqField(x, y, "count");
    SameInt(Get(x, "count"), Get(y, "count"));
    KeptAndNotGrownIsSame(t, Get(a, "direct_messages").items, Get(b, "direct_messages").items);
  }

  lemma SameInt(a: Json, b: Json)
    requires PyEq(a, b) && a.Int? && b.Int?
    ensures a == b
  {
  }

  /** A preserved Public store that was full is the same list. */
  lemma FullPublicStoreIdentical(t: Tools, a: Json, b: Json)
    requires Valid(t, a) && Valid(t, b) && Preserved(t, a, b)
    requires TextsApart(t, Items(Get(a, "public_messages")) + Items(Get(b, "public_messages")))
    requires Get(Get(a, "public_messages_state"), "count") == Get(Get(a, "public_messages_state"), "capacity")
    ensures Get(a, "public_messages") == Get(b, "public_messages")
  {
    hide Get, ChannelsKept, PublicStateKept, ReadStateKept, ContactsStateKept, ContactsKept, C.Projection, ContactsValid,
      ReadStateValid, AllInts, TextsApart, TextsOf, PyEq;
    KeptAndNotGrownIsSame(t, Get(a, "public_messages").items, Get(b, "public_messages").items);
  }

  /** A preserved contact store that was full has the same fingerprints. */
  lemma FullContactStoreSameFingerprints(t: Tools, a: Json, b: Json)
    requires Valid(t, a) && Valid(t, b) && Preserved(t, a, b)
    requires PyEq(Get(Get(a, "contacts_state"), "count"), Get(Get(a, "contacts_state"), "capacity"))
    ensures C.Projection(t, Get(a, "contacts")).value.Keys == C.Projection(t, Get(b, "contacts")).value.Keys
  {
    hide Get, ChannelsKept, PublicStateKept, ReadStateKept, ContactsStateKept, StoreValid, ReadStateValid, AllInts, RowsKept,
      AllSame, ContactKept;
    var rows, rows' := Get(a, "contacts").items, Get(b, "contacts").items;
    C.OneContactPerRow(t, rows, |rows|);
    C.OneContactPerRow(t, rows', |rows'|);
    var x, y := C.Projection(t, Get(a, "contacts")).value, C.Projection(t, Get(b, "contacts")).value;
    SameInt(Get(Get(a, "contacts_state"), "count"), Int(CONTACT_CAPACITY));
    assert |x.Keys| == |x| && |y.Keys| == |y|;
    SubsetOfSameSize(x.Keys, y.Keys);
  }
}
