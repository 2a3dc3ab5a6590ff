/** What a preserved state keeps, said of the JSON of two snapshots. */
module RetainedMeaning {
  import opened Results
  import opened JsonModel
  import C = ContactRetention
  import Channels = RetainedChannels
  import opened RetainedRelation
  import opened RetainedState
  import opened RowPreservation
  import opened Text

  predicate Unchanged(before: Json, after: Json, field: string) {
    PyEq(Get(before, field), Get(after, field))
  }

  predicate OnlyGrows(before: Json, after: Json, field: string) {
    Get(before, field).Int? && Get(after, field).Int? && Get(before, field).n <= Get(after, field).n
  }

  /** The string in a field, folded. */
  function Folded(t: Tools, row: Json, field: string): string {
    if Get(row, field).Str? then t.fold(Get(row, field).s) else ""
  }

  /** The row carries a public key: 64 hexadecimal digits. */
  predicate HasKey(t: Tools, row: Json) {
    Get(row, "public_key").Str? && Hex(Folded(t, row, "public_key"), 64)
  }

  /** The same contact with the same user state; a key that is there stays. */
  predicate SameContact(t: Tools, before: Json, after: Json) {
    && Folded(t, before, "fingerprint") == Folded(t, after, "fingerprint")
    && Get(before, "alias") == Get(after, "alias") && Get(before, "favorite") == Get(after, "favorite")
    && Get(before, "muted") == Get(after, "muted") && Get(before, "created_ms") == Get(after, "created_ms")
    && (HasKey(t, before) ==> HasKey(t, after) && Folded(t, before, "public_key") == Folded(t, after, "public_key"))
  }

  // ----- contacts, row by row

  /** Which rows are contacts at all: a named one carries the fingerprint of its key and is canonical,
      a placeholder has an empty key and no capability. */
  lemma ContactRowExactly(t: Tools, row: Json)
    ensures C.ContactOf(t, row).Some? <==>
      && row.Obj?
      && {"alias", "created_ms", "favorite", "fingerprint", "muted", "public_key", "last_heard_ms", "last_rssi_dbm",
          "last_snr_tenths", "out_path_known", "out_path_len", "out_path_updated_ms", "path_hash_bytes", "path_hops", "seq",
          "signed_advert_timestamp", "updated_ms", "verified_at_ms"} <= row.fields.Keys
      && Get(row, "fingerprint").Str? && Hex(Folded(t, row, "fingerprint"), 16)
      && Get(row, "alias").Str? && Get(row, "favorite").Bool? && Get(row, "muted").Bool?
      && Get(row, "created_ms").Int? && Get(row, "created_ms").n >= 0
      && Get(row, "canonical").Bool? && Get(row, "can_dm").Bool? && Get(row, "can_admin").Bool?
      && (if HasKey(t, row)
          then Folded(t, row, "fingerprint") == Folded(t, row, "public_key")[..16] && Get(row, "canonical").b
          else Get(row, "public_key") == Str("") && !Get(row, "canonical").b && !Get(row, "can_dm").b && !Get(row, "can_admin").b)
  {
    FieldsPresent(row);
    hide C.HasAll, Hex;
  }

  lemma FieldsPresent(row: Json)
    ensures C.HasAll(row, C.REQUIRED_FIELDS) && C.HasAll(row, C.VOLATILE_FIELDS) <==>
      && row.Obj?
      && {"alias", "created_ms", "favorite", "fingerprint", "muted", "public_key", "last_heard_ms", "last_rssi_dbm",
          "last_snr_tenths", "out_path_known", "out_path_len", "out_path_updated_ms", "path_hash_bytes", "path_hops", "seq",
          "signed_advert_timestamp", "updated_ms", "verified_at_ms"} <= row.fields.Keys
  {
    var required, volatile := C.REQUIRED_FIELDS, C.VOLATILE_FIELDS;
    if row.Obj? {
      AllPresent(row, required);
      AllPresent(row, volatile);
      hide C.HasAll;
      assert (set f | f in required)
        == {"alias", "created_ms", "favorite", "fingerprint", "muted", "public_key"};
      assert (set f | f in volatile)
        == {"last_heard_ms", "last_rssi_dbm", "last_snr_tenths", "out_path_known", "out_path_len", "out_path_updated_ms",
            "path_hash_bytes", "path_hops", "seq", "signed_advert_timestamp", "updated_ms", "verified_at_ms"};
    }
  }

  lemma AllPresent(row: Json, fields: seq<string>)
    requires row.Obj?
    ensures C.HasAll(row, fields) <==> (set f | f in fields) <= row.fields.Keys
  {
    if (set f | f in fields) <= row.fields.Keys {
      forall i | 0 <= i < |fields| ensures fields[i] in row.fields {
        assert fields[i] in (set f | f in fields);
      }
    }
  }

  lemma ContactFields(t: Tools, row: Json)
    requires C.ContactOf(t, row).Some?
    ensures var c := C.ContactOf(t, row).value;
      && c.fingerprint == Folded(t, row, "fingerprint") && Get(row, "alias") == Str(c.alias)
      && Get(row, "favorite") == Bool(c.favorite) && Get(row, "muted") == Bool(c.muted)
      && Get(row, "created_ms") == Int(c.createdMs)
      && (if HasKey(t, row) then c.publicKey != "" && c.publicKey == Folded(t, row, "public_key") else c.publicKey == "")
  {
    hide C.HasAll, C.CapabilitiesValid;
  }

  lemma KeptIsSame(t: Tools, x: Json, y: Json)
    requires C.ContactOf(t, x).Some? && C.ContactOf(t, y).Some?
    ensures ContactKept(C.ContactOf(t, x).value, C.ContactOf(t, y).value) <==> SameContact(t, x, y)
  {
    ContactFields(t, x);
    ContactFields(t, y);
    hide C.ContactOf, HasKey, Folded;
  }

  /** The contacts stand for the rows. */
  ghost predicate Stands(t: Tools, rows: seq<Json>, m: map<string, C.Contact>) {
    && (forall row :: row in rows ==> C.ContactOf(t, row).Some? && C.ContactOf(t, row).value.fingerprint in m
                                      && m[C.ContactOf(t, row).value.fingerprint] == C.ContactOf(t, row).value)
    && (forall f :: f in m ==> exists row :: row in rows && C.ContactOf(t, row) == Some(m[f]) && m[f].fingerprint == f)
  }

  lemma {:induction false} ContactsStand(t: Tools, rows: seq<Json>, n: nat)
    requires n <= |rows| && C.Contacts(t, rows, n).Some?
    ensures Stands(t, rows[..n], C.Contacts(t, rows, n).value)
  {
    hide C.ContactOf;
    if n > 0 {
      ContactsStand(t, rows, n - 1);
      assert rows[..n] == rows[..n - 1] + [rows[n - 1]];
      var m := C.Contacts(t, rows, n).value;
      forall f | f in m ensures exists row :: row in rows[..n] && C.ContactOf(t, row) == Some(m[f]) && m[f].fingerprint == f {
        if f == C.ContactOf(t, rows[n - 1]).value.fingerprint {
          assert rows[n - 1] in rows[..n];
        } else {
          var row :| row in rows[..n - 1] && C.ContactOf(t, row) == Some(m[f]);
          assert row in rows[..n];
        }
      }
    }
  }

  /** Every contact row before has the same contact after. */
  ghost predicate ContactRowsKept(t: Tools, before: seq<Json>, after: seq<Json>) {
    forall x :: x in before ==> exists y :: y in after && SameContact(t, x, y)
  }

  /** All rows of a list are contacts, and no two of them the same. */
  ghost predicate ContactsApart(t: Tools, rows: seq<Json>) {
    && (forall i :: 0 <= i < |rows| ==> C.ContactOf(t, rows[i]).Some?)
    && forall i, j :: 0 <= i < j < |rows| ==> Folded(t, rows[i], "fingerprint") != Folded(t, rows[j], "fingerprint")
  }

  lemma ApartStep(t: Tools, rows: seq<Json>, n: nat)
    requires 0 < n <= |rows|
    ensures ContactsApart(t, rows[..n]) <==>
      && ContactsApart(t, rows[..n - 1]) && C.ContactOf(t, rows[n - 1]).Some?
      && forall i :: 0 <= i < n - 1 ==> Folded(t, rows[i], "fingerprint") != Folded(t, rows[n - 1], "fingerprint")
  {
    hide C.ContactOf, Folded;
    assert rows[..n] == rows[..n - 1] + [rows[n - 1]];
    assert forall i :: 0 <= i < n - 1 ==> rows[..n - 1][i] == rows[..n][i] == rows[i];
    assert rows[..n][n - 1] == rows[n - 1];
  }

  /** Exactly which lists of rows project to contacts. */
  lemma {:induction false} ProjectedExactly(t: Tools, rows: seq<Json>, n: nat)
    requires n <= |rows|
    ensures C.Contacts(t, rows, n).Some? <==> ContactsApart(t, rows[..n])
  {
    hide C.ContactOf, Folded;
    if n > 0 {
      ProjectedExactly(t, rows, n - 1);
      ApartStep(t, rows, n);
      hide ContactsApart;
      if C.Contacts(t, rows, n - 1).Some? && C.ContactOf(t, rows[n - 1]).Some? {
        SeenExactly(t, rows, n);
      }
    }
  }

  /** A fingerprint is taken exactly when a row before has it. */
  lemma SeenExactly(t: Tools, rows: seq<Json>, n: nat)
    requires 0 < n <= |rows| && C.Contacts(t, rows, n - 1).Some? && C.ContactOf(t, rows[n - 1]).Some?
    ensures C.ContactOf(t, rows[n - 1]).value.fingerprint in C.Contacts(t, rows, n - 1).value <==>
      exists i :: 0 <= i < n - 1 && Folded(t, rows[i], "fingerprint") == Folded(t, rows[n - 1], "fingerprint")
  {
    var f := Folded(t, rows[n - 1], "fingerprint");
    ContactFields(t, rows[n - 1]);
    hide C.Contacts, C.ContactOf, Folded;
    if f in C.Contacts(t, rows, n - 1).value {
      var i := TakenFrom(t, rows, n - 1, f);
    }
    if i :| 0 <= i < n - 1 && Folded(t, rows[i], "fingerprint") == f {
      TakenBy(t, rows, n - 1, i);
    }
  }

  lemma TakenFrom(t: Tools, rows: seq<Json>, n: nat, f: string) returns (i: nat)
    requires n <= |rows| && C.Contacts(t, rows, n).Some? && f in C.Contacts(t, rows, n).value
    ensures i < n && Folded(t, rows[i], "fingerprint") == f
  {
    var m := C.Contacts(t, rows, n).value;
    ContactsStand(t, rows, n);
    hide C.Contacts, C.ContactOf, Folded;
    var row :| row in rows[..n] && C.ContactOf(t, row) == Some(m[f]) && m[f].fingerprint == f;
    ContactFields(t, row);
    i :| 0 <= i < n && rows[..n][i] == row;
  }

  lemma TakenBy(t: Tools, rows: seq<Json>, n: nat, i: nat)
    requires i < n <= |rows| && C.Contacts(t, rows, n).Some?
    ensures Folded(t, rows[i], "fingerprint") in C.Contacts(t, rows, n).value
  {
    ContactsStand(t, rows, n);
    hide C.Contacts, C.ContactOf, Folded;
    assert rows[i] == rows[..n][i];
    assert rows[i] in rows[..n];
    ContactFields(t, rows[i]);
  }

  lemma ContactsKeptByRows(t: Tools, before: Json, after: Json)
    requires C.Projection(t, before).Some? && C.Projection(t, after).Some?
    ensures ContactsKept(C.Projection(t, before).value, C.Projection(t, after).value) <==>
      ContactRowsKept(t, before.items, after.items)
  {
    var m, m' := C.Projection(t, before).value, C.Projection(t, after).value;
    ContactsStand(t, before.items, |before.items|);
    ContactsStand(t, after.items, |after.items|);
    assert before.items[..|before.items|] == before.items && after.items[..|after.items|] == after.items;
    hide C.Projection, C.ContactOf, SameContact, ContactKept;
    if ContactsKept(m, m') {
      forall x | x in before.items ensures exists y :: y in after.items && SameContact(t, x, y) {
        var f := C.ContactOf(t, x).value.fingerprint;
        assert f in m' && ContactKept(m[f], m'[f]);
        var y :| y in after.items && C.ContactOf(t, y) == Some(m'[f]);
        KeptIsSame(t, x, y);
      }
    }
    if ContactRowsKept(t, before.items, after.items) {
      forall f | f in m ensures f in m' && ContactKept(m[f], m'[f]) {
        var x :| x in before.items && C.ContactOf(t, x) == Some(m[f]);
        var y :| y in after.items && SameContact(t, x, y);
        KeptIsSame(t, x, y);
        SameFingerprint(t, x, y);
      }
    }
  }

  lemma SameFingerprint(t: Tools, x: Json, y: Json)
    requires C.ContactOf(t, x).Some? && C.ContactOf(t, y).Some? && SameContact(t, x, y)
    ensures C.ContactOf(t, x).value.fingerprint == C.ContactOf(t, y).value.fingerprint
  {
    ContactFields(t, x);
    ContactFields(t, y);
    hide C.ContactOf;
  }

  // ----- the other parts, field by field

  lemma ChannelsSpelled(state: Json, state': Json, cursors: Json, cursors': Json)
    ensures ChannelsKept(state, state', cursors, cursors') <==>
      && state.Obj? && state'.Obj? && Unchanged(state, state', "capacity") && Unchanged(state, state', "active_channel_id")
      && OnlyGrows(state, state', "revision")
      && cursors.Obj? && cursors'.Obj? && cursors.fields.Keys == cursors'.fields.Keys
      && forall id :: id in cursors.fields ==>
          && Get(cursors, id).Obj? && Get(cursors', id).Obj?
          && OnlyGrows(Get(cursors, id), Get(cursors', id), "unread")
          && OnlyGrows(Get(cursors, id), Get(cursors', id), "newest_message_seq")
          && OnlyGrows(Get(cursors, id), Get(cursors', id), "read_through_seq")
  {
    hide PyEq;
    var fields := ["capacity", "active_channel_id"];
    assert AllSame(state, state', fields) <==>
      Unchanged(state, state', fields[0]) && Unchanged(state, state', fields[1]);
    if cursors.Obj? {
      forall id | id in cursors.fields
        ensures ChannelCursorKept(cursors.fields[id], Get(cursors', id)) <==>
          && Get(cursors, id).Obj? && Get(cursors', id).Obj?
          && OnlyGrows(Get(cursors, id), Get(cursors', id), "unread")
          && OnlyGrows(Get(cursors, id), Get(cursors', id), "newest_message_seq")
          && OnlyGrows(Get(cursors, id), Get(cursors', id), "read_through_seq")
      {
        CursorSpelled(Get(cursors, id), Get(cursors', id));
      }
    }
    hide AllSame, ChannelCursorKept, OnlyGrows, Unchanged;
  }

  lemma CursorSpelled(before: Json, after: Json)
    ensures ChannelCursorKept(before, after) <==>
      && before.Obj? && after.Obj? && OnlyGrows(before, after, "unread")
      && OnlyGrows(before, after, "newest_message_seq") && OnlyGrows(before, after, "read_through_seq")
  {
    var fields := Channels.CURSOR_FIELDS;
    Regressions(before, after, fields);
    hide AllNotRegressed, OnlyGrows;
    assert fields[0] == "unread" && fields[1] == "newest_message_seq" && fields[2] == "read_through_seq";
  }

  lemma Regressions(before: Json, after: Json, fields: seq<string>)
    ensures AllNotRegressed(before, after, fields) <==>
      forall i :: 0 <= i < |fields| ==> OnlyGrows(before, after, fields[i])
  {
    hide Get;
    if AllNotRegressed(before, after, fields) {
      forall i | 0 <= i < |fields| ensures OnlyGrows(before, after, fields[i]) {
        assert NotRegressed(Get(before, fields[i]), Get(after, fields[i]));
      }
    } else {
      var i :| 0 <= i < |fields| && !NotRegressed(Get(before, fields[i]), Get(after, fields[i]));
      assert !OnlyGrows(before, after, fields[i]);
    }
  }

  lemma PublicSpelled(before: Json, after: Json)
    ensures PublicStateKept(before, after) <==>
      && before.Obj? && after.Obj? && Unchanged(before, after, "capacity") && Unchanged(before, after, "retained_epoch")
      && OnlyGrows(before, after, "count") && OnlyGrows(before, after, "retained_store_count")
      && OnlyGrows(before, after, "retained_public_count") && OnlyGrows(before, after, "total_written")
      && OnlyGrows(before, after, "dropped_oldest") && OnlyGrows(before, after, "content_revision")
  {
    var same, counted := ["capacity", "retained_epoch"], PUBLIC_COUNTED;
    assert AllSame(before, after, same) <==> Unchanged(before, after, same[0]) && Unchanged(before, after, same[1]) by {
      hide PyEq, Get;
    }
    Regressions(before, after, counted);
    hide AllNotRegressed, AllSame, OnlyGrows, Unchanged;
    assert counted[0] == "count" && counted[1] == "retained_store_count" && counted[2] == "retained_public_count"
        && counted[3] == "total_written" && counted[4] == "dropped_oldest" && counted[5] == "content_revision";
  }

  lemma ReadSpelled(before: Json, after: Json)
    ensures ReadStateKept(before, after) <==>
      && before.Obj? && after.Obj? && Unchanged(before, after, "cursor_capacity")
      && OnlyGrows(before, after, "last_public_read_seq") && OnlyGrows(before, after, "last_dm_read_seq")
      && OnlyGrows(before, after, "mark_read_count")
      && var x, y := Get(before, "persisted_dm_cursors"), Get(after, "persisted_dm_cursors");
      x.Obj? && y.Obj? && forall f :: f in x.fields ==> OnlyGrows(x, y, f)
  {
    var same, counted := ["cursor_capacity"], READ_FIELDS;
    assert AllSame(before, after, same) <==> Unchanged(before, after, same[0]) by {
      hide PyEq, Get;
    }
    Regressions(before, after, counted);
    var x, y := Get(before, "persisted_dm_cursors"), Get(after, "persisted_dm_cursors");
    assert x.Obj? ==> forall f :: f in x.fields ==> (OnlyGrows(x, y, f) <==> NotRegressed(x.fields[f], Get(y, f)));
    hide AllNotRegressed, AllSame, OnlyGrows, Unchanged, NotRegressed;
    assert counted[0] == "last_public_read_seq" && counted[1] == "last_dm_read_seq" && counted[2] == "mark_read_count";
  }

  lemma ContactsStateSpelled(before: Json, after: Json)
    ensures ContactsStateKept(before, after) <==>
      && before.Obj? && after.Obj? && Unchanged(before, after, "capacity")
      && Get(before, "persistence_failures").Int? && Get(before, "persistence_failures").n >= 0
      && Get(after, "persistence_failures").Int? && Get(after, "persistence_failures").n >= 0
      && OnlyGrows(before, after, "next_seq") && OnlyGrows(before, after, "total_written")
      && OnlyGrows(before, after, "dropped_oldest")
  {
    var same, counted := ["capacity"], CONTACT_COUNTERS;
    assert AllSame(before, after, same) <==> Unchanged(before, after, same[0]) by {
      hide PyEq, Get;
    }
    Regressions(before, after, counted);
    hide AllNotRegressed, AllSame, OnlyGrows, Unchanged;
    assert counted[0] == "next_seq" && counted[1] == "total_written" && counted[2] == "dropped_oldest";
  }

  /** A row of the list in a field. */
  predicate Listed(state: Json, field: string, row: Json) {
    Get(state, field).Arr? && row in Get(state, field).items
  }

  /** Every row before has a row after with the same text. */
  ghost predicate NoneLost(t: Tools, before: Json, after: Json, field: string) {
    forall x :: Listed(before, field, x) ==> exists y :: Listed(after, field, y) && t.text(x) == t.text(y)
  }

  lemma RowsByText(t: Tools, a: Json, b: Json, field: string)
    ensures RowsKept(t.text, Items(Get(a, field)), Items(Get(b, field))) <==> NoneLost(t, a, b, field)
  {
    var before, after := Items(Get(a, field)), Items(Get(b, field));
    RowsKeptExactly(t.text, before, after);
    assert forall x :: Listed(a, field, x) <==> x in before;
    assert forall x :: Listed(b, field, x) <==> x in after;
    hide Get, Items, Listed, RowsKept;
  }

  lemma FieldsUnchanged(a: Json, b: Json)
    ensures AllSame(a, b, SAME_FIELDS) <==>
      && Unchanged(a, b, "settings") && Unchanged(a, b, "channels") && Unchanged(a, b, "identity_public_key")
      && Unchanged(a, b, "direct_messages_state")
  {
    var same := SAME_FIELDS;
    hide PyEq, Get;
    assert AllSame(a, b, same) <==> forall i :: 0 <= i < |same| ==> Unchanged(a, b, same[i]);
    hide AllSame, Unchanged;
    assert same[0] == "settings" && same[1] == "channels" && same[2] == "identity_public_key"
        && same[3] == "direct_messages_state";
  }

  /** A state is preserved exactly when all of this holds of the two JSON values. */
  lemma PreservedExactly(t: Tools, a: Json, b: Json)
    ensures Preserved(t, a, b) <==>
      // the settings, the channels, the identity and the direct-message counters stay as they are
      && Unchanged(a, b, "settings") && Unchanged(a, b, "channels") && Unchanged(a, b, "identity_public_key")
      && Unchanged(a, b, "direct_messages_state")
      // the channel store
      && (var x, y := Get(a, "channel_state"), Get(b, "channel_state");
          && x.Obj? && y.Obj? && Unchanged(x, y, "capacity") && Unchanged(x, y, "active_channel_id")
          && OnlyGrows(x, y, "revision"))
      // the cursors of the same channels
      && (var x, y := Get(a, "channel_cursors"), Get(b, "channel_cursors");
          && x.Obj? && y.Obj? && x.fields.Keys == y.fields.Keys
          && forall id :: id in x.fields ==>
              && Get(x, id).Obj? && Get(y, id).Obj? && OnlyGrows(Get(x, id), Get(y, id), "unread")
              && OnlyGrows(Get(x, id), Get(y, id), "newest_message_seq")
              && OnlyGrows(Get(x, id), Get(y, id), "read_through_seq"))
      // the messages
      && (var x, y := Get(a, "public_messages_state"), Get(b, "public_messages_state");
          && x.Obj? && y.Obj? && Unchanged(x, y, "capacity") && Unchanged(x, y, "retained_epoch")
          && OnlyGrows(x, y, "count") && OnlyGrows(x, y, "retained_store_count") && OnlyGrows(x, y, "retained_public_count")
          && OnlyGrows(x, y, "total_written") && OnlyGrows(x, y, "dropped_oldest") && OnlyGrows(x, y, "content_revision"))
      && NoneLost(t, a, b, "public_messages") && NoneLost(t, a, b, "direct_messages")
      // the read state, with a cursor for every fingerprint that had one
      && (var x, y := Get(a, "read_state"), Get(b, "read_state");
          && x.Obj? && y.Obj? && Unchanged(x, y, "cursor_capacity") && OnlyGrows(x, y, "last_public_read_seq")
          && OnlyGrows(x, y, "last_dm_read_seq") && OnlyGrows(x, y, "mark_read_count")
          && var k, k' := Get(x, "persisted_dm_cursors"), Get(y, "persisted_dm_cursors");
          k.Obj? && k'.Obj? && forall f :: f in k.fields ==> OnlyGrows(k, k', f))
      // the contacts
      && (var x, y := Get(a, "contacts_state"), Get(b, "contacts_state");
          && x.Obj? && y.Obj? && Unchanged(x, y, "capacity")
          && Get(x, "persistence_failures").Int? && Get(x, "persistence_failures").n >= 0
          && Get(y, "persistence_failures").Int? && Get(y, "persistence_failures").n >= 0
          && OnlyGrows(x, y, "next_seq") && OnlyGrows(x, y, "total_written") && OnlyGrows(x, y, "dropped_oldest"))
      && (var x, y := Get(a, "contacts"), Get(b, "contacts");
          && x.Arr? && y.Arr? && ContactsApart(t, x.items) && ContactsApart(t, y.items)
          && ContactRowsKept(t, x.items, y.items))
  {
    FieldsUnchanged(a, b);
    ChannelsSpelled(Get(a, "channel_state"), Get(b, "channel_state"), Get(a, "channel_cursors"), Get(b, "channel_cursors"));
    PublicSpelled(Get(a, "public_messages_state"), Get(b, "public_messages_state"));
    RowsByText(t, a, b, "public_messages");
    RowsByText(t, a, b, "direct_messages");
    ReadSpelled(Get(a, "read_state"), Get(b, "read_state"));
    ContactsStateSpelled(Get(a, "contacts_state"), Get(b, "contacts_state"));
    ContactsSpelled(t, Get(a, "contacts"), Get(b, "contacts"));
    hide AllSame, ChannelsKept, PublicStateKept, RowsKept, ReadStateKept, ContactsStateKept, ContactsKept, C.Projection, Items,
      Unchanged, OnlyGrows, NoneLost, ContactRowsKept, ContactsApart, Get;
  }

  lemma ContactsSpelled(t: Tools, x: Json, y: Json)
    ensures (&& C.Projection(t, x).Some? && C.Projection(t, y).Some?
             && ContactsKept(C.Projection(t, x).value, C.Projection(t, y).value)) <==>
      && x.Arr? && y.Arr? && ContactsApart(t, x.items) && ContactsApart(t, y.items)
      && ContactRowsKept(t, x.items, y.items)
  {
    hide C.Contacts, ContactsApart, ContactRowsKept, ContactsKept;
    ProjectedArray(t, x);
    ProjectedArray(t, y);
    if C.Projection(t, x).Some? && C.Projection(t, y).Some? {
      ContactsKeptByRows(t, x, y);
    }
  }

  lemma ProjectedArray(t: Tools, x: Json)
    ensures C.Projection(t, x).Some? <==> x.Arr? && ContactsApart(t, x.items)
  {
    if x.Arr? {
      ProjectedExactly(t, x.items, |x.items|);
      assert x.items[..|x.items|] == x.items;
    }
    hide C.Contacts, ContactsApart;
  }

  /** A contact whose key is known keeps it through every reflash that is found preserved. */
  lemma {:induction false} KeyStays(t: Tools, states: seq<Json>, i: nat, j: nat, row: Json) returns (later: Json)
    requires i <= j < |states|
    requires forall k :: i <= k < j ==> Preserved(t, states[k], states[k + 1])
    requires Listed(states[i], "contacts", row) && HasKey(t, row)
    ensures Listed(states[j], "contacts", later) && HasKey(t, later)
    ensures Folded(t, later, "fingerprint") == Folded(t, row, "fingerprint")
    ensures Folded(t, later, "public_key") == Folded(t, row, "public_key")
    decreases j - i
  {
    hide Preserved, Get, Folded, HasKey;
    if i == j {
      later := row;
    } else {
      var next := ContactStays(t, states[i], states[i + 1], row);
      later := KeyStays(t, states, i + 1, j, next);
    }
  }

  /** Every contact before has a contact after with the same fingerprint, user state and, if it has one, key. */
  lemma ContactStays(t: Tools, a: Json, b: Json, row: Json) returns (later: Json)
    requires Preserved(t, a, b) && Listed(a, "contacts", row)
    ensures Listed(b, "contacts", later) && SameContact(t, row, later)
  {
    PreservedExactly(t, a, b);
    hide Preserved, Unchanged, OnlyGrows, NoneLost, SameContact, ContactsApart;
    later :| later in Get(b, "contacts").items && SameContact(t, row, later);
  }
}
