/** Where everything in the projection of a retained-state snapshot comes from. */
module ProjectionMeaning {
  import opened JsonModel
  import opened Ordering
  import opened Results
  import opened RetainedState
  import Channels = RetainedChannels
  import ContactRetention
  import Sorting
  import Store = RetainedStore

  /** The field is the same in both. */
  predicate Copies(target: Json, source: Json, field: string) {
    Get(target, field) == Get(source, field)
  }

  // ----- the state objects

  lemma PublicStateTold(page: Json)
    ensures PublicTells(Channels.Copied(page, PUBLIC_STATE), page)
  {
    var keys := PUBLIC_STATE;
    assert keys[0] == "count" && keys[1] == "capacity" && keys[2] == "retained_store_count"
        && keys[3] == "retained_public_count" && keys[4] == "total_written" && keys[5] == "dropped_oldest"
        && keys[6] == "retained_epoch" && keys[7] == "content_revision";
    AllCopied(page, keys);
    hide Channels.Copied, Get;
  }

  lemma AllCopied(source: Json, keys: seq<string>)
    ensures var copy := Channels.Copied(source, keys);
      && copy.Obj? && (forall k :: k in copy.fields <==> k in keys)
      && forall i :: 0 <= i < |keys| ==> Copies(copy, source, keys[i])
  {
    forall i | 0 <= i < |keys| ensures Copies(Channels.Copied(source, keys), source, keys[i]) {
      assert keys[i] in keys;
    }
  }

  lemma DirectStateTold(page: Json)
    ensures DirectTells(Channels.Copied(page, DIRECT_STATE), page)
  {
    var keys := DIRECT_STATE;
    assert keys[0] == "count" && keys[1] == "capacity" && keys[2] == "retained_count" && keys[3] == "total_written"
        && keys[4] == "dropped_oldest" && keys[5] == "retained_epoch" && keys[6] == "content_revision";
    AllCopied(page, keys);
    hide Channels.Copied, Get;
  }

  lemma AssembledFields(
      settings: Json, channels: Channels.Channels, publicRows: seq<Json>, publicState: Json, directRows: seq<Json>,
      directState: Json, contacts: seq<Json>, contactsState: Json, readState: Json, key: string)
    ensures var s := Assembled(
        settings, channels, publicRows, publicState, directRows, directState, contacts, contactsState, readState, key);
      && s.Obj?
      && s.fields.Keys == {
        "settings", "channels", "channel_state", "channel_cursors", "public_messages", "public_messages_state",
        "direct_messages", "direct_messages_state", "contacts", "contacts_state", "read_state", "identity_public_key"}
      && s.fields["settings"] == settings && s.fields["channels"] == Arr(channels.rows)
      && s.fields["channel_state"] == channels.state && s.fields["channel_cursors"] == channels.cursors
      && s.fields["public_messages"] == Arr(publicRows) && s.fields["public_messages_state"] == publicState
      && s.fields["direct_messages"] == Arr(directRows) && s.fields["direct_messages_state"] == directState
      && s.fields["contacts"] == Arr(contacts) && s.fields["contacts_state"] == contactsState
      && s.fields["read_state"] == readState && s.fields["identity_public_key"] == Str(key)
  {
  }

  /** The fields of a projection. */
  lemma Fields(t: Tools, snapshot: Snapshot)
    requires |snapshot.publicPages| == 2 && |snapshot.directPages| == 2 && Projectable(t, snapshot)
    ensures Channels.Project(Channels.Entries(snapshot.channels), |Channels.Entries(snapshot.channels)|).Some?
    ensures CursorsOf(snapshot.readState).Some? && ContactRetention.ExactPublicKey(t, Get(snapshot.identity, "public_key")).Some?
    ensures ProjectionOf(t, snapshot) == Assembled(
      snapshot.settings.value, Channels.ChannelsOf(snapshot.channels), StoreRows(t, snapshot.publicPages),
      Channels.Copied(snapshot.publicPages[0], PUBLIC_STATE), StoreRows(t, snapshot.directPages),
      Channels.Copied(snapshot.directPages[0], DIRECT_STATE), Store.Sort(t, Store.Rows(snapshot.contacts)),
      ContactsState(snapshot.contacts), ReadState(snapshot.readState, Obj(CursorsOf(snapshot.readState).value)),
      ContactRetention.ExactPublicKey(t, Get(snapshot.identity, "public_key")).value)
  {
    hide Channels.Acceptable, ContactsAcceptable, Store.Acceptable, Store.Sort, Store.Rows, Channels.ChannelsOf,
      Channels.IdentityValid, Channels.Copied, ContactsState, ReadState, Assembled, ReadResultValid, ThreadValid, NamesDistinct,
      CursorsOf, ContactRetention.ExactPublicKey, Get, Listed;
    ChannelsAccepted(t, snapshot.channels);
    IdentityHasKey(t, snapshot.identity);
  }

  /** The counters of the state come from the first page of each store, from the contact listing and from the read state,
      each under its own name; the persistence of the contacts loses its nesting. */
  lemma StateSpelledOut(t: Tools, snapshot: Snapshot)
    requires |snapshot.publicPages| == 2 && |snapshot.directPages| == 2 && Projectable(t, snapshot)
    ensures var s := ProjectionOf(t, snapshot);
      && s.Obj?
      && s.fields.Keys == {
        "settings", "channels", "channel_state", "channel_cursors", "public_messages", "public_messages_state",
        "direct_messages", "direct_messages_state", "contacts", "contacts_state", "read_state", "identity_public_key"}
      && snapshot.settings == Some(s.fields["settings"])
      && KeyTells(t, s.fields["identity_public_key"], snapshot.identity)
      && ChannelTells(s.fields["channel_state"], snapshot.channels)
      && PublicTells(s.fields["public_messages_state"], snapshot.publicPages[0])
      && DirectTells(s.fields["direct_messages_state"], snapshot.directPages[0])
      && ContactsTell(s.fields["contacts_state"], snapshot.contacts) && ReadsTell(s.fields["read_state"], snapshot.readState)
  {
    Fields(t, snapshot);
    ChannelStateTold(snapshot.channels);
    PublicStateTold(snapshot.publicPages[0]);
    DirectStateTold(snapshot.directPages[0]);
    ContactsStateTold(snapshot.contacts);
    ReadStateTold(snapshot.readState, Obj(CursorsOf(snapshot.readState).value));
    KeyTold(t, snapshot.identity);
    AssembledFields(
      snapshot.settings.value, Channels.ChannelsOf(snapshot.channels), StoreRows(t, snapshot.publicPages),
      Channels.Copied(snapshot.publicPages[0], PUBLIC_STATE), StoreRows(t, snapshot.directPages),
      Channels.Copied(snapshot.directPages[0], DIRECT_STATE), Store.Sort(t, Store.Rows(snapshot.contacts)),
      ContactsState(snapshot.contacts), ReadState(snapshot.readState, Obj(CursorsOf(snapshot.readState).value)),
      ContactRetention.ExactPublicKey(t, Get(snapshot.identity, "public_key")).value);
    hide Channels.Acceptable, ContactsAcceptable, ReadAcceptable, Store.Acceptable, Store.Sort, Store.Rows, Channels.ChannelsOf,
      Channels.IdentityValid, Channels.Copied, ContactsState, ReadState, Assembled, CursorsOf, ContactRetention.ExactPublicKey,
      Get, KeyTells, ChannelTells, PublicTells, DirectTells, ContactsTell, ReadsTell, ProjectionOf, StoreRows;
  }

  predicate KeyTells(t: Tools, key: Json, identity: Json) {
    Get(identity, "public_key").Str? && key == Str(t.fold(Get(identity, "public_key").s))
  }

  lemma KeyTold(t: Tools, identity: Json)
    requires ContactRetention.ExactPublicKey(t, Get(identity, "public_key")).Some?
    ensures KeyTells(t, Str(ContactRetention.ExactPublicKey(t, Get(identity, "public_key")).value), identity)
  {
  }

  predicate ChannelTells(state: Json, listing: Json) {
    Copies(state, listing, "capacity") && Copies(state, listing, "active_channel_id") && Copies(state, listing, "revision")
  }

  lemma ChannelStateTold(listing: Json)
    requires Channels.Project(Channels.Entries(listing), |Channels.Entries(listing)|).Some?
    ensures ChannelTells(Channels.ChannelsOf(listing).state, listing)
  {
    hide Channels.Project, Channels.Copied, Sorting.Sort, Channels.Entries, Get;
    var keys := ["capacity", "active_channel_id", "revision"];
    AllCopied(listing, keys);
    assert keys[0] == "capacity" && keys[1] == "active_channel_id" && keys[2] == "revision";
  }

  predicate PublicTells(state: Json, page: Json) {
    && Copies(state, page, "count") && Copies(state, page, "capacity") && Copies(state, page, "retained_store_count")
    && Copies(state, page, "retained_public_count") && Copies(state, page, "total_written")
    && Copies(state, page, "dropped_oldest") && Copies(state, page, "retained_epoch")
    && Copies(state, page, "content_revision")
  }

  predicate DirectTells(state: Json, page: Json) {
    && Copies(state, page, "count") && Copies(state, page, "capacity") && Copies(state, page, "retained_count")
    && Copies(state, page, "total_written") && Copies(state, page, "dropped_oldest")
    && Copies(state, page, "retained_epoch") && Copies(state, page, "content_revision")
  }

  predicate ContactsTell(state: Json, listing: Json) {
    var persistence := Get(listing, "persistence");
    && Copies(state, listing, "count") && Copies(state, listing, "capacity") && Copies(state, listing, "next_seq")
    && Copies(state, listing, "total_written") && Copies(state, listing, "dropped_oldest")
    && Get(state, "persistence_revision") == Get(persistence, "revision")
    && Get(state, "persistence_commits") == Get(persistence, "commits")
    && Get(state, "persistence_coalesced") == Get(persistence, "coalesced")
    && Get(state, "persistence_failures") == Get(persistence, "failures")
  }

  predicate ReadsTell(state: Json, result: Json) {
    && Copies(state, result, "cursor_capacity") && Copies(state, result, "last_public_read_seq")
    && Copies(state, result, "last_dm_read_seq") && Copies(state, result, "mark_read_count")
  }

  lemma ContactCountersTold(listing: Json)
    ensures var state := ContactsState(listing);
      && Copies(state, listing, "count") && Copies(state, listing, "capacity") && Copies(state, listing, "next_seq")
      && Copies(state, listing, "total_written") && Copies(state, listing, "dropped_oldest")
  {
  }

  lemma ContactPersistenceTold(listing: Json)
    ensures var state, persistence := ContactsState(listing), Get(listing, "persistence");
      && Get(state, "persistence_revision") == Get(persistence, "revision")
      && Get(state, "persistence_commits") == Get(persistence, "commits")
      && Get(state, "persistence_coalesced") == Get(persistence, "coalesced")
      && Get(state, "persistence_failures") == Get(persistence, "failures")
  {
  }

  lemma ContactsStateTold(listing: Json)
    ensures ContactsTell(ContactsState(listing), listing)
  {
    ContactCountersTold(listing);
    ContactPersistenceTold(listing);
    hide ContactsState, Get, Copies;
  }

  lemma ReadStateTold(result: Json, cursors: Json)
    ensures ReadsTell(ReadState(result, cursors), result) && Get(ReadState(result, cursors), "persisted_dm_cursors") == cursors
  {
  }

  // ----- the rows

  /** The list holds these rows, by growing text. */
  ghost predicate Holds(t: Tools, list: Json, rows: seq<Json>) {
    && list.Arr? && multiset(list.items) == multiset(rows)
    && forall i, j :: 0 <= i < j < |list.items| ==> !Less(t.text(list.items[j]), t.text(list.items[i]))
  }

  /** The entries of a page. */
  function PageRows(page: Json): seq<Json> {
    if Get(page, "entries").Arr? then Get(page, "entries").items else []
  }

  /** The messages are those of the two pages of their store, the contacts those of the contact listing, and the cursors
      those of the read state. */
  lemma RowsSpelledOut(t: Tools, snapshot: Snapshot)
    requires |snapshot.publicPages| == 2 && |snapshot.directPages| == 2 && Projectable(t, snapshot)
    ensures var s := ProjectionOf(t, snapshot);
      && s.Obj? && {"public_messages", "direct_messages", "contacts"} <= s.fields.Keys
      && Holds(
        t, s.fields["public_messages"], PageRows(snapshot.publicPages[0]) + PageRows(snapshot.publicPages[1]))
      && Holds(
        t, s.fields["direct_messages"], PageRows(snapshot.directPages[0]) + PageRows(snapshot.directPages[1]))
      && Holds(t, s.fields["contacts"], PageRows(snapshot.contacts))
  {
    Fields(t, snapshot);
    AssembledFields(
      snapshot.settings.value, Channels.ChannelsOf(snapshot.channels), StoreRows(t, snapshot.publicPages),
      Channels.Copied(snapshot.publicPages[0], PUBLIC_STATE), StoreRows(t, snapshot.directPages),
      Channels.Copied(snapshot.directPages[0], DIRECT_STATE), Store.Sort(t, Store.Rows(snapshot.contacts)),
      ContactsState(snapshot.contacts), ReadState(snapshot.readState, Obj(CursorsOf(snapshot.readState).value)),
      ContactRetention.ExactPublicKey(t, Get(snapshot.identity, "public_key")).value);
    SortHolds(t, Store.Rows(snapshot.publicPages[0]) + Store.Rows(snapshot.publicPages[1]));
    SortHolds(t, Store.Rows(snapshot.directPages[0]) + Store.Rows(snapshot.directPages[1]));
    SortHolds(t, Store.Rows(snapshot.contacts));
    assert forall page :: Store.Rows(page) == PageRows(page);
    hide Channels.Acceptable, ContactsAcceptable, ReadAcceptable, Store.Acceptable, Store.Sort, Store.Rows, Channels.ChannelsOf,
      Channels.IdentityValid, Channels.Copied, ContactsState, ReadState, Assembled, CursorsOf, ContactRetention.ExactPublicKey,
      Get, PageRows, Holds, ProjectionOf;
  }

  lemma SortHolds(t: Tools, rows: seq<Json>)
    ensures Holds(t, Arr(Store.Sort(t, rows)), rows)
  {
    Store.SortKeeps(t, rows);
    hide Store.Sort, Less;
    var sorted := Store.Sort(t, rows);
    forall i, j | 0 <= i < j < |sorted| ensures !Less(t.text(sorted[j]), t.text(sorted[i])) {
      assert !Store.ByText(t)(sorted[j], sorted[i]);
    }
  }

  // ----- cursors

  /** Every cursor is there under the lower-case form of its fingerprint, and no other. */
  ghost predicate CursorsTell(cursors: Json, list: seq<Json>) {
    && cursors.Obj?
    && (forall c :: c in list ==>
          && Get(c, "fingerprint").Str?
          && LowerHex(Get(c, "fingerprint").s) in cursors.fields
          && cursors.fields[LowerHex(Get(c, "fingerprint").s)] == Get(c, "last_read_seq"))
    && forall f :: f in cursors.fields ==>
        exists c :: c in list && Get(c, "fingerprint").Str? && LowerHex(Get(c, "fingerprint").s) == f
  }

  lemma {:induction false} CursorsTold(list: seq<Json>, n: nat)
    requires n <= |list| && Cursors(list, n).Some?
    ensures CursorsTell(Obj(Cursors(list, n).value), list[..n])
  {
    hide LowerHex;
    if n > 0 {
      CursorsTold(list, n - 1);
      assert list[..n] == list[..n - 1] + [list[n - 1]];
      var c := list[n - 1];
      assert CursorValid(c) && Get(c, "fingerprint").Str?;
      hide CursorValid, Get;
    }
  }

  /** Where the channels and the read state of a projection come from. */
  lemma ReadStateAndChannels(t: Tools, snapshot: Snapshot)
    requires |snapshot.publicPages| == 2 && |snapshot.directPages| == 2 && Projectable(t, snapshot)
    ensures CursorsOf(snapshot.readState).Some?
    ensures Channels.Project(Channels.Entries(snapshot.channels), |Channels.Entries(snapshot.channels)|).Some?
    ensures var s, channels := ProjectionOf(t, snapshot), Channels.ChannelsOf(snapshot.channels);
      && Get(s, "read_state") == ReadState(snapshot.readState, Obj(CursorsOf(snapshot.readState).value))
      && Get(s, "channels") == Arr(channels.rows) && Get(s, "channel_cursors") == channels.cursors
  {
    Fields(t, snapshot);
    AssembledFields(
      snapshot.settings.value, Channels.ChannelsOf(snapshot.channels), StoreRows(t, snapshot.publicPages),
      Channels.Copied(snapshot.publicPages[0], PUBLIC_STATE), StoreRows(t, snapshot.directPages),
      Channels.Copied(snapshot.directPages[0], DIRECT_STATE), Store.Sort(t, Store.Rows(snapshot.contacts)),
      ContactsState(snapshot.contacts), ReadState(snapshot.readState, Obj(CursorsOf(snapshot.readState).value)),
      ContactRetention.ExactPublicKey(t, Get(snapshot.identity, "public_key")).value);
    hide Channels.Acceptable, ContactsAcceptable, ReadAcceptable, Store.Acceptable, Store.Sort, Store.Rows, Channels.ChannelsOf,
      Channels.IdentityValid, Channels.Copied, ContactsState, ReadState, Assembled, CursorsOf, ContactRetention.ExactPublicKey,
      ProjectionOf, StoreRows;
  }

  /** The cursors of the read state. */
  lemma ReadCursorsSpelledOut(t: Tools, snapshot: Snapshot)
    requires |snapshot.publicPages| == 2 && |snapshot.directPages| == 2 && Projectable(t, snapshot)
    ensures CursorsTell(
      Get(Get(ProjectionOf(t, snapshot), "read_state"), "persisted_dm_cursors"), Listed(snapshot.readState, "persisted_dm_cursors"))
  {
    hide CursorsTell, Cursors, Listed, ReadsTell, ReadState, Get, Projectable, ProjectionOf, Channels.ChannelsOf,
      Channels.Project, Channels.Entries;
    ReadStateAndChannels(t, snapshot);
    var list := Listed(snapshot.readState, "persisted_dm_cursors");
    ReadStateTold(snapshot.readState, Obj(CursorsOf(snapshot.readState).value));
    CursorsTold(list, |list|);
    assert list[..|list|] == list;
  }

  // ----- channels

  /** The row of a channel: everything but its counters. */
  predicate ChannelRow(row: Json, channel: Json) {
    && row.Obj? && row.fields.Keys == {"channel_id", "name", "source", "enabled", "selected"}
    && Copies(row, channel, "channel_id") && Copies(row, channel, "name") && Copies(row, channel, "source")
    && Copies(row, channel, "enabled") && Copies(row, channel, "selected")
  }

  /** The counters of a channel. */
  predicate ChannelCursor(cursor: Json, channel: Json) {
    && cursor.Obj? && cursor.fields.Keys == {"unread", "newest_message_seq", "read_through_seq"}
    && Copies(cursor, channel, "unread") && Copies(cursor, channel, "newest_message_seq")
    && Copies(cursor, channel, "read_through_seq")
  }

  lemma ChannelRowTold(channel: Json)
    ensures ChannelRow(Channels.Copied(channel, Channels.ROW_FIELDS), channel)
  {
    var keys := Channels.ROW_FIELDS;
    AllCopied(channel, keys);
    hide Channels.Copied, Get;
    assert keys[0] == "channel_id" && keys[1] == "name" && keys[2] == "source" && keys[3] == "enabled"
        && keys[4] == "selected";
    forall k ensures k in keys <==> k in {"channel_id", "name", "source", "enabled", "selected"} {
    }
  }

  lemma ChannelCursorTold(channel: Json)
    ensures ChannelCursor(Channels.Copied(channel, Channels.CURSOR_FIELDS), channel)
  {
    var keys := Channels.CURSOR_FIELDS;
    AllCopied(channel, keys);
    hide Channels.Copied, Get;
    assert keys[0] == "unread" && keys[1] == "newest_message_seq" && keys[2] == "read_through_seq";
    forall k ensures k in keys <==> k in {"unread", "newest_message_seq", "read_through_seq"} {
    }
  }

  lemma {:induction false} RowsAreCopies(channels: seq<Json>, n: nat)
    requires n <= |channels| && Channels.Project(channels, n).Some?
    ensures var rows := Channels.Project(channels, n).value.rows;
      |rows| == n && forall i :: 0 <= i < n ==> rows[i] == Channels.Copied(channels[i], Channels.ROW_FIELDS)
  {
    hide Channels.ChannelValid, Channels.Id, Channels.Selected, Channels.Copied;
    if n > 0 {
      RowsAreCopies(channels, n - 1);
    }
  }

  /** Every channel has its row, by growing id, and its cursor, under its id; there are no others. */
  lemma ChannelsSpelledOut(t: Tools, snapshot: Snapshot)
    requires |snapshot.publicPages| == 2 && |snapshot.directPages| == 2 && Projectable(t, snapshot)
    ensures var s, list := ProjectionOf(t, snapshot), PageRows(snapshot.channels);
      ChannelRowsTell(Get(s, "channels"), list) && ChannelCursorsTell(Get(s, "channel_cursors"), list)
  {
    ReadStateAndChannels(t, snapshot);
    assert Channels.Entries(snapshot.channels) == PageRows(snapshot.channels);
    hide ProjectionOf, Projectable;
    ChannelRowsTold(snapshot.channels);
    ChannelCursorsTold(snapshot.channels);
    hide Channels.ChannelsOf, ChannelRowsTell, ChannelCursorsTell, Get, PageRows;
  }

  ghost predicate ChannelRowsTell(rows: Json, list: seq<Json>) {
    && rows.Arr? && (exists unsorted :: RowByRow(unsorted, list) && multiset(unsorted) == multiset(rows.items))
    && forall i, j :: 0 <= i < j < |rows.items| ==> !IdBefore(rows.items[j], rows.items[i])
  }

  predicate RowByRow(rows: seq<Json>, list: seq<Json>) {
    |rows| == |list| && forall i :: 0 <= i < |list| ==> ChannelRow(rows[i], list[i])
  }

  predicate IdBefore(a: Json, b: Json) {
    Get(a, "channel_id").Str? && Get(b, "channel_id").Str? && Less(Get(a, "channel_id").s, Get(b, "channel_id").s)
  }

  ghost predicate ChannelCursorsTell(cursors: Json, list: seq<Json>) {
    && cursors.Obj?
    && (forall c :: c in list ==> CursorFits(cursors, c)) && forall id :: id in cursors.fields ==> IsListed(list, id)
  }

  /** The counters of the channel are kept under its id. */
  predicate CursorFits(cursors: Json, c: Json) {
    && cursors.Obj? && Get(c, "channel_id").Str? && Get(c, "channel_id").s in cursors.fields
    && ChannelCursor(cursors.fields[Get(c, "channel_id").s], c)
  }

  predicate IsListed(list: seq<Json>, id: string) {
    exists c :: c in list && Get(c, "channel_id") == Str(id)
  }

  lemma ChannelRowsTold(listing: Json)
    requires Channels.Project(Channels.Entries(listing), |Channels.Entries(listing)|).Some?
    ensures ChannelRowsTell(Arr(Channels.ChannelsOf(listing).rows), Channels.Entries(listing))
  {
    var list := Channels.Entries(listing);
    var before := Channels.Project(list, |list|).value.rows;
    var rows := Channels.ChannelsOf(listing).rows;
    RowsAreCopies(list, |list|);
    IdOrder();
    Sorting.SortPermutes(Channels.ById(), before);
    Sorting.SortSorts(Channels.ById(), before);
    hide Channels.Project, Sorting.Sort, ChannelRow, Channels.Entries;
    forall i | 0 <= i < |list| ensures ChannelRow(before[i], list[i]) {
      ChannelRowTold(list[i]);
      hide Channels.Copied;
    }
    assert RowByRow(before, list);
    hide Channels.Copied, RowByRow, Less;
    forall i, j | 0 <= i < j < |rows| ensures !IdBefore(rows[j], rows[i]) {
      assert !Channels.ById()(rows[j], rows[i]);
    }
  }

  lemma IdOrder()
    ensures Sorting.StrictOrder(Channels.ById())
  {
    forall x, y, z
      ensures Channels.ById()(x, y) ==> !Channels.ById()(y, x)
      ensures !Channels.ById()(y, x) && !Channels.ById()(z, y) ==> !Channels.ById()(z, x)
    {
      hide Channels.Id, Less;
      LessTrichotomy(Channels.Id(x), Channels.Id(y));
      LessTrichotomy(Channels.Id(y), Channels.Id(z));
      LessTrichotomy(Channels.Id(x), Channels.Id(z));
      if Less(Channels.Id(x), Channels.Id(y)) && Less(Channels.Id(y), Channels.Id(z)) {
        LessTransitive(Channels.Id(x), Channels.Id(y), Channels.Id(z));
      }
    }
  }

  lemma ChannelCursorsTold(listing: Json)
    requires Channels.Project(Channels.Entries(listing), |Channels.Entries(listing)|).Some?
    ensures ChannelCursorsTell(Channels.ChannelsOf(listing).cursors, Channels.Entries(listing))
  {
    hide Channels.Project, Channels.Entries, CursorFits, IsListed;
    var list := Channels.Entries(listing);
    forall c | c in list ensures CursorFits(Channels.ChannelsOf(listing).cursors, c) {
      CursorFound(list, c);
    }
    forall id | id in Channels.ChannelsOf(listing).cursors.fields ensures IsListed(list, id) {
      CursorIsListed(list, id);
    }
  }

  lemma CursorFound(list: seq<Json>, c: Json)
    requires Channels.Project(list, |list|).Some? && c in list
    ensures CursorFits(Obj(Channels.Project(list, |list|).value.cursors), c)
  {
    hide Channels.Project, Channels.Copied, Channels.ChannelValid, Channels.Id, ChannelCursor, Get;
    var i :| 0 <= i < |list| && list[i] == c;
    Channels.CursorOf(list, |list|, i);
    IdRead(c);
    ChannelCursorTold(c);
  }

  lemma CursorIsListed(list: seq<Json>, id: string)
    requires Channels.Project(list, |list|).Some? && id in Channels.Project(list, |list|).value.cursors
    ensures IsListed(list, id)
  {
    Channels.AcceptedExactly(list, |list|);
    hide Channels.Project, Channels.ChannelValid, Channels.Id, Get;
    assert Channels.HasId(list, |list|, id);
    var i :| 0 <= i < |list| && Channels.Id(list[i]) == id;
    IdRead(list[i]);
    assert list[i] in list;
  }

  lemma IdRead(channel: Json)
    requires Channels.ChannelValid(channel)
    ensures Get(channel, "channel_id") == Str(Channels.Id(channel))
  {
  }
}
