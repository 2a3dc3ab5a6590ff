/** What a snapshot of the retained state projects to: the stores, the contacts and the read state. */
module RetainedState {
  import opened Results
  import opened JsonModel
  import opened Text
  import opened RowPreservation
  import Channels = RetainedChannels
  import ContactRetention
  import Store = RetainedStore

  type Tools = ContactRetention.Tools

  const CONTACT_CAPACITY := 16
  const CURSOR_CAPACITY := 16

  // ----- contacts

  predicate SeqBelow(row: Json, next: int) {
    Store.AtLeast(Get(row, "seq"), 1) && Get(row, "seq").n < next
  }

  /** The counters and the persistence of the contact store. */
  predicate ContactsResultValid(result: Json) {
    var rows, count := Get(result, "entries"), Get(result, "count");
    var persistence := Get(result, "persistence");
    var sd := Get(persistence, "sd");
    && rows.Arr? && (forall i :: 0 <= i < |rows.items| ==> rows.items[i].Obj?)
    && count == Int(|rows.items|) && PyEq(Get(result, "capacity"), Int(CONTACT_CAPACITY)) && count.n <= CONTACT_CAPACITY
    && Store.AtLeast(Get(result, "next_seq"), 1)
    && (forall i :: 0 <= i < |rows.items| ==> SeqBelow(rows.items[i], Get(result, "next_seq").n))
    && Store.AtLeast(Get(result, "total_written"), count.n) && Store.AtLeast(Get(result, "dropped_oldest"), 0)
    && Get(result, "persisted") == Bool(true)
    && persistence.Obj? && Get(persistence, "loaded") == Bool(true) && Get(persistence, "dirty") == Bool(false)
    && Store.AtLeast(Get(persistence, "revision"), 0) && Store.AtLeast(Get(persistence, "commits"), 0)
    && Store.AtLeast(Get(persistence, "coalesced"), 0) && Store.AtLeast(Get(persistence, "failures"), 0)
    && Get(persistence, "last_error") == Str("ESP_OK")
    && sd.Obj? && Get(sd, "required") == Bool(true) && Store.AtLeast(Get(sd, "generation"), 1)
    && Get(sd, "reconcile_pending") == Bool(false)
  }

  predicate ContactsAcceptable(t: Tools, result: Json) {
    ContactsResultValid(result) && ContactRetention.Projection(t, Arr(Store.Sort(t, Store.Rows(result)))).Some?
  }

  /** The sorted rows of a valid contact store whose contacts can be told apart. */
  method ProjectContacts(t: Tools, result: Json) returns (r: Option<seq<Json>>)
    ensures r.Some? <==> ContactsAcceptable(t, result)
    ensures r.Some? ==> r.value == Store.Sort(t, Store.Rows(result))
  {
    hide ContactRetention.Projection, Store.Sort, ContactsResultValid, Store.Rows;
    if !ContactsResultValid(result) {
      return None;
    }
    var rows := Store.Sort(t, Store.Rows(result));
    var projected := ContactRetention.ContactRetentionProjection(t, Arr(rows));
    if projected.None? {
      return None;
    }
    r := Some(rows);
  }

  /** A valid contact store has as many rows as it counts, within its capacity. */
  lemma ContactStoreSize(t: Tools, result: Json)
    requires ContactsResultValid(result)
    ensures var rows := Store.Sort(t, Store.Rows(result)); Get(result, "count") == Int(|rows|) && |rows| <= CONTACT_CAPACITY
  {
    Store.SortKeeps(t, Store.Rows(result));
    hide PyEq, Store.AtLeast, Store.Sort;
  }

  // ----- read state

  function LowerHex(s: string): string {
    seq(|s|, i requires 0 <= i < |s| => if 'A' <= s[i] <= 'F' then (s[i] as int + 32) as char else s[i])
  }

  /** `re.fullmatch(r"[0-9A-Fa-f]{16}", s)` */
  predicate Fingerprint(v: Json) {
    v.Str? && Hex(LowerHex(v.s), 16)
  }

  predicate ThreadValid(thread: Json) {
    && thread.Obj? && thread.fields.Keys == {"fingerprint", "last_read_seq", "newest_rx_seq", "unread", "muted"}
    && Fingerprint(Get(thread, "fingerprint")) && Store.AtLeast(Get(thread, "last_read_seq"), 0)
    && Store.AtLeast(Get(thread, "newest_rx_seq"), Get(thread, "last_read_seq").n) && Store.AtLeast(Get(thread, "unread"), 0)
    && Get(thread, "muted").Bool?
  }

  predicate CursorValid(cursor: Json) {
    && cursor.Obj? && cursor.fields.Keys == {"fingerprint", "last_read_seq"}
    && Fingerprint(Get(cursor, "fingerprint")) && Store.AtLeast(Get(cursor, "last_read_seq"), 0)
  }

  const READ_COUNTERS := [
    "public_unread", "dm_unread", "muted_dm_unread", "dm_thread_count", "persisted_dm_cursor_count",
    "last_public_read_seq", "last_dm_read_seq", "newest_public_rx_seq", "newest_dm_rx_seq", "mark_read_count"]

  predicate ReadResultValid(result: Json) {
    var threads, cursors := Get(result, "dm_threads"), Get(result, "persisted_dm_cursors");
    var persistence := Get(result, "persistence");
    var sd, nvs := Get(persistence, "sd"), Get(persistence, "nvs");
    && (forall i :: 0 <= i < |READ_COUNTERS| ==> Store.AtLeast(Get(result, READ_COUNTERS[i]), 0))
    && PyEq(Get(result, "cursor_capacity"), Int(CURSOR_CAPACITY))
    && threads.Arr? && PyEq(Get(result, "dm_thread_count"), Int(|threads.items|))
    && cursors.Arr? && PyEq(Get(result, "persisted_dm_cursor_count"), Int(|cursors.items|))
    && |cursors.items| <= CURSOR_CAPACITY && Get(result, "persisted") == Bool(true)
    && persistence.Obj? && Get(persistence, "loaded") == Bool(true) && Get(persistence, "dirty") == Bool(false)
    && Store.AtLeast(Get(persistence, "revision"), 0) && Store.AtLeast(Get(persistence, "commits"), 0)
    && PyEq(Get(persistence, "failures"), Int(0)) && Get(persistence, "last_error") == Str("ESP_OK")
    && Get(persistence, "clear_tombstone_pending") == Bool(false)
    && sd.Obj? && Get(sd, "required") == Bool(true) && Store.AtLeast(Get(sd, "accepted_generation"), 1)
    && PyEq(Get(sd, "generation"), Get(sd, "accepted_generation")) && Get(sd, "dirty") == Bool(false)
    && Get(sd, "reconcile_pending") == Bool(false) && nvs.Obj? && Get(nvs, "dirty") == Bool(false)
  }

  function NameOf(v: Json): string {
    if Get(v, "fingerprint").Str? then LowerHex(Get(v, "fingerprint").s) else ""
  }

  /** No two values are named alike. */
  ghost predicate NamesDistinct(values: seq<Json>) {
    forall i, j :: 0 <= i < j < |values| ==> NameOf(values[i]) != NameOf(values[j])
  }

  /** The loop over the threads that are shown. */
  method ThreadsDistinct(threads: seq<Json>) returns (ok: bool)
    ensures ok <==> (forall i :: 0 <= i < |threads| ==> ThreadValid(threads[i])) && NamesDistinct(threads)
  {
    hide NameOf, ThreadValid;
    var seen: set<string> := {};
    for i := 0 to |threads|
      invariant forall j :: 0 <= j < i ==> ThreadValid(threads[j]) && NameOf(threads[j]) in seen
      invariant forall n :: n in seen ==> exists j :: 0 <= j < i && NameOf(threads[j]) == n
      invariant forall j, k :: 0 <= j < k < i ==> NameOf(threads[j]) != NameOf(threads[k])
    {
      if !ThreadValid(threads[i]) || NameOf(threads[i]) in seen {
        return false;
      }
      seen := seen + {NameOf(threads[i])};
    }
    ok := true;
  }

  /** The first `n` cursors by fingerprint; an invalid or repeated one refuses all. */
  function Cursors(cursors: seq<Json>, n: nat): Option<map<string, Json>>
    requires n <= |cursors|
  {
    if n == 0 then Some(map[])
    else
      var sofar, cursor := Cursors(cursors, n - 1), cursors[n - 1];
      if sofar.None? || !CursorValid(cursor) || NameOf(cursor) in sofar.value then None
      else Some(sofar.value[NameOf(cursor) := Get(cursor, "last_read_seq")])
  }

  /** The loop over the persisted cursors. */
  method ProjectCursors(cursors: seq<Json>) returns (r: Option<map<string, Json>>)
    ensures r == Cursors(cursors, |cursors|)
  {
    hide NameOf, CursorValid;
    var projected: map<string, Json> := map[];
    for i := 0 to |cursors|
      invariant Cursors(cursors, i) == Some(projected)
    {
      if !CursorValid(cursors[i]) || NameOf(cursors[i]) in projected {
        CursorsRefused(cursors, i + 1, |cursors|);
        return None;
      }
      projected := projected[NameOf(cursors[i]) := Get(cursors[i], "last_read_seq")];
    }
    r := Some(projected);
  }

  lemma {:induction false} CursorsRefused(cursors: seq<Json>, i: nat, n: nat)
    requires i <= n <= |cursors| && Cursors(cursors, i).None?
    ensures Cursors(cursors, n).None?
  {
    hide NameOf, CursorValid;
    if i < n {
      CursorsRefused(cursors, i, n - 1);
    }
  }

  /** Every accepted cursor is kept under its own fingerprint, as an integer. */
  lemma {:induction false} CursorsKept(cursors: seq<Json>, n: nat)
    requires n <= |cursors| && Cursors(cursors, n).Some?
    ensures var m := Cursors(cursors, n).value;
      && |m| == n && (forall f :: f in m ==> m[f].Int?)
      && forall i :: 0 <= i < n ==> NameOf(cursors[i]) in m && m[NameOf(cursors[i])] == Get(cursors[i], "last_read_seq")
  {
    hide NameOf, Fingerprint;
    if n > 0 {
      CursorsKept(cursors, n - 1);
    }
  }

  /** What the read state must look like to be projected. */
  ghost predicate ReadAcceptable(result: Json) {
    && ReadResultValid(result)
    && (forall i :: 0 <= i < |Listed(result, "dm_threads")| ==> ThreadValid(Listed(result, "dm_threads")[i]))
    && NamesDistinct(Listed(result, "dm_threads"))
    && CursorsOf(result).Some?
  }

  function CursorsOf(result: Json): Option<map<string, Json>> {
    Cursors(Listed(result, "persisted_dm_cursors"), |Listed(result, "persisted_dm_cursors")|)
  }

  function Listed(result: Json, key: string): seq<Json> {
    if Get(result, key).Arr? then Get(result, key).items else []
  }

  // ----- the whole state

  /** The results of the snapshot's commands, sorted out by command. `settings` is the projection of
      the settings and the WiFi profiles, if they pass their checks. */
  datatype Snapshot = Snapshot(
    settings: Option<Json>, channels: Json, contacts: Json, readState: Json, publicPages: seq<Json>, directPages: seq<Json>,
    identity: Json)

  const PUBLIC_STATE := [
    "count", "capacity", "retained_store_count", "retained_public_count", "total_written", "dropped_oldest",
    "retained_epoch", "content_revision"]

  const DIRECT_STATE := [
    "count", "capacity", "retained_count", "total_written", "dropped_oldest", "retained_epoch", "content_revision"]

  function ContactsState(result: Json): Json {
    var persistence := Get(result, "persistence");
    Obj(map[
      "count" := Get(result, "count"), "capacity" := Get(result, "capacity"), "next_seq" := Get(result, "next_seq"),
      "total_written" := Get(result, "total_written"), "dropped_oldest" := Get(result, "dropped_oldest"),
      "persistence_revision" := Get(persistence, "revision"), "persistence_commits" := Get(persistence, "commits"),
      "persistence_coalesced" := Get(persistence, "coalesced"), "persistence_failures" := Get(persistence, "failures")])
  }

  function ReadState(result: Json, cursors: Json): Json {
    Obj(map[
      "cursor_capacity" := Get(result, "cursor_capacity"), "last_public_read_seq" := Get(result, "last_public_read_seq"),
      "last_dm_read_seq" := Get(result, "last_dm_read_seq"), "mark_read_count" := Get(result, "mark_read_count"),
      "persisted_dm_cursors" := cursors])
  }

  function Assembled(
      settings: Json, channels: Channels.Channels, publicRows: seq<Json>, publicState: Json, directRows: seq<Json>,
      directState: Json, contacts: seq<Json>, contactsState: Json, readState: Json, identityKey: string): Json
  {
    Obj(map[
      "settings" := settings, "channels" := Arr(channels.rows), "channel_state" := channels.state,
      "channel_cursors" := channels.cursors, "public_messages" := Arr(publicRows), "public_messages_state" := publicState,
      "direct_messages" := Arr(directRows), "direct_messages_state" := directState, "contacts" := Arr(contacts),
      "contacts_state" := contactsState, "read_state" := readState, "identity_public_key" := Str(identityKey)])
  }

  // ----- what every projection satisfies

  const PUBLIC_COUNTERS := ["count", "retained_store_count", "total_written", "dropped_oldest", "content_revision"]
  const READ_FIELDS := ["last_public_read_seq", "last_dm_read_seq", "mark_read_count"]
  const CONTACT_COUNTERS := ["next_seq", "total_written", "dropped_oldest"]

  predicate AllInts(o: Json, fields: seq<string>) {
    o.Obj? && forall i :: 0 <= i < |fields| ==> Get(o, fields[i]).Int?
  }

  /** The rows of a store: as many as it counts, sorted by text, with distinct sequence numbers. */
  ghost predicate StoreValid(t: Tools, rows: Json, state: Json) {
    && rows.Arr? && state.Obj? && Get(state, "count") == Int(|rows.items|) && Get(state, "capacity") == Int(Store.CAPACITY)
    && |rows.items| <= Store.CAPACITY && Store.SortedByText(t, rows.items) && DistinctSeqs(rows.items)
  }

  ghost predicate ContactsValid(t: Tools, rows: Json, state: Json) {
    && rows.Arr? && ContactRetention.Projection(t, rows).Some?
    && Get(state, "count") == Int(|rows.items|) && |rows.items| <= CONTACT_CAPACITY
    && PyEq(Get(state, "capacity"), Int(CONTACT_CAPACITY))
    && AllInts(state, CONTACT_COUNTERS) && Store.AtLeast(Get(state, "persistence_failures"), 0)
  }

  predicate ReadStateValid(state: Json) {
    var cursors := Get(state, "persisted_dm_cursors");
    && AllInts(state, READ_FIELDS) && cursors.Obj? && forall f :: f in cursors.fields ==> cursors.fields[f].Int?
  }

  ghost predicate Valid(t: Tools, s: Json) {
    && Channels.Comparable(Get(s, "channel_state"), Get(s, "channel_cursors"))
    && StoreValid(t, Get(s, "public_messages"), Get(s, "public_messages_state"))
    && AllInts(Get(s, "public_messages_state"), PUBLIC_COUNTERS)
    && PyEq(Get(Get(s, "public_messages_state"), "retained_public_count"), Get(Get(s, "public_messages_state"), "count"))
    && StoreValid(t, Get(s, "direct_messages"), Get(s, "direct_messages_state"))
    && ContactsValid(t, Get(s, "contacts"), Get(s, "contacts_state"))
    && ReadStateValid(Get(s, "read_state"))
  }

  // ----- the projection

  lemma CopiedGet(source: Json, keys: seq<string>, k: string)
    requires k in keys
    ensures Get(Channels.Copied(source, keys), k) == Get(source, k)
  {
  }

  /** The state object of a store keeps the fields of its first page. */
  lemma PublicStateOf(pages: seq<Json>)
    requires |pages| == 2 && Store.CountersValid(Store.Public, pages[0])
    ensures var state := Channels.Copied(pages[0], PUBLIC_STATE);
      && AllInts(state, PUBLIC_COUNTERS) && Get(state, "capacity") == Int(Store.CAPACITY)
      && PyEq(Get(state, "retained_public_count"), Get(state, "count")) && Get(state, "count") == Get(pages[0], "count")
  {
    var state := Channels.Copied(pages[0], PUBLIC_STATE);
    assert forall i :: 0 <= i < |PUBLIC_STATE| ==> PUBLIC_STATE[i] in PUBLIC_STATE;
    assert PUBLIC_STATE[0] in PUBLIC_STATE && PUBLIC_STATE[1] in PUBLIC_STATE && PUBLIC_STATE[2] in PUBLIC_STATE
        && PUBLIC_STATE[3] in PUBLIC_STATE && PUBLIC_STATE[4] in PUBLIC_STATE && PUBLIC_STATE[5] in PUBLIC_STATE
        && PUBLIC_STATE[7] in PUBLIC_STATE;
    CopiedGet(pages[0], PUBLIC_STATE, "count");
    CopiedGet(pages[0], PUBLIC_STATE, "capacity");
    CopiedGet(pages[0], PUBLIC_STATE, "retained_store_count");
    CopiedGet(pages[0], PUBLIC_STATE, "retained_public_count");
    CopiedGet(pages[0], PUBLIC_STATE, "total_written");
    CopiedGet(pages[0], PUBLIC_STATE, "dropped_oldest");
    CopiedGet(pages[0], PUBLIC_STATE, "content_revision");
    hide Get, PyEq;
  }

  lemma DirectStateOf(pages: seq<Json>)
    requires |pages| == 2 && Store.CountersValid(Store.Direct, pages[0])
    ensures var state := Channels.Copied(pages[0], DIRECT_STATE);
      state.Obj? && Get(state, "capacity") == Int(Store.CAPACITY) && Get(state, "count") == Get(pages[0], "count")
  {
    assert DIRECT_STATE[0] in DIRECT_STATE && DIRECT_STATE[1] in DIRECT_STATE;
    CopiedGet(pages[0], DIRECT_STATE, "count");
    CopiedGet(pages[0], DIRECT_STATE, "capacity");
    hide Get, PyEq;
  }

  lemma ContactsStateOf(t: Tools, result: Json, rows: seq<Json>)
    requires ContactsResultValid(result) && ContactRetention.Projection(t, Arr(rows)).Some?
    requires |rows| <= CONTACT_CAPACITY && Get(result, "count") == Int(|rows|)
    ensures ContactsValid(t, Arr(rows), ContactsState(result))
  {
    hide ContactRetention.Projection;
    var state, persistence := ContactsState(result), Get(result, "persistence");
    assert Get(state, "count") == Get(result, "count") && Get(state, "capacity") == Get(result, "capacity");
    assert Get(state, "next_seq") == Get(result, "next_seq") && Get(state, "total_written") == Get(result, "total_written");
    assert Get(state, "dropped_oldest") == Get(result, "dropped_oldest");
    assert Get(state, "persistence_failures") == Get(persistence, "failures");
    hide ContactsState, PyEq;
  }

  lemma ReadStateOf(result: Json, cursors: Json)
    requires ReadResultValid(result) && cursors.Obj? && forall f :: f in cursors.fields ==> cursors.fields[f].Int?
    ensures ReadStateValid(ReadState(result, cursors))
  {
    var state := ReadState(result, cursors);
    assert READ_COUNTERS[5] == READ_FIELDS[0] && READ_COUNTERS[6] == READ_FIELDS[1] && READ_COUNTERS[9] == READ_FIELDS[2];
    assert Get(state, READ_FIELDS[0]) == Get(result, READ_COUNTERS[5]);
    assert Get(state, READ_FIELDS[1]) == Get(result, READ_COUNTERS[6]);
    assert Get(state, READ_FIELDS[2]) == Get(result, READ_COUNTERS[9]);
    assert Get(state, "persisted_dm_cursors") == cursors;
    hide Get, PyEq, ReadState;
  }

  lemma AssembledValid(
      t: Tools, settings: Json, channels: Channels.Channels, publicRows: seq<Json>, publicState: Json, directRows: seq<Json>,
      directState: Json, contacts: seq<Json>, contactsState: Json, readState: Json, key: string)
    requires Channels.Comparable(channels.state, channels.cursors)
    requires StoreValid(t, Arr(publicRows), publicState) && AllInts(publicState, PUBLIC_COUNTERS)
    requires PyEq(Get(publicState, "retained_public_count"), Get(publicState, "count"))
    requires StoreValid(t, Arr(directRows), directState)
    requires ContactsValid(t, Arr(contacts), contactsState) && ReadStateValid(readState)
    ensures var s := Assembled(
        settings, channels, publicRows, publicState, directRows, directState, contacts, contactsState, readState, key);
      Valid(t, s) && Get(s, "public_messages_state") == publicState && Get(s, "direct_messages") == Arr(directRows)
  {
    hide StoreValid, AllInts, PyEq, ContactsValid, ReadStateValid, Channels.Comparable;
    var s := Assembled(
      settings, channels, publicRows, publicState, directRows, directState, contacts, contactsState, readState, key);
    assert Get(s, "channel_state") == channels.state && Get(s, "channel_cursors") == channels.cursors;
    assert Get(s, "public_messages") == Arr(publicRows) && Get(s, "public_messages_state") == publicState;
    assert Get(s, "direct_messages") == Arr(directRows) && Get(s, "direct_messages_state") == directState;
    assert Get(s, "contacts") == Arr(contacts) && Get(s, "contacts_state") == contactsState;
    assert Get(s, "read_state") == readState;
    hide Assembled;
  }

  function StoreRows(t: Tools, pages: seq<Json>): seq<Json>
    requires |pages| == 2
  {
    Store.Sort(t, Store.Rows(pages[0]) + Store.Rows(pages[1]))
  }

  /** Exactly the snapshots that are projected. */
  ghost predicate Projectable(t: Tools, snapshot: Snapshot)
    requires |snapshot.publicPages| == 2 && |snapshot.directPages| == 2
  {
    && snapshot.settings.Some? && Channels.Acceptable(t, snapshot.channels) && ContactsAcceptable(t, snapshot.contacts)
    && ReadAcceptable(snapshot.readState) && Store.Acceptable(Store.Public, snapshot.publicPages)
    && Store.Acceptable(Store.Direct, snapshot.directPages) && Channels.IdentityValid(t, snapshot.identity)
  }

  /** What they are projected to. */
  ghost function ProjectionOf(t: Tools, snapshot: Snapshot): Json
    requires |snapshot.publicPages| == 2 && |snapshot.directPages| == 2 && Projectable(t, snapshot)
  {
    ChannelsAccepted(t, snapshot.channels);
    Assembled(
      snapshot.settings.value, Channels.ChannelsOf(snapshot.channels), StoreRows(t, snapshot.publicPages),
      Channels.Copied(snapshot.publicPages[0], PUBLIC_STATE), StoreRows(t, snapshot.directPages),
      Channels.Copied(snapshot.directPages[0], DIRECT_STATE), Store.Sort(t, Store.Rows(snapshot.contacts)),
      ContactsState(snapshot.contacts), ReadState(snapshot.readState, Obj(CursorsOf(snapshot.readState).value)),
      ContactRetention.ExactPublicKey(t, Get(snapshot.identity, "public_key")).value)
  }

  lemma ChannelsAccepted(t: Tools, result: Json)
    requires Channels.Acceptable(t, result)
    ensures Channels.Project(Channels.Entries(result), |Channels.Entries(result)|).Some?
  {
    Channels.AcceptedExactly(Channels.Entries(result), |Channels.Entries(result)|);
    hide Channels.ChannelsResultValid, Channels.ChannelValid, Channels.Project;
  }

  lemma ReadsValid(result: Json)
    requires ReadAcceptable(result)
    ensures ReadStateValid(ReadState(result, Obj(CursorsOf(result).value)))
  {
    CursorsKept(Listed(result, "persisted_dm_cursors"), |Listed(result, "persisted_dm_cursors")|);
    ReadStateOf(result, Obj(CursorsOf(result).value));
    hide Cursors, ReadResultValid, ThreadValid, NamesDistinct, ReadState, ReadStateValid, Listed;
  }

  lemma ContactsAreValid(t: Tools, result: Json)
    requires ContactsAcceptable(t, result)
    ensures ContactsValid(t, Arr(Store.Sort(t, Store.Rows(result))), ContactsState(result))
  {
    ContactStoreSize(t, result);
    ContactsStateOf(t, result, Store.Sort(t, Store.Rows(result)));
    hide ContactsResultValid, ContactRetention.Projection, ContactsValid, ContactsState, Store.Sort, Store.Rows;
  }

  /** Whatever is projected has the shape the comparison relies on. */
  lemma ProjectedIsValid(t: Tools, snapshot: Snapshot)
    requires |snapshot.publicPages| == 2 && |snapshot.directPages| == 2 && Projectable(t, snapshot)
    ensures Valid(t, ProjectionOf(t, snapshot))
    ensures Get(ProjectionOf(t, snapshot), "public_messages_state") == Channels.Copied(snapshot.publicPages[0], PUBLIC_STATE)
    ensures Get(ProjectionOf(t, snapshot), "direct_messages") == Arr(StoreRows(t, snapshot.directPages))
  {
    var cursors := CursorsOf(snapshot.readState).value;
    var key := ContactRetention.ExactPublicKey(t, Get(snapshot.identity, "public_key")).value;
    hide Valid, StoreValid, ContactsValid, ReadStateValid, Store.Acceptable, Assembled, Get, PyEq, ReadAcceptable,
      ContactsAcceptable, Channels.Acceptable, Channels.ChannelsOf, Channels.IdentityValid, Channels.Comparable, AllInts,
      Channels.Copied, ContactsState, ReadState;
    ChannelsAccepted(t, snapshot.channels);
    Channels.ProjectedComparable(t, snapshot.channels);
    PublicStoreValid(t, snapshot.publicPages);
    DirectStoreValid(t, snapshot.directPages);
    ContactsAreValid(t, snapshot.contacts);
    ReadsValid(snapshot.readState);
    AssembledValid(
      t, snapshot.settings.value, Channels.ChannelsOf(snapshot.channels), StoreRows(t, snapshot.publicPages),
      Channels.Copied(snapshot.publicPages[0], PUBLIC_STATE), StoreRows(t, snapshot.directPages),
      Channels.Copied(snapshot.directPages[0], DIRECT_STATE), Store.Sort(t, Store.Rows(snapshot.contacts)),
      ContactsState(snapshot.contacts), ReadState(snapshot.readState, Obj(cursors)), key);
  }

  method ProjectReads(result: Json) returns (r: Option<map<string, Json>>)
    ensures r.Some? <==> ReadAcceptable(result)
    ensures r.Some? ==> r == CursorsOf(result)
  {
    hide ReadResultValid, NamesDistinct, ThreadValid, Cursors, Listed;
    if !ReadResultValid(result) {
      return None;
    }
    var distinct := ThreadsDistinct(Listed(result, "dm_threads"));
    if !distinct {
      return None;
    }
    r := ProjectCursors(Listed(result, "persisted_dm_cursors"));
  }

  /** `retained_state_projection` on the results sorted out by command: channels, settings, contacts,
      read state, Public store, direct messages, identity. */
  method ProjectRetainedState(t: Tools, snapshot: Snapshot) returns (r: Option<Json>)
    requires |snapshot.publicPages| == 2 && |snapshot.directPages| == 2
    ensures r.Some? <==> Projectable(t, snapshot)
    ensures r.Some? ==> r.value == ProjectionOf(t, snapshot) && Valid(t, r.value)
  {
    if Projectable(t, snapshot) {
      ProjectedIsValid(t, snapshot);
    }
    hide Valid, Store.Acceptable, Assembled, Get, ContactsAcceptable, ReadAcceptable, Channels.Acceptable,
      Channels.ChannelsOf, Channels.IdentityValid, Channels.Project, Channels.Copied, Store.Sort, Store.Rows, CursorsOf;
    var channels := Channels.ChannelsProjection(t, snapshot.channels);
    if channels.None? {
      return None;
    }
    if snapshot.settings.None? {
      return None;
    }
    var contacts := ProjectContacts(t, snapshot.contacts);
    if contacts.None? {
      return None;
    }
    var cursors := ProjectReads(snapshot.readState);
    if cursors.None? {
      return None;
    }
    var publicRows := Store.ProjectStore(t, Store.Public, snapshot.publicPages);
    if publicRows.None? {
      return None;
    }
    var directRows := Store.ProjectStore(t, Store.Direct, snapshot.directPages);
    if directRows.None? {
      return None;
    }
    var key := ContactRetention.ExactPublicKey(t, Get(snapshot.identity, "public_key"));
    if !Channels.IdentityValid(t, snapshot.identity) {
      return None;
    }
    IdentityHasKey(t, snapshot.identity);
    r := Some(Assembled(
      snapshot.settings.value, channels.value, publicRows.value, Channels.Copied(snapshot.publicPages[0], PUBLIC_STATE),
      directRows.value, Channels.Copied(snapshot.directPages[0], DIRECT_STATE), contacts.value, ContactsState(snapshot.contacts),
      ReadState(snapshot.readState, Obj(cursors.value)), key.value));
  }

  lemma IdentityHasKey(t: Tools, identity: Json)
    requires Channels.IdentityValid(t, identity)
    ensures ContactRetention.ExactPublicKey(t, Get(identity, "public_key")).Some?
  {
  }

  lemma PublicStoreValid(t: Tools, pages: seq<Json>)
    requires |pages| == 2 && Store.Acceptable(Store.Public, pages)
    ensures var state := Channels.Copied(pages[0], PUBLIC_STATE);
      && StoreValid(t, Arr(Store.Sort(t, Store.Rows(pages[0]) + Store.Rows(pages[1]))), state)
      && AllInts(state, PUBLIC_COUNTERS) && PyEq(Get(state, "retained_public_count"), Get(state, "count"))
  {
    Store.StoreSize(t, Store.Public, pages);
    PublicStateOf(pages);
    hide Get, PyEq, Channels.Copied, Store.PageValid, Store.CountersValid, Store.Settled, Store.Sort, Store.Rows;
  }

  lemma DirectStoreValid(t: Tools, pages: seq<Json>)
    requires |pages| == 2 && Store.Acceptable(Store.Direct, pages)
    ensures StoreValid(
      t, Arr(Store.Sort(t, Store.Rows(pages[0]) + Store.Rows(pages[1]))), Channels.Copied(pages[0], DIRECT_STATE))
  {
    Store.StoreSize(t, Store.Direct, pages);
    DirectStateOf(pages);
    hide Get, PyEq, Channels.Copied, Store.PageValid, Store.CountersValid, Store.Settled, Store.Sort, Store.Rows;
  }
}
