/** A whole snapshot with one message in each store, projected and compared with itself. */
module SnapshotExample {
  import opened JsonModel
  import opened Results
  import opened RetainedState
  import opened RetainedRelation
  import opened Text
  import Channels = RetainedChannels
  import E = RetainedExample
  import Store = RetainedStore

  // ----- the other results

  function ContactsPersistence(): Json {
    Obj(map[
      "loaded" := Bool(true), "dirty" := Bool(false), "revision" := Int(0), "commits" := Int(0), "coalesced" := Int(0),
      "failures" := Int(0), "last_error" := Str("ESP_OK"),
      "sd" := Obj(map["required" := Bool(true), "generation" := Int(1), "reconcile_pending" := Bool(false)])])
  }

  /** No contacts. */
  function Contacts(): Json {
    Obj(map[
      "entries" := Arr([]), "count" := Int(0), "capacity" := Int(16), "next_seq" := Int(1), "total_written" := Int(0),
      "dropped_oldest" := Int(0), "persisted" := Bool(true), "persistence" := ContactsPersistence()])
  }

  function ReadPersistence(): Json {
    Obj(map[
      "loaded" := Bool(true), "dirty" := Bool(false), "revision" := Int(0), "commits" := Int(0), "failures" := Int(0),
      "last_error" := Str("ESP_OK"), "clear_tombstone_pending" := Bool(false), "nvs" := Obj(map["dirty" := Bool(false)]),
      "sd" := Obj(map[
        "required" := Bool(true), "accepted_generation" := Int(1), "generation" := Int(1), "dirty" := Bool(false),
        "reconcile_pending" := Bool(false)])])
  }

  function ReadCounters(): map<string, Json> {
    map k | k in READ_COUNTERS :: Int(0)
  }

  function ReadRest(): map<string, Json> {
    map[
      "cursor_capacity" := Int(16), "dm_threads" := Arr([]), "persisted_dm_cursors" := Arr([]), "persisted" := Bool(true),
      "persistence" := ReadPersistence()]
  }

  /** Nothing was read yet. */
  function Reads(): Json {
    Obj(ReadCounters() + ReadRest())
  }

  const ACTIVE := "0123456789abcdef"

  function Channel(): Json {
    Obj(map[
      "channel_id" := Str(ACTIVE), "name" := Str("Public"), "source" := Str("builtin"), "enabled" := Bool(true),
      "selected" := Bool(true), "unread" := Int(0), "newest_message_seq" := Int(0), "read_through_seq" := Int(0)])
  }

  function ChannelList(): Json {
    Obj(map[
      "schema" := Int(1), "cmd" := Str("channels"), "ok" := Bool(true), "count" := Int(1), "capacity" := Int(8),
      "revision" := Int(1), "active_channel_id" := Str(ACTIVE), "entries" := Arr([Channel()]), "persisted" := Bool(true),
      "secret_material_redacted" := Bool(true), "public_rf_tx" := Bool(false), "formats_sd" := Bool(false)])
  }

  function Identity(key: string): Json
    requires |key| >= 16
  {
    Obj(map[
      "public_key" := Str(key), "public_key_ready" := Bool(true), "fingerprint" := Str(Channels.UpperHex(key[..16])),
      "role" := Str(Channels.ROLE)])
  }

  function Example(counted: Json, key: string): Snapshot
    requires |key| >= 16
  {
    Snapshot(
      Some(Null), ChannelList(), Contacts(), Reads(), E.Pages(Store.Public, counted), E.Pages(Store.Direct, counted),
      Identity(key))
  }

  // ----- they are accepted

  lemma ContactsSettled()
    ensures var p := ContactsPersistence(); var sd := Get(p, "sd");
      && p.Obj? && Get(p, "loaded") == Bool(true) && Get(p, "dirty") == Bool(false) && Get(p, "revision") == Int(0)
      && Get(p, "commits") == Int(0) && Get(p, "coalesced") == Int(0) && Get(p, "failures") == Int(0)
      && Get(p, "last_error") == Str("ESP_OK")
      && sd.Obj? && Get(sd, "required") == Bool(true) && Get(sd, "generation") == Int(1)
      && Get(sd, "reconcile_pending") == Bool(false)
  {
  }

  lemma ContactsFields()
    ensures var c := Contacts();
      && Get(c, "entries") == Arr([]) && Get(c, "count") == Int(0) && Get(c, "capacity") == Int(16)
      && Get(c, "next_seq") == Int(1) && Get(c, "total_written") == Int(0) && Get(c, "dropped_oldest") == Int(0)
      && Get(c, "persisted") == Bool(true) && Get(c, "persistence") == ContactsPersistence()
  {
    hide ContactsPersistence;
  }

  lemma ContactsAccepted(t: Tools)
    ensures ContactsAcceptable(t, Contacts())
  {
    ContactsFields();
    ContactsSettled();
    hide Contacts, ContactsPersistence, Get;
  }

  lemma ReadSettled()
    ensures var p := ReadPersistence(); var nvs := Get(p, "nvs");
      && p.Obj? && Get(p, "loaded") == Bool(true) && Get(p, "dirty") == Bool(false) && Get(p, "revision") == Int(0)
      && Get(p, "commits") == Int(0) && Get(p, "failures") == Int(0) && Get(p, "last_error") == Str("ESP_OK")
      && Get(p, "clear_tombstone_pending") == Bool(false) && nvs.Obj? && Get(nvs, "dirty") == Bool(false)
  {
  }

  lemma ReadCardSettled()
    ensures var sd := Get(ReadPersistence(), "sd");
      && sd.Obj? && Get(sd, "required") == Bool(true) && Get(sd, "accepted_generation") == Int(1)
      && Get(sd, "generation") == Int(1) && Get(sd, "dirty") == Bool(false) && Get(sd, "reconcile_pending") == Bool(false)
  {
  }

  lemma ReadApart()
    ensures ReadCounters().Keys !! ReadRest().Keys
  {
    hide ReadPersistence;
  }

  lemma ReadCounted(i: nat)
    requires i < |READ_COUNTERS|
    ensures Get(Reads(), READ_COUNTERS[i]) == Int(0)
  {
    ReadApart();
    assert READ_COUNTERS[i] in READ_COUNTERS && READ_COUNTERS[i] in ReadCounters();
    hide ReadRest;
  }

  lemma AllCounted()
    ensures forall i :: 0 <= i < |READ_COUNTERS| ==> Get(Reads(), READ_COUNTERS[i]) == Int(0)
    ensures Get(Reads(), "dm_thread_count") == Int(0) && Get(Reads(), "persisted_dm_cursor_count") == Int(0)
  {
    assert READ_COUNTERS[3] == "dm_thread_count" && READ_COUNTERS[4] == "persisted_dm_cursor_count";
    hide *;
    forall i | 0 <= i < |READ_COUNTERS| ensures Get(Reads(), READ_COUNTERS[i]) == Int(0) {
      ReadCounted(i);
    }
  }

  lemma ReadFields()
    ensures var r := Reads();
      && Get(r, "cursor_capacity") == Int(16) && Get(r, "dm_threads") == Arr([]) && Get(r, "persisted_dm_cursors") == Arr([])
      && Get(r, "persisted") == Bool(true) && Get(r, "persistence") == ReadPersistence()
  {
    hide ReadPersistence, ReadCounters;
  }

  lemma ReadsAccepted()
    ensures ReadAcceptable(Reads())
  {
    ReadFields();
    ReadSettled();
    ReadCardSettled();
    AllCounted();
    hide Reads, ReadPersistence, Get, ThreadValid;
  }

  lemma ChannelFields()
    ensures var c := Channel();
      && Get(c, "channel_id") == Str(ACTIVE) && Get(c, "name") == Str("Public") && Get(c, "source") == Str("builtin")
      && Get(c, "enabled") == Bool(true) && Get(c, "selected") == Bool(true) && Get(c, "unread") == Int(0)
      && Get(c, "newest_message_seq") == Int(0) && Get(c, "read_through_seq") == Int(0)
  {
  }

  lemma ActiveIsHex()
    ensures Hex(ACTIVE, 16)
  {
  }

  lemma ChannelAccepted()
    ensures Channels.ChannelValid(Channel()) && Channels.Selected(Channel()) && Channels.Id(Channel()) == ACTIVE
  {
    ChannelFields();
    ActiveIsHex();
    hide Get, Hex;
  }

  lemma ListKeys()
    ensures ChannelList().fields.Keys == {
      "schema", "cmd", "ok", "count", "capacity", "revision", "active_channel_id", "entries", "persisted",
      "secret_material_redacted", "public_rf_tx", "formats_sd"}
  {
    hide Channel;
  }

  lemma ListFields()
    ensures var c := ChannelList();
      && Get(c, "count") == Int(1) && Get(c, "capacity") == Int(8) && Get(c, "revision") == Int(1)
      && Get(c, "active_channel_id") == Str(ACTIVE) && Get(c, "entries") == Arr([Channel()])
      && Get(c, "persisted") == Bool(true) && Get(c, "secret_material_redacted") == Bool(true)
      && Get(c, "public_rf_tx") == Bool(false) && Get(c, "formats_sd") == Bool(false)
  {
    hide Channel;
  }

  lemma ListAccepted(t: Tools)
    requires !Channels.ContainsSecret(t, ChannelList())
    ensures Channels.Acceptable(t, ChannelList())
  {
    ListKeys();
    ListFields();
    ChannelAccepted();
    ActiveIsHex();
    assert ChannelList().Obj?;
    hide Get, Hex, Channel, ChannelList, Channels.ChannelValid, Channels.Selected, Channels.Id, Channels.ContainsSecret;
    assert Channels.Entries(ChannelList()) == [Channel()];
    assert [Channel()][0] == Channel();
  }

  lemma IdentityAccepted(t: Tools, key: string)
    requires Hex(key, 64) && t.fold(key) == key
    ensures Channels.IdentityValid(t, Identity(key))
  {
    assert Get(Identity(key), "public_key") == Str(key) && Get(Identity(key), "public_key_ready") == Bool(true);
    assert Get(Identity(key), "role") == Str(Channels.ROLE);
    assert Get(Identity(key), "fingerprint") == Str(Channels.UpperHex(key[..16]));
    hide Identity, Channels.UpperHex, Get;
  }

  /** `key` is a key, and the channel list has no secret field. */
  predicate Fits(t: Tools, key: string) {
    Hex(key, 64) && t.fold(key) == key && !Channels.ContainsSecret(t, ChannelList())
  }

  /** What the example projects to. */
  ghost function Projected(t: Tools, counted: Json, key: string): Json
    requires Fits(t, key) && PyEq(counted, Int(1))
  {
    ExampleProjectable(t, counted, key);
    ProjectionOf(t, Example(counted, key))
  }

  lemma ExampleProjectable(t: Tools, counted: Json, key: string)
    requires Fits(t, key) && PyEq(counted, Int(1))
    ensures Projectable(t, Example(counted, key))
  {
    hide ContactsAcceptable, ReadAcceptable, Store.Acceptable, Channels.Acceptable, Channels.IdentityValid,
      Channels.ContainsSecret, Hex, E.Pages;
    ContactsAccepted(t);
    ReadsAccepted();
    ListAccepted(t);
    IdentityAccepted(t, key);
    E.StoreAccepted(Store.Public, counted);
    E.StoreAccepted(Store.Direct, counted);
  }

  lemma ExampleFields(t: Tools, counted: Json, key: string)
    requires Fits(t, key) && PyEq(counted, Int(1))
    ensures var s := Projected(t, counted, key);
      && Valid(t, s) && Get(Get(s, "public_messages_state"), "retained_public_count") == counted
      && Get(s, "direct_messages").Arr? && |Items(Get(s, "direct_messages"))| == 1
  {
    assert |E.Pages(Store.Public, counted)| == |E.Pages(Store.Direct, counted)| == 2;
    hide Fits, PyEq, ProjectionOf, Valid, E.Pages, Get, Channels.Copied, Projectable, StoreRows;
    ExampleProjectable(t, counted, key);
    ProjectedIsValid(t, Example(counted, key));
    FirstPageCounts(counted);
    OneDirectMessage(t, counted);
  }

  lemma OneDirectMessage(t: Tools, counted: Json)
    requires PyEq(counted, Int(1))
    ensures |StoreRows(t, E.Pages(Store.Direct, counted))| == 1
  {
    E.StoreAccepted(Store.Direct, counted);
    Store.StoreSize(t, Store.Direct, E.Pages(Store.Direct, counted));
    E.CounterValues(Store.Direct, counted, [E.Message()], 0);
    hide Store.Acceptable, Get, Store.Sort, Store.Rows, E.Page;
  }

  lemma FirstPageCounts(counted: Json)
    ensures Get(Channels.Copied(E.Pages(Store.Public, counted)[0], PUBLIC_STATE), "retained_public_count") == counted
  {
    E.KindValues(Store.Public, counted, [E.Message()], 0);
    assert PUBLIC_STATE[3] in PUBLIC_STATE;
    CopiedGet(E.Pages(Store.Public, counted)[0], PUBLIC_STATE, "retained_public_count");
    hide Get, Channels.Copied, E.Page;
  }

  /** A snapshot whose Public store counts its one retained row as `true` is projected, and the result
      is not preserved by itself. */
  lemma CountMayBeBoolean(t: Tools, key: string)
    requires Fits(t, key)
    ensures PyEq(Bool(true), Int(1)) && Projectable(t, Example(Bool(true), key))
    ensures var s := Projected(t, Bool(true), key); Valid(t, s) && !Preserved(t, s, s)
  {
    assert PyEq(Bool(true), Int(1));
    hide PyEq, Fits, Projectable, Projected, Valid, Preserved, Get;
    ExampleProjectable(t, Bool(true), key);
    ExampleFields(t, Bool(true), key);
    ReflexiveExactly(t, Projected(t, Bool(true), key));
  }

  /** Two equal snapshots meet the assumptions under which preserved messages are the same. */
  lemma AssumptionsAreMet(t: Tools, key: string)
    requires Fits(t, key)
    ensures PyEq(Int(1), Int(1)) && Projectable(t, Example(Int(1), key))
    ensures var s := Projected(t, Int(1), key);
      var direct := Items(Get(s, "direct_messages"));
      Valid(t, s) && Preserved(t, s, s) && |direct| == 1 && TextsApart(t, direct + direct)
  {
    assert PyEq(Int(1), Int(1));
    hide PyEq, Fits, Projectable, Projected, Valid, Preserved, Get;
    ExampleProjectable(t, Int(1), key);
    ExampleFields(t, Int(1), key);
    ReflexiveExactly(t, Projected(t, Int(1), key));
    OneRowApart(t, Items(Get(Projected(t, Int(1), key), "direct_messages")));
    hide TextsApart, Items;
  }

  lemma OneRowApart(t: Tools, rows: seq<Json>)
    requires |rows| == 1
    ensures TextsApart(t, rows + rows)
  {
    assert forall x :: x in rows + rows ==> x == rows[0];
  }

  // ----- tools that fit

  function Key(): string {
    seq(64, i => '0')
  }

  /** Everything is folded into a key. */
  function Fold(s: string): string { Key() }

  lemma NoSecretKey(t: Tools, k: string)
    requires t.fold == Fold
    ensures !Channels.SecretKey(t, k)
  {
    var zeros := Channels.Underscored(Key());
    forall i, j: nat | 0 <= i < |Channels.SECRET_MARKERS| && j <= |zeros|
      ensures !OccursAt(zeros, Channels.SECRET_MARKERS[i], j)
    {
      var marker := Channels.SECRET_MARKERS[i];
      assert marker[0] != '0';
      if j + |marker| <= |zeros| {
        assert zeros[j..j + |marker|][0] == '0';
      }
    }
  }

  lemma {:induction false} NoSecretAnywhere(t: Tools, v: Json)
    requires t.fold == Fold
    ensures !Channels.ContainsSecret(t, v)
  {
    hide Channels.SecretKey;
    match v {
      case Obj(fields) =>
        forall k | k in fields ensures !Channels.SecretKey(t, k) && !Channels.ContainsSecret(t, fields[k]) {
          NoSecretKey(t, k);
          NoSecretAnywhere(t, fields[k]);
        }
      case Arr(items) =>
        forall i | 0 <= i < |items| ensures !Channels.ContainsSecret(t, items[i]) {
          NoSecretAnywhere(t, items[i]);
        }
      case _ =>
    }
  }

  /** Some tools and some key fit. */
  lemma Fitting(t: Tools)
    requires t.fold == Fold
    ensures Fits(t, Key())
  {
    NoSecretAnywhere(t, ChannelList());
    hide Channels.ContainsSecret, ChannelList;
  }
}
