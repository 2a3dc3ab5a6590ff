/** Exactly which retained-state snapshots are projected, field by field. */
module SnapshotMeaning {
  import opened JsonModel
  import opened Results
  import opened RetainedState
  import opened RowPreservation
  import opened Text
  import Channels = RetainedChannels
  import ContactRetention
  import Store = RetainedStore

  /** An integer that is not smaller. */
  predicate Counts(o: Json, field: string, least: int) {
    Get(o, field).Int? && Get(o, field).n >= least
  }

  predicate Is(o: Json, field: string, flag: bool) {
    Get(o, field) == Bool(flag)
  }

  predicate Equals(o: Json, field: string, n: int) {
    PyEq(Get(o, field), Int(n))
  }

  predicate Agree(a: Json, b: Json, field: string) {
    PyEq(Get(a, field), Get(b, field))
  }

  function Rows(page: Json): seq<Json> {
    if Get(page, "entries").Arr? then Get(page, "entries").items else []
  }

  // ----- the two stores

  /** The numbers of a page of a store of `n` rows, eight to a page. */
  predicate IsNumbered(page: Json, n: int, offset: int) {
    && |Rows(page)| == (if offset == 0 then if n < 8 then n else 8 else if n > 8 then n - 8 else 0)
    && Equals(page, "page_count", |Rows(page)|) && Equals(page, "count", n) && Equals(page, "capacity", 16)
    && Equals(page, "offset", offset) && Equals(page, "page_size", 8) && Is(page, "has_older", offset == 0 && n > 8)
    && Equals(page, "next_offset", if offset > 0 || n > 8 then 8 else 0)
  }

  predicate IsPlaced(page: Json, n: int, offset: int) {
    && IsNumbered(page, n, offset) && Get(page, "entries").Arr? && (forall row :: row in Rows(page) ==> row.Obj?)
    && Is(page, "filtered", false) && Is(page, "volatile_preview_present", false) && Equals(page, "volatile_preview_seq", 0)
    && Is(page, "persisted", true)
  }

  /** It repeats what its first page says of the store. */
  predicate IsPage(first: Json, page: Json, n: int, offset: int) {
    && IsPlaced(page, n, offset)
    && Agree(page, first, "total_written") && Agree(page, first, "dropped_oldest") && Agree(page, first, "retained_epoch")
    && Agree(page, first, "content_revision") && Agree(page, first, "persistence")
  }

  predicate IsPublicPage(first: Json, page: Json, n: int, offset: int) {
    && IsPage(first, page, n, offset) && Agree(page, first, "retained_store_count")
    && Agree(page, first, "retained_public_count") && PyEq(Get(page, "total_matches"), Get(first, "retained_public_count"))
    && Get(page, "history_counters_scope") == Str("shared_all_channels")
  }

  predicate IsDirectPage(first: Json, page: Json, n: int, offset: int) {
    && IsPage(first, page, n, offset) && Agree(page, first, "retained_count")
    && PyEq(Get(page, "total_matches"), Get(first, "retained_count"))
  }

  /** The store is on the card and clean. */
  predicate OnCard(first: Json) {
    var persistence := Get(first, "persistence");
    var sd := Get(persistence, "sd");
    && persistence.Obj? && Is(first, "persisted", true) && Is(persistence, "loaded", true) && Is(persistence, "dirty", false)
    && sd.Obj? && Is(sd, "required", true) && Is(sd, "dirty", false) && Is(sd, "reconcile_pending", false)
    && Get(sd, "last_error") == Str("ESP_OK")
  }

  /** Every row is retained, and no two have the same sequence number. */
  ghost predicate Retained(rows: seq<Json>) {
    && (forall row :: row in rows ==> Counts(row, "seq", 1) && Is(row, "retained", true) && Is(row, "volatile_preview", false))
    && forall i, j :: 0 <= i < j < |rows| ==> Get(rows[i], "seq") != Get(rows[j], "seq")
  }

  ghost predicate IsPublicStore(first: Json, second: Json) {
    && IsPublicHead(first) && OnCard(first)
    && IsPublicPage(first, first, Get(first, "count").n, 0) && IsPublicPage(first, second, Get(first, "count").n, 8)
    && Retained(Rows(first) + Rows(second))
  }

  /** The counters of the Public store. */
  predicate IsPublicHead(first: Json) {
    && Counts(first, "count", 0)
    && var n := Get(first, "count").n;
    && Get(first, "capacity") == Int(16) && n <= 16
    && Counts(first, "retained_store_count", n) && Get(first, "retained_store_count").n <= 16
    && Equals(first, "retained_public_count", n) && Counts(first, "total_written", Get(first, "retained_store_count").n)
    && Counts(first, "dropped_oldest", 0) && Counts(first, "retained_epoch", 1) && Counts(first, "content_revision", 1)
  }

  ghost predicate IsDirectStore(first: Json, second: Json) {
    && IsDirectHead(first) && OnCard(first)
    && IsDirectPage(first, first, Get(first, "count").n, 0) && IsDirectPage(first, second, Get(first, "count").n, 8)
    && Retained(Rows(first) + Rows(second))
  }

  /** The counters of the direct-message store. */
  predicate IsDirectHead(first: Json) {
    && Counts(first, "count", 0)
    && var n := Get(first, "count").n;
    && Get(first, "capacity") == Int(16) && n <= 16
    && Get(first, "retained_count") == Int(n) && Equals(first, "total_matches", n) && Counts(first, "total_written", n)
    && Counts(first, "dropped_oldest", 0) && Counts(first, "retained_epoch", 1) && Counts(first, "content_revision", 1)
  }

  lemma NumbersExactly(page: Json, n: int, offset: int)
    requires offset in {0, 8}
    ensures Store.Placed(page, n, offset) && |Rows(page)| == Store.PageCount(n, offset) <==> IsNumbered(page, n, offset)
  {
    hide PyEq, Get, Rows;
  }

  lemma PlacedExactly(kind: Store.Kind, first: Json, page: Json, offset: int)
    requires Get(first, "count").Int? && offset in {0, 8}
    ensures Store.PageValid(kind, first, page, offset) <==>
      IsPlaced(page, Get(first, "count").n, offset) && Store.Repeats(kind, first, page)
  {
    assert Store.Rows(page) == Rows(page);
    EachRow(Rows(page));
    NumbersExactly(page, Get(first, "count").n, offset);
    hide PyEq, Get, Rows, Store.Rows, Store.Repeats, Store.Placed, Store.PageCount, IsNumbered;
  }

  lemma PublicPageExactly(first: Json, page: Json, offset: int)
    requires Get(first, "count").Int? && offset in {0, 8}
    ensures Store.PageValid(Store.Public, first, page, offset) <==>
      IsPublicPage(first, page, Get(first, "count").n, offset)
  {
    PlacedExactly(Store.Public, first, page, offset);
    hide PyEq, Get, IsPlaced, Store.PageValid;
  }

  lemma DirectPageExactly(first: Json, page: Json, offset: int)
    requires Get(first, "count").Int? && offset in {0, 8}
    ensures Store.PageValid(Store.Direct, first, page, offset) <==>
      IsDirectPage(first, page, Get(first, "count").n, offset)
  {
    PlacedExactly(Store.Direct, first, page, offset);
    hide PyEq, Get, IsPlaced, Store.PageValid;
  }

  lemma EachRow(rows: seq<Json>)
    ensures (forall i :: 0 <= i < |rows| ==> rows[i].Obj?) <==> forall row :: row in rows ==> row.Obj?
  {
    if forall row :: row in rows ==> row.Obj? {
      assert forall i :: 0 <= i < |rows| ==> rows[i] in rows;
    }
  }

  lemma RetainedExactly(rows: seq<Json>)
    ensures Retained(rows) <==> (forall row :: row in rows ==> Store.RowValid(row)) && DistinctSeqs(rows)
  {
    forall row ensures Store.RowValid(row) <==>
        Counts(row, "seq", 1) && Is(row, "retained", true) && Is(row, "volatile_preview", false) {
    }
    assert forall row :: Store.RowValid(row) ==> Get(row, "seq") == Int(Seq(row));
    hide Store.RowValid, Counts, Is, Seq, Get;
    if forall row :: row in rows ==> Store.RowValid(row) {
      SeqsApart(rows);
    }
  }

  lemma SeqsApart(rows: seq<Json>)
    requires forall row :: row in rows ==> Get(row, "seq") == Int(Seq(row))
    ensures DistinctSeqs(rows) <==> forall i, j :: 0 <= i < j < |rows| ==> Get(rows[i], "seq") != Get(rows[j], "seq")
  {
    hide Get, Seq;
    assert forall i :: 0 <= i < |rows| ==> rows[i] in rows;
    if DistinctSeqs(rows) {
      forall i, j | 0 <= i < j < |rows| ensures Get(rows[i], "seq") != Get(rows[j], "seq") {
        assert Seq(rows[i]) != Seq(rows[j]);
      }
    }
    if forall i, j :: 0 <= i < j < |rows| ==> Get(rows[i], "seq") != Get(rows[j], "seq") {
      forall i, j | 0 <= i < j < |rows| ensures Seq(rows[i]) != Seq(rows[j]) {
        assert Get(rows[i], "seq") != Get(rows[j], "seq");
      }
    }
  }

  lemma HeadsExactly(first: Json)
    ensures Store.CountersValid(Store.Public, first) <==> IsPublicHead(first)
    ensures Store.CountersValid(Store.Direct, first) <==> IsDirectHead(first)
    ensures Store.Settled(first) <==> OnCard(first)
  {
    hide PyEq, Get;
  }

  lemma PublicStoreExactly(first: Json, second: Json)
    ensures Store.Acceptable(Store.Public, [first, second]) <==> IsPublicStore(first, second)
  {
    assert Store.Rows(first) == Rows(first) && Store.Rows(second) == Rows(second);
    RetainedExactly(Rows(first) + Rows(second));
    HeadsExactly(first);
    assert IsPublicHead(first) ==> Get(first, "count").Int?;
    hide Store.RowValid, DistinctSeqs, Retained, Rows, Store.Rows, Get, Store.CountersValid, IsPublicHead, Store.Settled, OnCard,
      Store.PageValid, IsPublicPage;
    if Get(first, "count").Int? {
      PublicPageExactly(first, first, 0);
      PublicPageExactly(first, second, 8);
    }
  }

  lemma DirectStoreExactly(first: Json, second: Json)
    ensures Store.Acceptable(Store.Direct, [first, second]) <==> IsDirectStore(first, second)
  {
    assert Store.Rows(first) == Rows(first) && Store.Rows(second) == Rows(second);
    RetainedExactly(Rows(first) + Rows(second));
    HeadsExactly(first);
    assert IsDirectHead(first) ==> Get(first, "count").Int?;
    hide Store.RowValid, DistinctSeqs, Retained, Rows, Store.Rows, Get, Store.CountersValid, IsDirectHead, Store.Settled, OnCard,
      Store.PageValid, IsDirectPage;
    if Get(first, "count").Int? {
      DirectPageExactly(first, first, 0);
      DirectPageExactly(first, second, 8);
    }
  }

  // ----- contacts and read state

  predicate IsContactListing(result: Json) {
    var persistence, rows := Get(result, "persistence"), Rows(result);
    var sd := Get(persistence, "sd");
    && Get(result, "entries").Arr? && (forall row :: row in rows ==> row.Obj?)
    && Get(result, "count") == Int(|rows|) && |rows| <= 16 && Equals(result, "capacity", 16)
    && Counts(result, "next_seq", 1)
    && (forall row :: row in rows ==> Counts(row, "seq", 1) && Get(row, "seq").n < Get(result, "next_seq").n)
    && Counts(result, "total_written", |rows|) && Counts(result, "dropped_oldest", 0) && Is(result, "persisted", true)
    && persistence.Obj? && Is(persistence, "loaded", true) && Is(persistence, "dirty", false)
    && Counts(persistence, "revision", 0) && Counts(persistence, "commits", 0) && Counts(persistence, "coalesced", 0)
    && Counts(persistence, "failures", 0) && Get(persistence, "last_error") == Str("ESP_OK")
    && sd.Obj? && Is(sd, "required", true) && Counts(sd, "generation", 1) && Is(sd, "reconcile_pending", false)
  }

  lemma ContactListingExactly(result: Json)
    ensures ContactsResultValid(result) <==> IsContactListing(result)
  {
    var rows := Rows(result);
    EachRow(rows);
    if Counts(result, "next_seq", 1) {
      SeqsBelow(rows, Get(result, "next_seq").n);
    }
    hide PyEq, Get;
  }

  lemma SeqsBelow(rows: seq<Json>, next: int)
    ensures (forall i :: 0 <= i < |rows| ==> SeqBelow(rows[i], next)) <==>
      forall row :: row in rows ==> Counts(row, "seq", 1) && Get(row, "seq").n < next
  {
    hide Get;
    if forall row :: row in rows ==> Counts(row, "seq", 1) && Get(row, "seq").n < next {
      assert forall i :: 0 <= i < |rows| ==> rows[i] in rows;
    }
  }

  predicate IsReadListing(result: Json) {
    var persistence := Get(result, "persistence");
    var sd, nvs := Get(persistence, "sd"), Get(persistence, "nvs");
    && ReadCounters(result) && Equals(result, "cursor_capacity", 16)
    && Get(result, "dm_threads").Arr? && Equals(result, "dm_thread_count", |Get(result, "dm_threads").items|)
    && Get(result, "persisted_dm_cursors").Arr? && |Get(result, "persisted_dm_cursors").items| <= 16
    && Equals(result, "persisted_dm_cursor_count", |Get(result, "persisted_dm_cursors").items|)
    && Is(result, "persisted", true) && persistence.Obj? && Is(persistence, "loaded", true) && Is(persistence, "dirty", false)
    && Counts(persistence, "revision", 0) && Counts(persistence, "commits", 0) && Equals(persistence, "failures", 0)
    && Get(persistence, "last_error") == Str("ESP_OK") && Is(persistence, "clear_tombstone_pending", false)
    && sd.Obj? && Is(sd, "required", true) && Counts(sd, "accepted_generation", 1)
    && PyEq(Get(sd, "generation"), Get(sd, "accepted_generation")) && Is(sd, "dirty", false)
    && Is(sd, "reconcile_pending", false) && nvs.Obj? && Is(nvs, "dirty", false)
  }

  predicate ReadCounters(result: Json) {
    && Counts(result, "public_unread", 0) && Counts(result, "dm_unread", 0) && Counts(result, "muted_dm_unread", 0)
    && Counts(result, "dm_thread_count", 0) && Counts(result, "persisted_dm_cursor_count", 0)
    && Counts(result, "last_public_read_seq", 0) && Counts(result, "last_dm_read_seq", 0)
    && Counts(result, "newest_public_rx_seq", 0) && Counts(result, "newest_dm_rx_seq", 0)
    && Counts(result, "mark_read_count", 0)
  }

  lemma ReadCountersExactly(result: Json)
    ensures (forall i :: 0 <= i < |READ_COUNTERS| ==> Store.AtLeast(Get(result, READ_COUNTERS[i]), 0)) <==> ReadCounters(result)
  {
    hide Get;
    var keys := READ_COUNTERS;
    assert (forall i :: 0 <= i < |keys| ==> Store.AtLeast(Get(result, keys[i]), 0)) <==>
      forall i :: 0 <= i < |keys| ==> Counts(result, keys[i], 0);
    hide Counts, Store.AtLeast;
    assert keys[0] == "public_unread" && keys[1] == "dm_unread" && keys[2] == "muted_dm_unread"
        && keys[3] == "dm_thread_count" && keys[4] == "persisted_dm_cursor_count" && keys[5] == "last_public_read_seq"
        && keys[6] == "last_dm_read_seq" && keys[7] == "newest_public_rx_seq" && keys[8] == "newest_dm_rx_seq"
        && keys[9] == "mark_read_count";
  }

  lemma ReadListingExactly(result: Json)
    ensures ReadResultValid(result) <==> IsReadListing(result)
  {
    ReadCountersExactly(result);
    hide PyEq, Get, ReadCounters;
  }

  /** Sixteen hexadecimal digits of either case. */
  predicate IsFingerprint(v: Json) {
    v.Str? && |v.s| == 16
    && forall i :: 0 <= i < 16 ==> '0' <= v.s[i] <= '9' || 'a' <= v.s[i] <= 'f' || 'A' <= v.s[i] <= 'F'
  }

  predicate IsThread(thread: Json) {
    && thread.Obj? && thread.fields.Keys == {"fingerprint", "last_read_seq", "newest_rx_seq", "unread", "muted"}
    && IsFingerprint(Get(thread, "fingerprint")) && Counts(thread, "last_read_seq", 0)
    && Counts(thread, "newest_rx_seq", 0) && Get(thread, "last_read_seq").n <= Get(thread, "newest_rx_seq").n
    && Counts(thread, "unread", 0) && Get(thread, "muted").Bool?
  }

  predicate IsCursor(cursor: Json) {
    && cursor.Obj? && cursor.fields.Keys == {"fingerprint", "last_read_seq"}
    && IsFingerprint(Get(cursor, "fingerprint")) && Counts(cursor, "last_read_seq", 0)
  }

  /** The fingerprints are different even without regard to case. */
  ghost predicate NamesApart(rows: seq<Json>) {
    forall i, j :: 0 <= i < j < |rows| ==> NameOf(rows[i]) != NameOf(rows[j])
  }

  lemma FingerprintExactly(v: Json)
    ensures Fingerprint(v) <==> IsFingerprint(v)
  {
    if v.Str? {
      var lower := LowerHex(v.s);
      assert |lower| == |v.s|;
      assert forall i :: 0 <= i < |v.s| ==> lower[i] == if 'A' <= v.s[i] <= 'F' then (v.s[i] as int + 32) as char else v.s[i];
      hide LowerHex;
      if Fingerprint(v) {
        forall i | 0 <= i < 16 ensures '0' <= v.s[i] <= '9' || 'a' <= v.s[i] <= 'f' || 'A' <= v.s[i] <= 'F' {
          assert '0' <= lower[i] <= '9' || 'a' <= lower[i] <= 'f';
        }
      }
    }
  }

  lemma ThreadExactly(thread: Json)
    ensures ThreadValid(thread) <==> IsThread(thread)
    ensures CursorValid(thread) <==> IsCursor(thread)
  {
    FingerprintExactly(Get(thread, "fingerprint"));
    hide Fingerprint, IsFingerprint, Get;
  }

  lemma {:induction false} CursorsExactly(list: seq<Json>, n: nat)
    requires n <= |list|
    ensures Cursors(list, n).Some? <==> (forall i :: 0 <= i < n ==> IsCursor(list[i])) && NamesApart(list[..n])
    ensures Cursors(list, n).Some? ==>
      forall f :: f in Cursors(list, n).value <==> exists i :: 0 <= i < n && NameOf(list[i]) == f
  {
    hide CursorValid, IsCursor, NameOf;
    if n > 0 {
      CursorsExactly(list, n - 1);
      ThreadExactly(list[n - 1]);
      NamesStep(list, n);
      hide NamesApart;
    }
  }

  lemma NamesStep(list: seq<Json>, n: nat)
    requires 0 < n <= |list|
    ensures NamesApart(list[..n]) <==>
      NamesApart(list[..n - 1]) && forall i :: 0 <= i < n - 1 ==> NameOf(list[i]) != NameOf(list[n - 1])
  {
    hide NameOf;
    assert forall i :: 0 <= i < n - 1 ==> list[..n][i] == list[..n - 1][i] == list[i];
    assert list[..n][n - 1] == list[n - 1];
  }

  /** The read state: its threads and its cursors, each named once. */
  ghost predicate IsReadState(result: Json) {
    && IsReadListing(result)
    && var threads, cursors := Get(result, "dm_threads").items, Get(result, "persisted_dm_cursors").items;
    && (forall i :: 0 <= i < |threads| ==> IsThread(threads[i])) && NamesApart(threads)
    && (forall i :: 0 <= i < |cursors| ==> IsCursor(cursors[i])) && NamesApart(cursors)
  }

  lemma ReadStateExactly(result: Json)
    ensures ReadAcceptable(result) <==> IsReadState(result)
  {
    ReadListingExactly(result);
    var threads, cursors := Listed(result, "dm_threads"), Listed(result, "persisted_dm_cursors");
    assert IsReadListing(result) ==>
        Get(result, "dm_threads") == Arr(threads) && Get(result, "persisted_dm_cursors") == Arr(cursors) by {
      hide PyEq, ReadCounters;
    }
    forall thread ensures ThreadValid(thread) <==> IsThread(thread) {
      ThreadExactly(thread);
    }
    CursorsExactly(cursors, |cursors|);
    assert cursors[..|cursors|] == cursors;
    assert NamesDistinct(threads) <==> NamesApart(threads);
    hide ReadResultValid, IsReadListing, ThreadValid, IsThread, IsCursor, Cursors, NamesApart, NamesDistinct, Listed, Get;
  }

  // ----- channels and identity

  predicate IsChannel(channel: Json) {
    && channel.Obj?
    && channel.fields.Keys == {
      "channel_id", "name", "source", "enabled", "selected", "unread", "newest_message_seq", "read_through_seq"}
    && Get(channel, "channel_id").Str? && Hex(Get(channel, "channel_id").s, 16)
    && Get(channel, "name").Str? && Get(channel, "name").s != ""
    && (|| Get(channel, "source") == Str("builtin") || Get(channel, "source") == Str("manual")
        || Get(channel, "source") == Str("uri_import") || Get(channel, "source") == Str("migrated"))
    && Get(channel, "enabled").Bool? && Get(channel, "selected").Bool? && Counts(channel, "unread", 0)
    && Counts(channel, "newest_message_seq", 0) && Counts(channel, "read_through_seq", 0)
  }

  /** Some key, at any depth, reads like a secret. */
  ghost predicate HoldsSecret(t: Tools, v: Json) {
    match v
    case Obj(fields) => exists k :: k in fields && (IsSecret(t, k) || HoldsSecret(t, fields[k]))
    case Arr(items) => exists item :: item in items && HoldsSecret(t, item)
    case _ => false
  }

  predicate IsSecret(t: Tools, raw: string) {
    var key := Channels.Underscored(t.fold(raw));
    && key != "password_saved" && key != "passwords_printed" && key != "secret_material_redacted"
    && (|| Contains(key, "password") || Contains(key, "passphrase") || Contains(key, "psk") || Contains(key, "secret")
        || Contains(key, "credential") || Contains(key, "token") || Contains(key, "private_key"))
  }

  ghost predicate IsChannelListing(t: Tools, result: Json) {
    var channels := Rows(result);
    && result.Obj? && !HoldsSecret(t, result)
    && result.fields.Keys == {
      "schema", "cmd", "ok", "count", "capacity", "revision", "active_channel_id", "entries", "persisted",
      "secret_material_redacted", "public_rf_tx", "formats_sd"}
    && Get(result, "entries").Arr? && Get(result, "count") == Int(|channels|) && 1 <= |channels| <= 8
    && Equals(result, "capacity", 8) && Counts(result, "revision", 1)
    && Get(result, "active_channel_id").Str? && Hex(Get(result, "active_channel_id").s, 16)
    && Is(result, "persisted", true) && Is(result, "secret_material_redacted", true) && Is(result, "public_rf_tx", false)
    && Is(result, "formats_sd", false)
  }

  /** Valid channels that differ by id, of which the active one and no other is selected. */
  ghost predicate IsChannels(t: Tools, result: Json) {
    var channels, active := Rows(result), Get(result, "active_channel_id");
    && IsChannelListing(t, result) && (forall i :: 0 <= i < |channels| ==> IsChannel(channels[i]))
    && (forall i, j :: 0 <= i < j < |channels| ==> Get(channels[i], "channel_id") != Get(channels[j], "channel_id"))
    && (forall i :: 0 <= i < |channels| && Is(channels[i], "selected", true) ==> Get(channels[i], "channel_id") == active)
    && exists i :: 0 <= i < |channels| && Is(channels[i], "selected", true) && Get(channels[i], "channel_id") == active
  }

  lemma SecretExactly(t: Tools, raw: string)
    ensures Channels.SecretKey(t, raw) <==> IsSecret(t, raw)
  {
    hide Contains, Channels.Underscored;
    var markers := Channels.SECRET_MARKERS;
    assert markers[0] == "password" && markers[1] == "passphrase" && markers[2] == "psk" && markers[3] == "secret"
        && markers[4] == "credential" && markers[5] == "token" && markers[6] == "private_key";
  }

  lemma {:induction false} HoldsSecretExactly(t: Tools, v: Json)
    ensures Channels.ContainsSecret(t, v) <==> HoldsSecret(t, v)
  {
    hide Channels.SecretKey, IsSecret;
    match v
    case Obj(fields) =>
      forall k | k in fields
        ensures Channels.SecretKey(t, k) <==> IsSecret(t, k)
        ensures Channels.ContainsSecret(t, fields[k]) <==> HoldsSecret(t, fields[k])
      {
        SecretExactly(t, k);
        HoldsSecretExactly(t, fields[k]);
      }
    case Arr(items) =>
      forall i | 0 <= i < |items| ensures Channels.ContainsSecret(t, items[i]) <==> HoldsSecret(t, items[i]) {
        HoldsSecretExactly(t, items[i]);
      }
      if item :| item in items && HoldsSecret(t, item) {
        var i :| 0 <= i < |items| && items[i] == item;
      }
      if i :| 0 <= i < |items| && Channels.ContainsSecret(t, items[i]) {
        assert items[i] in items;
      }
    case _ =>
  }

  lemma ChannelListingExactly(t: Tools, result: Json)
    ensures Channels.ChannelsResultValid(t, result) <==> IsChannelListing(t, result)
  {
    HoldsSecretExactly(t, result);
    hide Channels.ContainsSecret, HoldsSecret, Hex, PyEq;
  }

  lemma ChannelExactly(channel: Json)
    ensures Channels.ChannelValid(channel) <==> IsChannel(channel)
    ensures IsChannel(channel) ==> Get(channel, "channel_id") == Str(Channels.Id(channel))
    ensures Channels.Selected(channel) <==> Is(channel, "selected", true)
  {
    hide Hex, Get;
  }

  lemma ChannelsExactly(t: Tools, result: Json)
    ensures Channels.Acceptable(t, result) <==> IsChannels(t, result)
  {
    ChannelListingExactly(t, result);
    var list := Rows(result);
    assert Channels.Entries(result) == list;
    forall i | 0 <= i < |list|
      ensures Channels.ChannelValid(list[i]) <==> IsChannel(list[i])
      ensures IsChannel(list[i]) ==> Get(list[i], "channel_id") == Str(Channels.Id(list[i]))
      ensures Channels.Selected(list[i]) <==> Is(list[i], "selected", true)
    {
      ChannelExactly(list[i]);
    }
    assert IsChannelListing(t, result) ==> Get(result, "active_channel_id").Str? by {
      hide HoldsSecret, PyEq, Hex;
    }
    hide Channels.ChannelsResultValid, IsChannelListing, Channels.ChannelValid, IsChannel, Channels.Id, Channels.Selected, Is,
      Get, Rows, Channels.Entries;
    if IsChannelListing(t, result) && forall i :: 0 <= i < |list| ==> IsChannel(list[i]) {
      SelectionExactly(list, Get(result, "active_channel_id").s);
    }
    hide Channels.IdsDistinct, Channels.OnlySelects, Channels.SelectsIt;
  }

  lemma SelectionExactly(list: seq<Json>, active: string)
    requires forall i :: 0 <= i < |list| ==> Get(list[i], "channel_id") == Str(Channels.Id(list[i]))
    requires forall i :: 0 <= i < |list| ==> (Channels.Selected(list[i]) <==> Is(list[i], "selected", true))
    ensures Channels.IdsDistinct(list, |list|) <==>
      forall i, j :: 0 <= i < j < |list| ==> Get(list[i], "channel_id") != Get(list[j], "channel_id")
    ensures Channels.OnlySelects(list, |list|, active) <==>
      forall i :: 0 <= i < |list| && Is(list[i], "selected", true) ==> Get(list[i], "channel_id") == Str(active)
    ensures Channels.SelectsIt(list, |list|, active) <==>
      exists i :: 0 <= i < |list| && Is(list[i], "selected", true) && Get(list[i], "channel_id") == Str(active)
  {
    hide Channels.Id, Channels.Selected, Is, Get;
    if Channels.IdsDistinct(list, |list|) {
      forall i, j | 0 <= i < j < |list| ensures Get(list[i], "channel_id") != Get(list[j], "channel_id") {
        assert Channels.Id(list[i]) != Channels.Id(list[j]);
      }
    }
    if forall i, j :: 0 <= i < j < |list| ==> Get(list[i], "channel_id") != Get(list[j], "channel_id") {
      forall i, j | 0 <= i < j < |list| ensures Channels.Id(list[i]) != Channels.Id(list[j]) {
        assert Get(list[i], "channel_id") != Get(list[j], "channel_id");
      }
    }
  }

  /** The identity of a desk companion that is ready: 64 hexadecimal digits, the first 16 of which in upper case are its
      fingerprint. */
  predicate IsIdentity(t: Tools, identity: Json) {
    && Get(identity, "public_key").Str? && Hex(t.fold(Get(identity, "public_key").s), 64)
    && Is(identity, "public_key_ready", true) && Get(identity, "role") == Str("desk_companion")
    && Get(identity, "fingerprint") == Str(Channels.UpperHex(t.fold(Get(identity, "public_key").s)[..16]))
  }

  lemma IdentityExactly(t: Tools, identity: Json)
    ensures Channels.IdentityValid(t, identity) <==> IsIdentity(t, identity)
  {
    hide Channels.UpperHex;
  }

  // ----- the whole snapshot

  /** Exactly which snapshots are projected. */
  lemma ProjectableSpelledOut(t: Tools, snapshot: Snapshot)
    requires |snapshot.publicPages| == 2 && |snapshot.directPages| == 2
    ensures Projectable(t, snapshot) <==>
      && snapshot.settings.Some? && IsChannels(t, snapshot.channels)
      && IsContactListing(snapshot.contacts)
      && ContactRetention.Projection(t, Arr(Store.Sort(t, Rows(snapshot.contacts)))).Some?
      && IsReadState(snapshot.readState)
      && IsPublicStore(snapshot.publicPages[0], snapshot.publicPages[1])
      && IsDirectStore(snapshot.directPages[0], snapshot.directPages[1])
      && IsIdentity(t, snapshot.identity)
  {
    ChannelsExactly(t, snapshot.channels);
    ContactListingExactly(snapshot.contacts);
    assert Store.Rows(snapshot.contacts) == Rows(snapshot.contacts);
    ReadStateExactly(snapshot.readState);
    PublicStoreExactly(snapshot.publicPages[0], snapshot.publicPages[1]);
    DirectStoreExactly(snapshot.directPages[0], snapshot.directPages[1]);
    assert snapshot.publicPages == [snapshot.publicPages[0], snapshot.publicPages[1]];
    assert snapshot.directPages == [snapshot.directPages[0], snapshot.directPages[1]];
    IdentityExactly(t, snapshot.identity);
    hide Channels.Acceptable, IsChannels, ContactsResultValid, IsContactListing, ContactRetention.Projection, Store.Sort, Rows,
      ReadAcceptable, IsReadState, Store.Acceptable, IsPublicStore, IsDirectStore, Channels.IdentityValid, IsIdentity,
      Store.Rows;
  }
}
