/** The channel list and the identity in a snapshot of the retained state. */
module RetainedChannels {
  import opened Results
  import opened JsonModel
  import opened Ordering
  import opened Text
  import ContactRetention
  import Sorting
  import Store = RetainedStore

  type Tools = ContactRetention.Tools

  const CHANNEL_CAPACITY := 8
  const CURSOR_FIELDS := ["unread", "newest_message_seq", "read_through_seq"]
  const ROW_FIELDS := ["channel_id", "name", "source", "enabled", "selected"]

  // ----- secrets

  const ALLOWED_KEYS := {"password_saved", "passwords_printed", "secret_material_redacted"}
  const SECRET_MARKERS := ["password", "passphrase", "psk", "secret", "credential", "token", "private_key"]

  function Underscored(s: string): string {
    seq(|s|, i requires 0 <= i < |s| => if s[i] == '-' then '_' else s[i])
  }

  predicate SecretKey(t: Tools, raw: string) {
    var key := Underscored(t.fold(raw));
    key !in ALLOWED_KEYS && exists i :: 0 <= i < |SECRET_MARKERS| && Contains(key, SECRET_MARKERS[i])
  }

  /** `contains_secret_field` */
  predicate ContainsSecret(t: Tools, v: Json) {
    match v
    case Obj(fields) => exists k :: k in fields && (SecretKey(t, k) || ContainsSecret(t, fields[k]))
    case Arr(items) => exists i :: 0 <= i < |items| && ContainsSecret(t, items[i])
    case _ => false
  }

  // ----- the channels

  function Id(channel: Json): string {
    if Get(channel, "channel_id").Str? then Get(channel, "channel_id").s else ""
  }

  predicate Selected(channel: Json) {
    Get(channel, "selected") == Bool(true)
  }

  predicate ChannelValid(channel: Json) {
    && channel.Obj?
    && channel.fields.Keys == {
      "channel_id", "name", "source", "enabled", "selected", "unread", "newest_message_seq", "read_through_seq"}
    && Get(channel, "channel_id").Str? && Hex(Id(channel), 16)
    && Get(channel, "name").Str? && Get(channel, "name").s != ""
    && Get(channel, "source") in {Str("builtin"), Str("manual"), Str("uri_import"), Str("migrated")}
    && Get(channel, "enabled").Bool? && Get(channel, "selected").Bool?
    && Store.AtLeast(Get(channel, "unread"), 0) && Store.AtLeast(Get(channel, "newest_message_seq"), 0)
    && Store.AtLeast(Get(channel, "read_through_seq"), 0)
  }

  predicate ChannelsResultValid(t: Tools, result: Json) {
    var entries, count := Get(result, "entries"), Get(result, "count");
    && result.Obj? && !ContainsSecret(t, result)
    && result.fields.Keys == {
      "schema", "cmd", "ok", "count", "capacity", "revision", "active_channel_id", "entries", "persisted",
      "secret_material_redacted", "public_rf_tx", "formats_sd"}
    && Store.AtLeast(count, 1) && PyEq(Get(result, "capacity"), Int(CHANNEL_CAPACITY)) && count.n <= CHANNEL_CAPACITY
    && Store.AtLeast(Get(result, "revision"), 1)
    && Get(result, "active_channel_id").Str? && Hex(Get(result, "active_channel_id").s, 16)
    && entries.Arr? && count == Int(|entries.items|)
    && Get(result, "persisted") == Bool(true) && Get(result, "secret_material_redacted") == Bool(true)
    && Get(result, "public_rf_tx") == Bool(false) && Get(result, "formats_sd") == Bool(false)
  }

  function Copied(source: Json, keys: seq<string>): Json {
    Obj(map k | k in keys :: Get(source, k))
  }

  /** What the loop over the channels builds. */
  datatype Projected = Projected(rows: seq<Json>, cursors: map<string, Json>, selected: seq<string>)

  /** The first `n` channels; an invalid or repeated one refuses all. */
  function Project(channels: seq<Json>, n: nat): Option<Projected>
    requires n <= |channels|
  {
    if n == 0 then Some(Projected([], map[], []))
    else
      var sofar, channel := Project(channels, n - 1), channels[n - 1];
      if sofar.None? || !ChannelValid(channel) || Id(channel) in sofar.value.cursors then None
      else
        Some(Projected(
          sofar.value.rows + [Copied(channel, ROW_FIELDS)],
          sofar.value.cursors[Id(channel) := Copied(channel, CURSOR_FIELDS)],
          sofar.value.selected + if Selected(channel) then [Id(channel)] else []))
  }

  method ProjectChannels(channels: seq<Json>) returns (r: Option<Projected>)
    ensures r == Project(channels, |channels|)
  {
    hide ChannelValid, Id, Selected, Copied;
    var p := Projected([], map[], []);
    for i := 0 to |channels|
      invariant Project(channels, i) == Some(p)
    {
      var channel := channels[i];
      if !ChannelValid(channel) || Id(channel) in p.cursors {
        Refused(channels, i + 1, |channels|);
        return None;
      }
      p := Projected(
        p.rows + [Copied(channel, ROW_FIELDS)], p.cursors[Id(channel) := Copied(channel, CURSOR_FIELDS)],
        p.selected + if Selected(channel) then [Id(channel)] else []);
    }
    r := Some(p);
  }

  lemma {:induction false} Refused(channels: seq<Json>, i: nat, n: nat)
    requires i <= n <= |channels| && Project(channels, i).None?
    ensures Project(channels, n).None?
  {
    hide ChannelValid, Id, Selected, Copied;
    if i < n {
      Refused(channels, i, n - 1);
    }
  }

  ghost predicate IdsDistinct(channels: seq<Json>, n: nat)
    requires n <= |channels|
  {
    forall i, j :: 0 <= i < j < n ==> Id(channels[i]) != Id(channels[j])
  }

  ghost predicate HasId(channels: seq<Json>, n: nat, id: string)
    requires n <= |channels|
  {
    exists i :: 0 <= i < n && Id(channels[i]) == id
  }

  /** The list is accepted exactly when every channel is valid and none repeats an id. */
  lemma {:induction false} AcceptedExactly(channels: seq<Json>, n: nat)
    requires n <= |channels|
    ensures Project(channels, n).Some? <==>
      (forall i :: 0 <= i < n ==> ChannelValid(channels[i])) && IdsDistinct(channels, n)
    ensures Project(channels, n).Some? ==> forall id :: id in Project(channels, n).value.cursors <==> HasId(channels, n, id)
  {
    hide ChannelValid, Id, Selected, Copied;
    if n > 0 {
      AcceptedExactly(channels, n - 1);
      if Project(channels, n).Some? {
        forall id ensures id in Project(channels, n).value.cursors <==> HasId(channels, n, id) {
          OneMoreId(channels, n, id);
        }
      }
    }
  }

  lemma OneMoreId(channels: seq<Json>, n: nat, id: string)
    requires 0 < n <= |channels|
    ensures HasId(channels, n, id) <==> HasId(channels, n - 1, id) || id == Id(channels[n - 1])
  {
    hide Id;
    if id == Id(channels[n - 1]) { assert 0 <= n - 1 < n; }
  }

  /** Every accepted channel keeps its counters under its own id. */
  lemma {:induction false} CursorOf(channels: seq<Json>, n: nat, i: nat)
    requires i < n <= |channels| && Project(channels, n).Some?
    ensures var m := Project(channels, n).value.cursors;
      ChannelValid(channels[i]) && Id(channels[i]) in m && m[Id(channels[i])] == Copied(channels[i], CURSOR_FIELDS)
  {
    hide ChannelValid, Id, Selected, Copied;
    if i < n - 1 {
      CursorOf(channels, n - 1, i);
    }
  }

  /** Every channel that is selected is the active one. */
  ghost predicate OnlySelects(channels: seq<Json>, n: nat, active: string)
    requires n <= |channels|
  {
    forall i :: 0 <= i < n && Selected(channels[i]) ==> Id(channels[i]) == active
  }

  ghost predicate SelectsIt(channels: seq<Json>, n: nat, id: string)
    requires n <= |channels|
  {
    exists i :: 0 <= i < n && Selected(channels[i]) && Id(channels[i]) == id
  }

  lemma Step(channels: seq<Json>, n: nat)
    requires 0 < n <= |channels| && Project(channels, n).Some?
    ensures Project(channels, n - 1).Some?
    ensures var p, q, id := Project(channels, n - 1).value, Project(channels, n).value, Id(channels[n - 1]);
      && id !in p.cursors && q.cursors.Keys == p.cursors.Keys + {id}
      && q.selected == p.selected + if Selected(channels[n - 1]) then [id] else []
  {
    hide ChannelValid, Id, Selected, Copied;
  }

  lemma {:induction false} SelectedIds(channels: seq<Json>, n: nat, id: string)
    requires n <= |channels| && Project(channels, n).Some?
    ensures id in Project(channels, n).value.selected <==> SelectsIt(channels, n, id)
    ensures id in Project(channels, n).value.selected ==> id in Project(channels, n).value.cursors
  {
    if n > 0 {
      Step(channels, n);
      SelectedIds(channels, n - 1, id);
      hide Project, Id, Selected;
      if Selected(channels[n - 1]) && Id(channels[n - 1]) == id {
        assert 0 <= n - 1 < n;
      }
    }
  }

  lemma {:induction false} OnlySelected(channels: seq<Json>, n: nat, active: string)
    requires n <= |channels| && Project(channels, n).Some?
    ensures OnlySelects(channels, n, active) <==> Project(channels, n).value.selected in {[], [active]}
  {
    if n > 0 {
      Step(channels, n);
      OnlySelected(channels, n - 1, active);
      SelectedIds(channels, n - 1, active);
      hide Project, Id, Selected, SelectsIt;
      assert OnlySelects(channels, n, active) <==>
        OnlySelects(channels, n - 1, active) && (Selected(channels[n - 1]) ==> Id(channels[n - 1]) == active);
      var sofar, all := Project(channels, n - 1).value.selected, Project(channels, n).value.selected;
      if Selected(channels[n - 1]) {
        assert all[|sofar|] == Id(channels[n - 1]);
        assert sofar == [active] ==> active in sofar;
        assert all == [active] ==> sofar == [] && Id(channels[n - 1]) == active;
        assert sofar == [] && Id(channels[n - 1]) == active ==> all == [active];
      } else {
        assert all == sofar;
      }
    }
  }

  /** `selected_ids == [active_channel_id]`: the active channel is there and selected, and no other is. */
  lemma ActiveExactly(channels: seq<Json>, active: string)
    requires Project(channels, |channels|).Some?
    ensures Project(channels, |channels|).value.selected == [active] <==>
      OnlySelects(channels, |channels|, active) && SelectsIt(channels, |channels|, active)
  {
    SelectedIds(channels, |channels|, active);
    OnlySelected(channels, |channels|, active);
    hide Project, OnlySelects, SelectsIt;
  }

  // ----- the whole channel part

  datatype Channels = Channels(rows: seq<Json>, state: Json, cursors: Json)

  function ById(): (Json, Json) -> bool {
    (a, b) => Less(Id(a), Id(b))
  }

  function Entries(result: Json): seq<Json> {
    if Get(result, "entries").Arr? then Get(result, "entries").items else []
  }

  /** The channels of a result are listed once each, one is selected, and it is the active one. */
  ghost predicate Acceptable(t: Tools, result: Json) {
    var channels, active := Entries(result), Get(result, "active_channel_id");
    && ChannelsResultValid(t, result)
    && (forall i :: 0 <= i < |channels| ==> ChannelValid(channels[i])) && IdsDistinct(channels, |channels|)
    && OnlySelects(channels, |channels|, active.s)
    && SelectsIt(channels, |channels|, active.s)
  }

  function ChannelsOf(result: Json): Channels
    requires Project(Entries(result), |Entries(result)|).Some?
  {
    var p := Project(Entries(result), |Entries(result)|).value;
    Channels(Sorting.Sort(ById(), p.rows), Copied(result, ["capacity", "active_channel_id", "revision"]), Obj(p.cursors))
  }

  /** The channel part of `retained_state_projection`; an exception it would raise is a refusal. */
  method ChannelsProjection(t: Tools, result: Json) returns (r: Option<Channels>)
    ensures r.Some? <==> Acceptable(t, result)
    ensures r.Some? ==> Project(Entries(result), |Entries(result)|).Some? && r.value == ChannelsOf(result)
  {
    var channels := Entries(result);
    AcceptedExactly(channels, |channels|);
    if !ChannelsResultValid(t, result) {
      return None;
    }
    assert Get(result, "active_channel_id").Str?;
    hide ChannelsResultValid, ChannelValid, IdsDistinct, Project, Id, Selected, Copied, OnlySelects, SelectsIt, ById, Get;
    var p := ProjectChannels(channels);
    if p.None? {
      return None;
    }
    ActiveExactly(channels, Get(result, "active_channel_id").s);
    if p.value.selected != [Get(result, "active_channel_id").s] {
      return None;
    }
    r := Some(Channels(
      Sorting.Sort(ById(), p.value.rows), Copied(result, ["capacity", "active_channel_id", "revision"]), Obj(p.value.cursors)));
  }

  predicate CursorValid(cursor: Json) {
    cursor.Obj? && forall i :: 0 <= i < |CURSOR_FIELDS| ==> Get(cursor, CURSOR_FIELDS[i]).Int?
  }

  /** What the comparison needs of the channels. */
  predicate Comparable(state: Json, cursors: Json) {
    && state.Obj? && Get(state, "revision").Int? && cursors.Obj?
    && forall id :: id in cursors.fields ==> CursorValid(cursors.fields[id])
  }

  lemma CopiedCursor(channel: Json)
    requires ChannelValid(channel)
    ensures CursorValid(Copied(channel, CURSOR_FIELDS))
  {
    forall i | 0 <= i < |CURSOR_FIELDS| ensures Get(Copied(channel, CURSOR_FIELDS), CURSOR_FIELDS[i]).Int? {
      assert CURSOR_FIELDS[i] in CURSOR_FIELDS;
    }
  }

  lemma ProjectedComparable(t: Tools, result: Json)
    requires Acceptable(t, result) && Project(Entries(result), |Entries(result)|).Some?
    ensures Comparable(ChannelsOf(result).state, ChannelsOf(result).cursors)
  {
    var channels := Entries(result);
    var p := Project(channels, |channels|).value;
    AcceptedExactly(channels, |channels|);
    forall id | id in p.cursors ensures CursorValid(p.cursors[id]) {
      assert HasId(channels, |channels|, id);
      var i :| 0 <= i < |channels| && Id(channels[i]) == id;
      CursorOf(channels, |channels|, i);
      CopiedCursor(channels[i]);
    }
    assert "revision" in ["capacity", "active_channel_id", "revision"];
    hide Project, ChannelValid, CursorValid, ContainsSecret;
  }

  // ----- the identity

  const ROLE := "desk_companion"

  function UpperHex(s: string): string {
    seq(|s|, i requires 0 <= i < |s| => if 'a' <= s[i] <= 'f' then (s[i] as int - 32) as char else s[i])
  }

  /** The identity carries a public key, is ready, and its fingerprint is the first half of the key. */
  predicate IdentityValid(t: Tools, identity: Json) {
    var key := ContactRetention.ExactPublicKey(t, Get(identity, "public_key"));
    && key.Some? && |key.value| >= 16 && Get(identity, "public_key_ready") == Bool(true)
    && Get(identity, "fingerprint") == Str(UpperHex(key.value[..16])) && Get(identity, "role") == Str(ROLE)
  }
}
