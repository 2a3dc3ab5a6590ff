/** A snapshot whose Public store counts its retained rows as a given value. */
module RetainedExample {
  import opened JsonModel
  import opened RowPreservation
  import Store = RetainedStore

  // ----- the message stores

  function Persistence(): Json {
    Obj(map[
      "loaded" := Bool(true), "dirty" := Bool(false),
      "sd" := Obj(map[
        "required" := Bool(true), "dirty" := Bool(false), "reconcile_pending" := Bool(false), "last_error" := Str("ESP_OK")])])
  }

  function Message(): Json {
    Obj(map["seq" := Int(1), "retained" := Bool(true), "volatile_preview" := Bool(false)])
  }

  function Counters(): map<string, Json> {
    map[
      "count" := Int(1), "capacity" := Int(16), "total_written" := Int(1), "dropped_oldest" := Int(0),
      "retained_epoch" := Int(1), "content_revision" := Int(1), "total_matches" := Int(1)]
  }

  function Flags(): map<string, Json> {
    map[
      "filtered" := Bool(false), "volatile_preview_present" := Bool(false), "volatile_preview_seq" := Int(0),
      "persisted" := Bool(true), "persistence" := Persistence()]
  }

  function Position(entries: seq<Json>, offset: int): map<string, Json> {
    map[
      "offset" := Int(offset), "page_size" := Int(8), "page_count" := Int(|entries|), "has_older" := Bool(false),
      "next_offset" := Int(offset), "entries" := Arr(entries)]
  }

  /** `counted` is what the Public store states as its number of retained rows. */
  function Kind(kind: Store.Kind, counted: Json): map<string, Json> {
    match kind
    case Public => map[
      "retained_store_count" := Int(1), "retained_public_count" := counted,
      "history_counters_scope" := Str("shared_all_channels")]
    case Direct => map["retained_count" := Int(1)]
  }

  /** A page of a store with one message. */
  function Page(kind: Store.Kind, counted: Json, entries: seq<Json>, offset: int): Json {
    Obj(Counters() + Flags() + Position(entries, offset) + Kind(kind, counted))
  }

  lemma FromParts(a: map<string, Json>, b: map<string, Json>, c: map<string, Json>, d: map<string, Json>, k: string)
    ensures Get(Obj(a + b + c + d), k) ==
      if k in d then d[k] else if k in c then c[k] else if k in b then b[k] else if k in a then a[k] else Null
  {
  }

  lemma CountersApart(entries: seq<Json>, offset: int)
    ensures Counters().Keys !! Flags().Keys && Counters().Keys !! Position(entries, offset).Keys
  {
    hide Persistence;
  }

  lemma FlagsApart(entries: seq<Json>, offset: int)
    ensures Flags().Keys !! Position(entries, offset).Keys
  {
    hide Persistence;
  }

  lemma KindApart(kind: Store.Kind, counted: Json)
    ensures Counters().Keys !! Kind(kind, counted).Keys
  {
    hide Persistence;
  }

  lemma RestApart(kind: Store.Kind, counted: Json, entries: seq<Json>, offset: int)
    ensures Flags().Keys !! Kind(kind, counted).Keys && Position(entries, offset).Keys !! Kind(kind, counted).Keys
  {
    hide Persistence;
  }

  /** The parts have different keys, so every field of a part is a field of the page. */
  lemma Fields(kind: Store.Kind, counted: Json, entries: seq<Json>, offset: int, k: string)
    ensures var page := Page(kind, counted, entries, offset);
      && (k in Counters() ==> Get(page, k) == Counters()[k]) && (k in Flags() ==> Get(page, k) == Flags()[k])
      && (k in Position(entries, offset) ==> Get(page, k) == Position(entries, offset)[k])
      && (k in Kind(kind, counted) ==> Get(page, k) == Kind(kind, counted)[k])
  {
    hide Counters, Flags, Position, Kind;
    FromParts(Counters(), Flags(), Position(entries, offset), Kind(kind, counted), k);
    CountersApart(entries, offset);
    FlagsApart(entries, offset);
    KindApart(kind, counted);
    RestApart(kind, counted, entries, offset);
  }

  lemma CounterValues(kind: Store.Kind, counted: Json, entries: seq<Json>, offset: int)
    ensures var p := Page(kind, counted, entries, offset);
      && Get(p, "count") == Int(1) && Get(p, "capacity") == Int(16) && Get(p, "total_written") == Int(1)
      && Get(p, "dropped_oldest") == Int(0) && Get(p, "retained_epoch") == Int(1) && Get(p, "content_revision") == Int(1)
      && Get(p, "total_matches") == Int(1)
  {
    var m := Counters();
    assert "count" in m && m["count"] == Int(1) && "capacity" in m && m["capacity"] == Int(16);
    assert "total_written" in m && m["total_written"] == Int(1) && "dropped_oldest" in m && m["dropped_oldest"] == Int(0);
    assert "retained_epoch" in m && m["retained_epoch"] == Int(1) && "content_revision" in m && m["content_revision"] == Int(1);
    assert "total_matches" in m && m["total_matches"] == Int(1);
    hide *;
    Fields(kind, counted, entries, offset, "count");
    Fields(kind, counted, entries, offset, "capacity");
    Fields(kind, counted, entries, offset, "total_written");
    Fields(kind, counted, entries, offset, "dropped_oldest");
    Fields(kind, counted, entries, offset, "retained_epoch");
    Fields(kind, counted, entries, offset, "content_revision");
    Fields(kind, counted, entries, offset, "total_matches");
  }

  lemma FlagValues(kind: Store.Kind, counted: Json, entries: seq<Json>, offset: int)
    ensures var p := Page(kind, counted, entries, offset);
      && Get(p, "filtered") == Bool(false) && Get(p, "volatile_preview_present") == Bool(false)
      && Get(p, "volatile_preview_seq") == Int(0) && Get(p, "persisted") == Bool(true)
      && Get(p, "persistence") == Persistence()
  {
    var m := Flags();
    assert "filtered" in m && m["filtered"] == Bool(false) && "persisted" in m && m["persisted"] == Bool(true);
    assert "volatile_preview_present" in m && m["volatile_preview_present"] == Bool(false);
    assert "volatile_preview_seq" in m && m["volatile_preview_seq"] == Int(0);
    assert "persistence" in m && m["persistence"] == Persistence();
    hide *;
    Fields(kind, counted, entries, offset, "filtered");
    Fields(kind, counted, entries, offset, "volatile_preview_present");
    Fields(kind, counted, entries, offset, "volatile_preview_seq");
    Fields(kind, counted, entries, offset, "persisted");
    Fields(kind, counted, entries, offset, "persistence");
  }

  lemma PositionValues(kind: Store.Kind, counted: Json, entries: seq<Json>, offset: int)
    ensures var p := Page(kind, counted, entries, offset);
      && Get(p, "offset") == Int(offset) && Get(p, "page_size") == Int(8) && Get(p, "page_count") == Int(|entries|)
      && Get(p, "has_older") == Bool(false) && Get(p, "next_offset") == Int(offset) && Get(p, "entries") == Arr(entries)
  {
    var m := Position(entries, offset);
    assert "offset" in m && m["offset"] == Int(offset) && "page_size" in m && m["page_size"] == Int(8);
    assert "page_count" in m && m["page_count"] == Int(|entries|) && "has_older" in m && m["has_older"] == Bool(false);
    assert "next_offset" in m && m["next_offset"] == Int(offset) && "entries" in m && m["entries"] == Arr(entries);
    hide *;
    Fields(kind, counted, entries, offset, "offset");
    Fields(kind, counted, entries, offset, "page_size");
    Fields(kind, counted, entries, offset, "page_count");
    Fields(kind, counted, entries, offset, "has_older");
    Fields(kind, counted, entries, offset, "next_offset");
    Fields(kind, counted, entries, offset, "entries");
  }

  lemma KindValues(kind: Store.Kind, counted: Json, entries: seq<Json>, offset: int)
    ensures var p := Page(kind, counted, entries, offset);
      match kind
      case Public =>
        && Get(p, "retained_store_count") == Int(1) && Get(p, "retained_public_count") == counted
        && Get(p, "history_counters_scope") == Str("shared_all_channels")
      case Direct => Get(p, "retained_count") == Int(1)
  {
    hide Counters, Flags, Position, Page, Get;
    Fields(kind, counted, entries, offset, "retained_store_count");
    Fields(kind, counted, entries, offset, "retained_public_count");
    Fields(kind, counted, entries, offset, "history_counters_scope");
    Fields(kind, counted, entries, offset, "retained_count");
  }

  lemma MessageFields()
    ensures Message().Obj? && Store.RowValid(Message()) && Seq(Message()) == 1
  {
  }

  lemma PersistenceSettled(p: Json)
    requires Get(p, "persistence") == Persistence() && Get(p, "persisted") == Bool(true)
    ensures Store.Settled(p)
  {
    assert Get(Persistence(), "loaded") == Bool(true) && Get(Persistence(), "dirty") == Bool(false);
    var sd := Get(Persistence(), "sd");
    assert sd.Obj? && Get(sd, "required") == Bool(true) && Get(sd, "dirty") == Bool(false);
    assert Get(sd, "reconcile_pending") == Bool(false) && Get(sd, "last_error") == Str("ESP_OK");
  }

  function Pages(kind: Store.Kind, counted: Json): seq<Json> {
    [Page(kind, counted, [Message()], 0), Page(kind, counted, [], 8)]
  }

  lemma PageAccepted(kind: Store.Kind, counted: Json, entries: seq<Json>, offset: int)
    requires PyEq(counted, Int(1))
    requires (entries == [Message()] && offset == 0) || (entries == [] && offset == 8)
    ensures Store.PageValid(kind, Pages(kind, counted)[0], Page(kind, counted, entries, offset), offset)
  {
    hide Page, Get, Persistence, Message;
    CounterValues(kind, counted, [Message()], 0);
    FlagValues(kind, counted, [Message()], 0);
    KindValues(kind, counted, [Message()], 0);
    CounterValues(kind, counted, entries, offset);
    FlagValues(kind, counted, entries, offset);
    PositionValues(kind, counted, entries, offset);
    KindValues(kind, counted, entries, offset);
    MessageFields();
  }

  lemma StoreAccepted(kind: Store.Kind, counted: Json)
    requires PyEq(counted, Int(1))
    ensures Store.Acceptable(kind, Pages(kind, counted))
  {
    hide Page, Get, Persistence, Message, Store.PageValid, Store.Settled, Store.RowValid;
    var first := Page(kind, counted, [Message()], 0);
    CounterValues(kind, counted, [Message()], 0);
    FlagValues(kind, counted, [Message()], 0);
    PositionValues(kind, counted, [Message()], 0);
    PositionValues(kind, counted, [], 8);
    KindValues(kind, counted, [Message()], 0);
    PageAccepted(kind, counted, [Message()], 0);
    PageAccepted(kind, counted, [], 8);
    PersistenceSettled(first);
    MessageFields();
    assert Store.Rows(first) + Store.Rows(Page(kind, counted, [], 8)) == [Message()];
  }
}
