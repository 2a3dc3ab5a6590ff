/** `contact_retention_projection`: the contacts of a snapshot, keyed by fingerprint, without what
    radio reception may change. */
module ContactRetention {
  import opened Results
  import opened JsonModel
  import opened Text

  /** `strip().lower()` and `json.dumps(row, sort_keys=True, separators=(",", ":"))`. */
  datatype Tools = Tools(fold: string -> string, text: Json -> string)

  const REQUIRED_FIELDS := ["alias", "created_ms", "favorite", "fingerprint", "muted", "public_key"]

  const VOLATILE_FIELDS := [
    "last_heard_ms", "last_rssi_dbm", "last_snr_tenths", "out_path_known", "out_path_len", "out_path_updated_ms",
    "path_hash_bytes", "path_hops", "seq", "signed_advert_timestamp", "updated_ms", "verified_at_ms"]

  predicate HasAll(row: Json, fields: seq<string>) {
    row.Obj? && forall i :: 0 <= i < |fields| ==> fields[i] in row.fields
  }

  /** `exact_public_key` */
  function ExactPublicKey(t: Tools, v: Json): Option<string> {
    if v.Str? && Hex(t.fold(v.s), 64) then Some(t.fold(v.s)) else None
  }

  datatype Contact = Contact(
    fingerprint: string, publicKey: string, alias: string, favorite: bool, muted: bool, createdMs: int)

  /** The identity of a row is well-formed: a contact with a key is named by its first half, a
      placeholder has an empty key. */
  predicate IdentityValid(t: Tools, row: Json) {
    var key := ExactPublicKey(t, Get(row, "public_key"));
    && Get(row, "fingerprint").Str? && Hex(t.fold(Get(row, "fingerprint").s), 16)
    && (if key.Some? then t.fold(Get(row, "fingerprint").s) == key.value[..16] else Get(row, "public_key") == Str(""))
  }

  predicate UserStateValid(row: Json) {
    && Get(row, "alias").Str? && Get(row, "favorite").Bool? && Get(row, "muted").Bool?
    && Get(row, "created_ms").Int? && Get(row, "created_ms").n >= 0
  }

  predicate CapabilitiesValid(t: Tools, row: Json) {
    var canonical, canDm, canAdmin := Get(row, "canonical"), Get(row, "can_dm"), Get(row, "can_admin");
    && canonical.Bool? && canDm.Bool? && canAdmin.Bool?
    && if ExactPublicKey(t, Get(row, "public_key")).Some? then canonical.b else !canonical.b && !canDm.b && !canAdmin.b
  }

  /** What a row contributes, unless it is refused. */
  function ContactOf(t: Tools, row: Json): Option<Contact> {
    if HasAll(row, REQUIRED_FIELDS) && HasAll(row, VOLATILE_FIELDS) && IdentityValid(t, row) && UserStateValid(row)
       && CapabilitiesValid(t, row)
    then
      var key := ExactPublicKey(t, Get(row, "public_key"));
      Some(Contact(
        t.fold(Get(row, "fingerprint").s), if key.Some? then key.value else "", Get(row, "alias").s,
        Get(row, "favorite").b, Get(row, "muted").b, Get(row, "created_ms").n))
    else None
  }

  /** The contacts of the first `n` rows; a refused row or a repeated fingerprint refuses all. */
  function Contacts(t: Tools, rows: seq<Json>, n: nat): Option<map<string, Contact>>
    requires n <= |rows|
  {
    if n == 0 then Some(map[])
    else
      var sofar, contact := Contacts(t, rows, n - 1), ContactOf(t, rows[n - 1]);
      if sofar.None? || contact.None? || contact.value.fingerprint in sofar.value then None
      else Some(sofar.value[contact.value.fingerprint := contact.value])
  }

  /** `contact_retention_projection` on any JSON value. */
  function Projection(t: Tools, rows: Json): Option<map<string, Contact>> {
    if rows.Arr? then Contacts(t, rows.items, |rows.items|) else None
  }

  method ContactRetentionProjection(t: Tools, rows: Json) returns (r: Option<map<string, Contact>>)
    ensures r == Projection(t, rows)
  {
    hide ContactOf;
    if !rows.Arr? {
      return None;
    }
    var projected := map[];
    var i := 0;
    while i < |rows.items|
      invariant i <= |rows.items| && Contacts(t, rows.items, i) == Some(projected)
    {
      var contact := ContactOf(t, rows.items[i]);
      if contact.None? || contact.value.fingerprint in projected {
        Refused(t, rows.items, i + 1, |rows.items|);
        return None;
      }
      projected := projected[contact.value.fingerprint := contact.value];
      i := i + 1;
    }
    r := Some(projected);
  }

  lemma {:induction false} Refused(t: Tools, rows: seq<Json>, i: nat, n: nat)
    requires i <= n <= |rows| && Contacts(t, rows, i).None?
    ensures Contacts(t, rows, n).None?
  {
    hide ContactOf;
    if i < n {
      Refused(t, rows, i, n - 1);
    }
  }

  /** No two rows share a fingerprint, and every contact is stored under its own. */
  lemma {:induction false} OneContactPerRow(t: Tools, rows: seq<Json>, n: nat)
    requires n <= |rows| && Contacts(t, rows, n).Some?
    ensures |Contacts(t, rows, n).value| == n
    ensures forall f :: f in Contacts(t, rows, n).value ==> Contacts(t, rows, n).value[f].fingerprint == f
  {
    hide ContactOf;
    if n > 0 {
      OneContactPerRow(t, rows, n - 1);
    }
  }
}
