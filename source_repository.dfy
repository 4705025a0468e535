/** Source_Repository: the plugin's credential store, kept in the usermeta
    table under keys "wp_passkey_" + credential id. Save and delete derive
    the key from the unpadded base64url encoding of the raw credential id;
    find prefixes the id exactly as it is given. The per-user listing
    matches every key that starts with "wp_passkey_", which includes the
    challenge row the server writes. */
module SourceRepository {
  import opened Outcomes
  import opened Base64
  import opened Credentials
  import opened UserMeta

  const KeyPrefix := "wp_passkey_"
  const ChallengeKey := "wp_passkey_challenge"

  const UserNotFound := "User not found."
  const UnableToDelete := "Unable to delete credential source."

  function CredentialKey(id: string): (k: string)
    ensures |k| == |KeyPrefix| + |id| && k[..|KeyPrefix|] == KeyPrefix && k[|KeyPrefix|..] == id
  {
    KeyPrefix + id
  }

  /** meta_key LIKE 'wp_passkey_%', read as a prefix match. */
  predicate IsPasskeyKey(k: string)
  {
    |KeyPrefix| <= |k| && k[..|KeyPrefix|] == KeyPrefix
  }

  /** No user has anything but text under the challenge key. */
  ghost predicate ChallengesAreText(rows: Rows)
  {
    forall p :: p in rows && p.1 == ChallengeKey ==> rows[p].Text?
  }

  // ---------------------------------------------------------------------
  // findOneByCredentialId

  /** The users that hold a row under key. */
  function Owners(rows: Rows, key: string): (r: set<nat>)
    ensures forall u :: u in r <==> (u, key) in rows
  {
    set p | p in rows && p.1 == key :: p.0
  }

  /** What findOneByCredentialId makes of the row it fetched: '' and '0' are
      falsy and give null; other text decodes to null, which
      createFromArray's array parameter refuses with a TypeError; a stored
      record is handed to createFromArray. */
  function ReadRow(v: MetaValue): (r: Result<Option<Source>, Failure>)
    ensures r == Ok(None) <==> v == Text("") || v == Text("0")
    ensures r.Ok? && r.value.Some? ==> v.Json? && CreateFromArray(v.record.fields) == Ok(r.value.value)
    ensures v.Json? && CreateFromArray(v.record.fields).Err? ==> r == Err(CreateFromArray(v.record.fields).error)
    ensures v.Json? && CreateFromArray(v.record.fields).Ok? ==> r == Ok(Some(CreateFromArray(v.record.fields).value))
    ensures v.Text? && v.text != "" && v.text != "0" ==> r == Err(TypeError)
  {
    match v
    case Text(t) => if t == "" || t == "0" then Ok(None) else Err(TypeError)
    case Json(record) =>
      match CreateFromArray(record.fields)
      case Ok(s) => Ok(Some(s))
      case Err(e) => Err(e)
  }

  /** The results findOneByCredentialId may give: get_row takes the first
      matching row in an order SQL leaves open, so any owner's row may be
      the one read; with no owner the result is null. */
  function FindResults(rows: Rows, id: string): (r: set<Result<Option<Source>, Failure>>)
    ensures Owners(rows, CredentialKey(id)) == {} ==> r == {Ok(None)}
    ensures forall u :: u in Owners(rows, CredentialKey(id)) ==> ReadRow(rows[(u, CredentialKey(id))]) in r
    ensures forall x :: x in r && Owners(rows, CredentialKey(id)) != {} ==>
              exists u :: u in Owners(rows, CredentialKey(id)) && x == ReadRow(rows[(u, CredentialKey(id))])
  {
    var key := CredentialKey(id);
    var owners := Owners(rows, key);
    if owners == {} then {Ok(None)}
    else set u | u in owners :: ReadRow(rows[(u, key)])
  }

  // ---------------------------------------------------------------------
  // findAllForUserEntity

  /** A listed credential with the two custom entries, each defaulting to
      '' (None for created) when absent. */
  datatype Listed = Listed(source: Source, name: string, created: Option<int>)

  /** The user's keys that the LIKE pattern matches. */
  function UserKeys(rows: Rows, user: nat): (r: set<string>)
    ensures forall k :: k in r <==> (user, k) in rows && IsPasskeyKey(k)
  {
    set p | p in rows && p.0 == user && IsPasskeyKey(p.1) :: p.1
  }

  /** keys lists the elements of s, each once. */
  ghost predicate IsOrdering(keys: seq<string>, s: set<string>)
  {
    (forall i, j :: 0 <= i < j < |keys| ==> keys[i] != keys[j]) &&
    (forall k :: k in keys <==> k in s)
  }

  /** One row of the listing: text decodes to a falsy value and is filtered
      out; a record is decoded and given its name and created entries. */
  function ListOne(v: MetaValue): (r: Result<Option<Listed>, Failure>)
    ensures v.Text? ==> r == Ok(None)
    ensures v.Json? ==> (r.Ok? <==> CreateFromArray(v.record.fields).Ok?)
    ensures r.Ok? && r.value.Some? ==>
              v.Json? && r.value.value.source == CreateFromArray(v.record.fields).value &&
              r.value.value.created == v.record.created &&
              (v.record.name.None? ==> r.value.value.name == "")
    ensures v.Json? && CreateFromArray(v.record.fields).Ok? ==>
              r == Ok(Some(Listed(CreateFromArray(v.record.fields).value,
                                  if v.record.name.Some? then v.record.name.value else "",
                                  v.record.created)))
    ensures v.Json? && CreateFromArray(v.record.fields).Err? ==> r == Err(CreateFromArray(v.record.fields).error)
  {
    match v
    case Text(_) => Ok(None)
    case Json(record) =>
      match CreateFromArray(record.fields)
      case Err(e) => Err(e)
      case Ok(s) =>
        Ok(Some(Listed(s, match record.name case Some(n) => n case None => "", record.created)))
  }

  /** The listing for the user's rows taken in the order keys gives;
      the first record createFromArray refuses makes the whole call throw. */
  function ListRows(rows: Rows, user: nat, keys: seq<string>): Result<seq<Listed>, Failure>
    requires forall k :: k in keys ==> (user, k) in rows
    decreases |keys|
  {
    if keys == [] then Ok([])
    else
      match ListRows(rows, user, keys[..|keys| - 1])
      case Err(e) => Err(e)
      case Ok(prefix) =>
        match ListOne(rows[(user, keys[|keys| - 1])])
        case Err(e) => Err(e)
        case Ok(None) => Ok(prefix)
        case Ok(Some(l)) => Ok(prefix + [l])
  }

  /** Some order in which the elements of a set can be listed. */
  ghost function Enumerate(s: set<string>): (r: seq<string>)
    ensures IsOrdering(r, s)
    decreases s
  {
    if s == {} then []
    else
      var x :| x in s;
      var rest := Enumerate(s - {x});
      assert forall i :: 0 <= i < |rest| ==> rest[i] != x;
      [x] + rest
  }

  // ---------------------------------------------------------------------
  // saveCredentialSource and deleteCredentialSource

  /** The record save writes: the serialized source, named after the
      encoded user handle and stamped with the time. */
  function Record(src: Source, now: int): (r: StoredSource)
    ensures r.fields == Serialize(src)
    ensures r.name == Some(UrlEncode(src.userHandle)) && r.created == Some(now)
  {
    StoredSource(Serialize(src), Some(Serialize(src).userHandle), Some(now))
  }

  /** The table after the owner's record for src is written. */
  function SavedRows(rows: Rows, user: nat, src: Source, now: int): (r: Rows)
    ensures r.Keys == rows.Keys + {(user, CredentialKey(UrlEncode(src.publicKeyCredentialId)))}
    ensures forall p :: p in rows && p != (user, CredentialKey(UrlEncode(src.publicKeyCredentialId))) ==> r[p] == rows[p]
    ensures r[(user, CredentialKey(UrlEncode(src.publicKeyCredentialId)))] == Json(Record(src, now))
  {
    rows[(user, CredentialKey(UrlEncode(src.publicKeyCredentialId))) := Json(Record(src, now))]
  }

  class CredentialStore {
    /** The usermeta table. */
    const table: UserMetaTable
    /** get_user_by( 'login', ... ). */
    const getUserBy: string -> Option<WpUser>

    constructor(table: UserMetaTable, getUserBy: string -> Option<WpUser>)
      ensures this.table == table && this.getUserBy == getUserBy
    {
      this.table := table;
      this.getUserBy := getUserBy;
    }

    /** findOneByCredentialId: read one row under "wp_passkey_" + id, from
        any user, and decode it. */
    method FindOneByCredentialId(id: string) returns (r: Result<Option<Source>, Failure>)
      ensures r in FindResults(table.rows, id)
    {
      var key := CredentialKey(id);
      var owners := Owners(table.rows, key);
      if owners == {} {
        r := Ok(None);
      } else {
        var u :| u in owners;
        r := ReadRow(table.rows[(u, key)]);
      }
    }

    /** findAllForUserEntity: resolve the login, then decode the user's
        passkey rows one at a time, in the order the database returns them. */
    method FindAllForUserEntity(userHandle: string) returns (r: Result<seq<Listed>, Failure>)
      ensures getUserBy(userHandle).None? ==> r == Err(PhpException(UserNotFound, 400))
      ensures getUserBy(userHandle).Some? ==>
                var user := getUserBy(userHandle).value.id;
                exists keys :: IsOrdering(keys, UserKeys(table.rows, user)) &&
                               r == ListRows(table.rows, user, keys)
    {
      var found := getUserBy(userHandle);
      if found.None? {
        return Err(PhpException(UserNotFound, 400));
      }
      var user := found.value.id;
      ghost var all := UserKeys(table.rows, user);
      var pending := UserKeys(table.rows, user);
      ghost var order: seq<string> := [];
      var listed: seq<Listed> := [];
      while pending != {}
        invariant pending <= all
        invariant forall k :: k in order <==> k in all && k !in pending
        invariant forall i, j :: 0 <= i < j < |order| ==> order[i] != order[j]
        invariant ListRows(table.rows, user, order) == Ok(listed)
        decreases pending
      {
        var k :| k in pending;
        var one := ListOne(table.rows[(user, k)]);
        assert (order + [k])[..|order|] == order;
        if one.Err? {
          ghost var rest := Enumerate(pending - {k});
          ghost var keys := order + [k] + rest;
          ErrorPersists(table.rows, user, order + [k], rest);
          forall i, j | 0 <= i < j < |keys|
            ensures keys[i] != keys[j]
          {
            if j > |order| {
              assert keys[j] == rest[j - |order| - 1];
              assert keys[j] in pending - {k};
              if i > |order| {
                assert keys[i] == rest[i - |order| - 1];
              } else if i < |order| {
                assert keys[i] in order;
              }
            } else if j == |order| {
              assert keys[i] in order;
            }
          }
          assert IsOrdering(keys, all);
          return Err(one.error);
        }
        if one.value.Some? {
          listed := listed + [one.value.value];
        }
        order := order + [k];
        pending := pending - {k};
      }
      assert IsOrdering(order, all);
      r := Ok(listed);
    }

    /** saveCredentialSource: decode the serialized user handle, resolve the
        owner by login, and write the record under the encoded id. */
    method SaveCredentialSource(src: Source, now: int) returns (r: Result<(), Failure>)
      modifies table
      ensures getUserBy(BinaryString(src.userHandle)).None? ==>
                r == Err(PhpException(UserNotFound, 400)) && table.rows == old(table.rows)
      ensures getUserBy(BinaryString(src.userHandle)).Some? ==>
                r == Ok(()) &&
                table.rows == SavedRows(old(table.rows), getUserBy(BinaryString(src.userHandle)).value.id, src, now)
    {
      var serialized := Serialize(src);
      DecodeNoPaddingOfUrlEncode(src.userHandle);
      var handle := DecodeNoPadding(serialized.userHandle).value;
      var found := getUserBy(BinaryString(handle));
      if found.None? {
        return Err(PhpException(UserNotFound, 400));
      }
      var record := StoredSource(serialized, Some(serialized.userHandle), Some(now));
      table.Update(found.value.id, CredentialKey(serialized.publicKeyCredentialId), Json(record));
      r := Ok(());
    }

    /** deleteCredentialSource: resolve the owner by the raw user handle and
        remove the row under the encoded id. */
    method DeleteCredentialSource(src: Source) returns (r: Result<(), Failure>)
      modifies table
      ensures var found := getUserBy(BinaryString(src.userHandle));
              var key := CredentialKey(UrlEncode(src.publicKeyCredentialId));
              if found.None? then
                r == Err(PhpException(UserNotFound, 404)) && table.rows == old(table.rows)
              else if (found.value.id, key) in old(table.rows) then
                r == Ok(()) && table.rows == old(table.rows) - {(found.value.id, key)}
              else
                r == Err(PhpException(UnableToDelete, 500)) && table.rows == old(table.rows)
    {
      var id := UrlEncode(src.publicKeyCredentialId);
      var found := getUserBy(BinaryString(src.userHandle));
      if found.None? {
        return Err(PhpException(UserNotFound, 404));
      }
      var deleted := table.Delete(found.value.id, CredentialKey(id));
      if !deleted {
        return Err(PhpException(UnableToDelete, 500));
      }
      r := Ok(());
    }
  }

  // ---------------------------------------------------------------------
  // Properties

  /** An error in a prefix of the listing is the error of the whole. */
  lemma {:induction false} ErrorPersists(rows: Rows, user: nat, a: seq<string>, b: seq<string>)
    requires forall k :: k in a + b ==> (user, k) in rows
    requires ListRows(rows, user, a).Err?
    ensures ListRows(rows, user, a + b) == ListRows(rows, user, a)
    decreases |b|
  {
    if b != [] {
      var c := a + b[..|b| - 1];
      assert (a + b)[..|a + b| - 1] == c;
      assert b[..|b| - 1] == b[..|b| - 1] && c == a + b[..|b| - 1];
      ErrorPersists(rows, user, a, b[..|b| - 1]);
    } else {
      assert a + b == a;
    }
  }

  /** Saving and then finding by the encoded id yields the saved source
      when no other user holds a row under that key. */
  lemma FindAfterSave(rows: Rows, user: nat, src: Source, now: int)
    requires Owners(rows, CredentialKey(UrlEncode(src.publicKeyCredentialId))) <= {user}
    ensures FindResults(SavedRows(rows, user, src, now), UrlEncode(src.publicKeyCredentialId)) == {Ok(Some(src))}
  {
    var after := SavedRows(rows, user, src, now);
    var key := CredentialKey(UrlEncode(src.publicKeyCredentialId));
    assert Owners(after, key) == {user};
    CreateFromSerialized(src);
  }

  /** Finding by the raw id, as the library does, never sees what save
      wrote: for a non-empty id the raw key differs from the encoded one,
      so the results are those before the save. */
  lemma FindRawIdIgnoresSave(rows: Rows, user: nat, src: Source, now: int)
    requires |src.publicKeyCredentialId| > 0
    ensures FindResults(SavedRows(rows, user, src, now), BinaryString(src.publicKeyCredentialId))
            == FindResults(rows, BinaryString(src.publicKeyCredentialId))
  {
    var id := src.publicKeyCredentialId;
    UrlEncodeLength(id);
    var raw := CredentialKey(BinaryString(id));
    var after := SavedRows(rows, user, src, now);
    assert |raw| != |CredentialKey(UrlEncode(id))|;
    assert Owners(after, raw) == Owners(rows, raw);
    assert forall u :: u in Owners(rows, raw) ==> after[(u, raw)] == rows[(u, raw)];
  }

  /** Save never writes the challenge key: an unpadded encoding never has
      a length leaving remainder one mod four, and "challenge" has nine
      characters. */
  lemma SaveKeepsChallengesText(rows: Rows, user: nat, src: Source, now: int)
    requires ChallengesAreText(rows)
    ensures ChallengesAreText(SavedRows(rows, user, src, now))
  {
    var enc := UrlEncode(src.publicKeyCredentialId);
    UrlEncodeLength(src.publicKeyCredentialId);
    assert |ChallengeKey| == |KeyPrefix| + 9;
    assert CredentialKey(enc) != ChallengeKey;
  }

  /** A second save of the same credential for the same owner replaces the
      first record rather than adding another. */
  lemma SaveOverwrites(rows: Rows, user: nat, first: Source, second: Source, t1: int, t2: int)
    requires first.publicKeyCredentialId == second.publicKeyCredentialId
    ensures SavedRows(SavedRows(rows, user, first, t1), user, second, t2) == SavedRows(rows, user, second, t2)
  {
  }

  /** After the owner's row is deleted, finding by the encoded id gives null
      when no other user held the key. */
  lemma FindAfterDelete(rows: Rows, user: nat, id: seq<uint8>)
    requires Owners(rows, CredentialKey(UrlEncode(id))) <= {user}
    ensures FindResults(rows - {(user, CredentialKey(UrlEncode(id)))}, UrlEncode(id)) == {Ok(None)}
  {
    var key := CredentialKey(UrlEncode(id));
    assert Owners(rows - {(user, key)}, key) == {};
  }

  /** Everything listed comes from a record row of that user under a
      passkey key, decoded by createFromArray. */
  lemma {:induction false} ListedFromOwnRows(rows: Rows, user: nat, keys: seq<string>)
    requires forall k :: k in keys ==> (user, k) in rows
    requires ListRows(rows, user, keys).Ok?
    ensures forall l :: l in ListRows(rows, user, keys).value ==>
              exists k :: k in keys && rows[(user, k)].Json? &&
                          CreateFromArray(rows[(user, k)].record.fields) == Ok(l.source)
    decreases |keys|
  {
    if keys != [] {
      var init := keys[..|keys| - 1];
      assert forall k :: k in init ==> k in keys;
      ListedFromOwnRows(rows, user, init);
    }
  }

  /** Text rows, the challenge among them, are skipped: a user whose
      passkey rows are all text is listed as []. */
  lemma {:induction false} TextRowsSkipped(rows: Rows, user: nat, keys: seq<string>)
    requires forall k :: k in keys ==> (user, k) in rows && rows[(user, k)].Text?
    ensures ListRows(rows, user, keys) == Ok([])
    decreases |keys|
  {
    if keys != [] {
      var init := keys[..|keys| - 1];
      assert forall k :: k in init ==> k in keys;
      TextRowsSkipped(rows, user, init);
    }
  }

  /** When every record decodes, the listing has one entry per record row,
      whatever the order. */
  lemma {:induction false} ListingCountsRecords(rows: Rows, user: nat, keys: seq<string>)
    requires forall k :: k in keys ==> (user, k) in rows
    requires forall k :: k in keys && rows[(user, k)].Json? ==> CreateFromArray(rows[(user, k)].record.fields).Ok?
    ensures ListRows(rows, user, keys).Ok?
    ensures |ListRows(rows, user, keys).value| == |RecordKeys(rows, user, keys)|
    decreases |keys|
  {
    if keys != [] {
      var init := keys[..|keys| - 1];
      assert forall k :: k in init ==> k in keys;
      ListingCountsRecords(rows, user, init);
    }
  }

  /** The keys whose rows are records, in order. */
  function RecordKeys(rows: Rows, user: nat, keys: seq<string>): (r: seq<string>)
    requires forall k :: k in keys ==> (user, k) in rows
    ensures |r| <= |keys|
    ensures forall k :: k in r <==> k in keys && rows[(user, k)].Json?
    decreases |keys|
  {
    if keys == [] then []
    else
      var init := RecordKeys(rows, user, keys[..|keys| - 1]);
      assert forall k :: k in keys[..|keys| - 1] ==> k in keys;
      assert keys == keys[..|keys| - 1] + [keys[|keys| - 1]];
      if rows[(user, keys[|keys| - 1])].Json? then init + [keys[|keys| - 1]] else init
  }
}
