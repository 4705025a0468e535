/** The WordPress per-user meta table that both the credential store and
    the challenge lifecycle write: one value per (user id, meta key). */
module UserMeta {
  import opened Outcomes
  import opened Credentials

  /** The WP_User fields the plugin reads. */
  datatype WpUser = WpUser(id: nat, login: string, displayName: string)

  /** A credential record as saved: the serialized source with the two
      custom entries the plugin adds. An entry that is absent from the
      stored JSON is None. */
  datatype StoredSource = StoredSource(fields: SerializedSource, name: Option<string>, created: Option<int>)

  /** A meta value: the JSON text of a stored credential record, or other
      text (a challenge) that json_decode turns into null. */
  datatype MetaValue = Json(record: StoredSource) | Text(text: string)

  // ---------------------------------------------------------------------
  // Slashes

  /** PHP stripslashes, which wp_unslash applies: a backslash is dropped and
      the character after it kept, except that "\0" becomes NUL; a lone
      backslash at the end is dropped. */
  function StripSlashes(s: string): (r: string)
    ensures |r| <= |s|
    decreases |s|
  {
    if s == [] then []
    else if s[0] != '\\' then [s[0]] + StripSlashes(s[1..])
    else if |s| == 1 then []
    else (if s[1] == '0' then ['\0'] else [s[1]]) + StripSlashes(s[2..])
  }

  /** PHP addcslashes(s, '\\'): every backslash doubled. */
  function AddBackslashes(s: string): (r: string)
    ensures |r| >= |s|
    decreases |s|
  {
    if s == [] then []
    else (if s[0] == '\\' then "\\\\" else [s[0]]) + AddBackslashes(s[1..])
  }

  /** update_user_meta unslashes what it is given, so the plugin's
      addcslashes of the JSON text is undone and the text is stored as
      wp_json_encode produced it. */
  lemma {:induction false} StripAddedSlashes(s: string)
    ensures StripSlashes(AddBackslashes(s)) == s
    decreases |s|
  {
    if s != [] {
      StripAddedSlashes(s[1..]);
      var rest := AddBackslashes(s[1..]);
      if s[0] == '\\' {
        assert AddBackslashes(s) == "\\\\" + rest;
        assert ("\\\\" + rest)[2..] == rest;
      } else {
        assert AddBackslashes(s) == [s[0]] + rest;
        assert ([s[0]] + rest)[1..] == rest;
      }
    }
  }

  /** Text without backslashes, such as a UUID, is stored unchanged. */
  lemma {:induction false} StripSlashesWithout(s: string)
    requires forall i :: 0 <= i < |s| ==> s[i] != '\\'
    ensures StripSlashes(s) == s
    decreases |s|
  {
    if s != [] {
      StripSlashesWithout(s[1..]);
    }
  }

  /** The value update_user_meta writes for a given argument. A credential
      record arrives as addcslashes-escaped JSON, which StripAddedSlashes
      shows comes back to the JSON itself. */
  function Unslashed(v: MetaValue): (r: MetaValue)
    ensures r.Json? <==> v.Json?
    ensures v.Json? ==> r == v
    ensures v.Text? ==> |r.text| <= |v.text|
  {
    match v
    case Json(_) => v
    case Text(t) => Text(StripSlashes(t))
  }

  type Rows = map<(nat, string), MetaValue>

  class UserMetaTable {
    var rows: Rows

    constructor(initial: Rows)
      ensures rows == initial
    {
      rows := initial;
    }

    /** update_user_meta: add or replace the user's value under the key,
        after unslashing it; nothing else changes. */
    method Update(user: nat, key: string, value: MetaValue)
      modifies this
      ensures rows == old(rows)[(user, key) := Unslashed(value)]
    {
      rows := rows[(user, key) := Unslashed(value)];
    }

    /** delete_user_meta: remove the user's value under the key, reporting
        whether there was one. */
    method Delete(user: nat, key: string) returns (deleted: bool)
      modifies this
      ensures deleted <==> (user, key) in old(rows)
      ensures rows == old(rows) - {(user, key)}
    {
      deleted := (user, key) in rows;
      rows := rows - {(user, key)};
    }

    /** get_user_meta(user, key, true): the stored value, or '' when the
        user has none under the key. */
    function Get(user: nat, key: string): (v: MetaValue)
      reads this
      ensures (user, key) !in rows ==> v == Text("")
      ensures (user, key) in rows ==> v == rows[(user, key)]
    {
      if (user, key) in rows then rows[(user, key)] else Text("")
    }
  }
}
