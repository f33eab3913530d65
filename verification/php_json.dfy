/** A value produced by PHP's `json_decode($text, true)`: JSON objects
    become associative arrays, JSON arrays become lists. Text that is not
    valid JSON decodes to `null`, so it is represented by `JNull`. */
module PhpJson {
  import opened Optional
  import opened PhpStrings

  datatype Json =
    | JNull
    | JBool(b: bool)
    | JNumber(n: int)
    | JString(s: string)
    | JList(items: seq<Json>)
    | JObject(members: seq<(string, Json)>)

  /** The keys the plugin reads from a decoded body ("json", "data", "url",
      "access_token", "refresh_token") are lower-case identifiers. For such a
      key PHP's numeric-key normalisation never applies, so it can only name
      a member of a decoded object, never a list position. */
  predicate IsIdentifierKey(key: string) {
    |key| > 0 && forall i :: 0 <= i < |key| ==> ('a' <= key[i] <= 'z' || key[i] == '_')
  }

  /** The member at index `i` is the last one named `key`. */
  predicate IsLastWithKey(members: seq<(string, Json)>, key: string, i: int) {
    && 0 <= i < |members|
    && members[i].0 == key
    && forall j :: i < j < |members| ==> members[j].0 != key
  }

  /** The value stored under `key` in the array decoded from an object.
      When the object repeats a key, the later member overwrites the earlier
      one, so the search runs from the last member backwards. */
  function Lookup(members: seq<(string, Json)>, key: string): Option<Json>
    decreases |members|
  {
    if |members| == 0 then None
    else if members[|members| - 1].0 == key then Some(members[|members| - 1].1)
    else Lookup(members[..|members| - 1], key)
  }

  /** The lookup finds nothing exactly when no member has the key. */
  lemma {:induction false} LookupAbsent(members: seq<(string, Json)>, key: string)
    ensures Lookup(members, key).None? <==> forall i :: 0 <= i < |members| ==> members[i].0 != key
    decreases |members|
  {
    if |members| > 0 {
      var n := |members| - 1;
      var front := members[..n];
      LookupAbsent(front, key);
      if members[n].0 != key {
        assert forall i :: 0 <= i < n ==> front[i] == members[i];
      }
    }
  }

  /** The lookup finds the value of the last member with the key. */
  lemma {:induction false} LookupFindsLast(members: seq<(string, Json)>, key: string, i: int)
    requires IsLastWithKey(members, key, i)
    ensures Lookup(members, key) == Some(members[i].1)
    decreases |members|
  {
    var n := |members| - 1;
    if i < n {
      assert members[n].0 != key;
      var front := members[..n];
      assert IsLastWithKey(front, key, i);
      LookupFindsLast(front, key, i);
    }
  }

  /** The PHP offset read `$v[key]`: only an array decoded from an object can
      hold an identifier key; reading it from a list, a string, a number, a
      boolean or null yields nothing. */
  function Field(v: Json, key: string): Option<Json>
    requires IsIdentifierKey(key)
  {
    match v
    case JObject(members) => Lookup(members, key)
    case _ => None
  }

  /** `isset($v[k1][k2]...[kn])`: every offset along the path exists and the
      value it finally reaches is not null. With an empty path it is
      `isset($v)`. */
  function IsSetPath(v: Json, path: seq<string>): (r: bool)
    requires forall i :: 0 <= i < |path| ==> IsIdentifierKey(path[i])
    ensures r && |path| > 0 ==> v.JObject?
    decreases |path|
  {
    if |path| == 0 then !v.JNull?
    else
      match Field(v, path[0])
      case None => false
      case Some(inner) => IsSetPath(inner, path[1..])
  }

  /** PHP truthiness of a decoded value (`if ($v)`, and `!empty($v)` for a
      variable that exists). */
  predicate Truthy(v: Json) {
    match v
    case JNull => false
    case JBool(b) => b
    case JNumber(n) => n != 0
    case JString(s) => !IsFalsy(s)
    case JList(items) => |items| > 0
    case JObject(members) => |members| > 0
  }
}
