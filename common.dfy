/** Shared value types used by both services: optional values and results,
    the parts of a JSON document and of an HTTP response that the handlers
    produce, and the string helper behind Rust's `str::strip_prefix`. */
module Common {

  /** An octet, as read from an HTTP header value or a UUID. */
  type byte = x: int | 0 <= x < 256

  datatype Option<+T> = None | Some(value: T)

  datatype Result<+T, +E> = Ok(value: T) | Err(error: E)

  /** The JSON values the services emit through serde. */
  datatype Json =
    | JString(text: string)
    | JObject(members: seq<(string, Json)>)

  /** The body an actix-web response builder produces: `finish()` gives
      an empty body, `body(s)` plain text and `json(v)` a serialised value. */
  datatype Body = Empty | Text(text: string) | JsonBody(json: Json)

  datatype HttpResponse = HttpResponse(status: nat, body: Body)

  const StatusOk: nat := 200
  const StatusBadRequest: nat := 400
  const StatusUnauthorized: nat := 401
  const StatusNotFound: nat := 404
  const StatusInternalServerError: nat := 500

  /** The keys of a JSON object, in order. */
  function Keys(members: seq<(string, Json)>): (ks: seq<string>)
    ensures |ks| == |members|
    ensures forall i :: 0 <= i < |members| ==> ks[i] == members[i].0
  {
    if members == [] then [] else [members[0].0] + Keys(members[1..])
  }

  /** The value stored under `key` in a JSON object (the first one, if any). */
  function Lookup(members: seq<(string, Json)>, key: string): (r: Option<Json>)
    ensures r.None? <==> key !in Keys(members)
    ensures r.Some? ==> exists i :: 0 <= i < |members| && members[i] == (key, r.value)
                                   && forall j :: 0 <= j < i ==> members[j].0 != key
  {
    if members == [] then None
    else if members[0].0 == key then Some(members[0].1)
    else Lookup(members[1..], key)
  }

  /** An object of four members with distinct keys: its keys in order, and
      the value under each. */
  lemma FourMembers(m1: (string, Json), m2: (string, Json), m3: (string, Json), m4: (string, Json))
    requires m1.0 != m2.0 && m1.0 != m3.0 && m1.0 != m4.0 && m2.0 != m3.0 && m2.0 != m4.0 && m3.0 != m4.0
    ensures Keys([m1, m2, m3, m4]) == [m1.0, m2.0, m3.0, m4.0]
    ensures Lookup([m1, m2, m3, m4], m1.0) == Some(m1.1)
    ensures Lookup([m1, m2, m3, m4], m2.0) == Some(m2.1)
    ensures Lookup([m1, m2, m3, m4], m3.0) == Some(m3.1)
    ensures Lookup([m1, m2, m3, m4], m4.0) == Some(m4.1)
  {
    var all := [m1, m2, m3, m4];
    assert all[1..] == [m2, m3, m4] && all[1..][1..] == [m3, m4] && all[1..][1..][1..] == [m4];
    assert Lookup([m3, m4], m4.0) == Some(m4.1);
    assert Lookup([m2, m3, m4], m3.0) == Some(m3.1);
    assert Lookup([m2, m3, m4], m4.0) == Some(m4.1);
  }

  predicate StartsWith(s: string, prefix: string) {
    |prefix| <= |s| && s[..|prefix|] == prefix
  }

  /** `str::strip_prefix`: the rest of `s` after an exact, case-sensitive
      `prefix`, or nothing when `s` does not start with it. */
  function StripPrefix(s: string, prefix: string): (r: Option<string>)
    ensures r.Some? <==> StartsWith(s, prefix)
    ensures r.Some? ==> prefix + r.value == s
  {
    if StartsWith(s, prefix) then
      assert s == s[..|prefix|] + s[|prefix|..];
      Some(s[|prefix|..])
    else None
  }

  /** Stripping a prefix undoes prepending it. */
  lemma StripPrefixOfConcat(prefix: string, rest: string)
    ensures StripPrefix(prefix + rest, prefix) == Some(rest)
  {
    assert (prefix + rest)[..|prefix|] == prefix;
    assert (prefix + rest)[|prefix|..] == rest;
  }
}
