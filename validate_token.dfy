/** The `validate_token` handler of user-service/src/utils/validate_token.rs:
    take the `Authorization` header, require it to be visible ASCII and to
    start with the exact, case-sensitive `Bearer ` of section 2.1 of
    RFC 6750, then answer 200 or 401 by an HS256 decode (section 3.2 of
    RFC 7518) of the rest. The decode is a parameter. */
module ValidateToken {
  import opened Common

  /** A request header as received: a name and the raw octets of its value. */
  datatype Header = Header(name: string, value: seq<byte>)

  /** What the handler does: answer, or panic on the `unwrap` of an unset `SECRET`. */
  datatype Reply = Respond(response: HttpResponse) | Panic

  const AuthorizationHeader: string := "Authorization"
  const BearerPrefix: string := "Bearer "

  function AsciiLower(c: char): (d: char)
    ensures 'A' <= c <= 'Z' ==> d as int == c as int + 32
    ensures !('A' <= c <= 'Z') ==> d == c
  {
    if 'A' <= c <= 'Z' then (c as int + 32) as char else c
  }

  /** Header names compare without regard to ASCII case. */
  predicate SameName(a: string, b: string) {
    |a| == |b| && forall i :: 0 <= i < |a| ==> AsciiLower(a[i]) == AsciiLower(b[i])
  }

  /** `HeaderMap::get`: the value of the first header with this name. */
  function GetHeader(headers: seq<Header>, name: string): (r: Option<seq<byte>>)
    ensures r.None? <==> forall i :: 0 <= i < |headers| ==> !SameName(headers[i].name, name)
    ensures r.Some? ==> exists i :: (0 <= i < |headers| && SameName(headers[i].name, name)
                                     && headers[i].value == r.value
                                     && forall j :: 0 <= j < i ==> !SameName(headers[j].name, name))
  {
    if headers == [] then None
    else if SameName(headers[0].name, name) then Some(headers[0].value)
    else
      var r := GetHeader(headers[1..], name);
      assert forall i :: 1 <= i < |headers| ==> headers[i] == headers[1..][i - 1];
      if r.Some? then
        var k :| 0 <= k < |headers[1..]| && SameName(headers[1..][k].name, name)
          && headers[1..][k].value == r.value
          && forall j :: 0 <= j < k ==> !SameName(headers[1..][j].name, name);
        assert SameName(headers[k + 1].name, name) && headers[k + 1].value == r.value;
        assert forall j :: 0 <= j < k + 1 ==> !SameName(headers[j].name, name) by {
          forall j | 0 <= j < k + 1 ensures !SameName(headers[j].name, name) {
            if j > 0 { assert headers[j] == headers[1..][j - 1]; }
          }
        }
        r
      else r
  }

  /** The octets `HeaderValue::to_str` accepts: tab and 32 to 126. */
  predicate IsVisibleAscii(b: byte) {
    b == 9 || 32 <= b < 127
  }

  /** `HeaderValue::to_str`: the value as text when every octet is visible ASCII. */
  function HeaderToStr(value: seq<byte>): (r: Option<string>)
    ensures r.Some? <==> forall i :: 0 <= i < |value| ==> IsVisibleAscii(value[i])
    ensures r.Some? ==> |r.value| == |value| && forall i :: 0 <= i < |value| ==> r.value[i] as int == value[i]
  {
    if forall i :: 0 <= i < |value| ==> IsVisibleAscii(value[i]) then
      Some(seq(|value|, i requires 0 <= i < |value| => value[i] as char))
    else None
  }

  /** The octets of an ASCII text, as a client sends them. */
  function AsciiBytes(s: string): (bs: seq<byte>)
    requires forall i :: 0 <= i < |s| ==> s[i] as int < 256
    ensures |bs| == |s| && forall i :: 0 <= i < |s| ==> bs[i] == s[i] as int
  {
    seq(|s|, i requires 0 <= i < |s| => s[i] as int)
  }

  /** The `Option` chain: header, then `to_str`, then `strip_prefix("Bearer ")`. */
  function BearerToken(headers: seq<Header>): (t: Option<string>)
    ensures t.Some? <==>
      && GetHeader(headers, AuthorizationHeader).Some?
      && HeaderToStr(GetHeader(headers, AuthorizationHeader).value).Some?
      && StartsWith(HeaderToStr(GetHeader(headers, AuthorizationHeader).value).value, BearerPrefix)
    ensures t.Some? ==>
      && GetHeader(headers, AuthorizationHeader).Some?
      && HeaderToStr(GetHeader(headers, AuthorizationHeader).value) == Some(BearerPrefix + t.value)
  {
    match GetHeader(headers, AuthorizationHeader)
    case None => None
    case Some(value) =>
      match HeaderToStr(value)
      case None => None
      case Some(s) => StripPrefix(s, BearerPrefix)
  }

  /** `validate_token`. The header is examined before `SECRET` is read, so
      a request without a usable bearer header is answered 401 even when the
      secret is unset. `decode(token, secret)` says whether the HS256 decode
      and its validation succeed. */
  function ValidateToken(headers: seq<Header>, secret: Option<string>, decode: (string, string) -> bool): (r: Reply)
    ensures BearerToken(headers).None? ==> r == Respond(HttpResponse(StatusUnauthorized, Empty))
    ensures BearerToken(headers).Some? && secret.None? ==> r == Panic
    ensures secret.Some? ==> r.Respond? && r.response.status in {StatusOk, StatusUnauthorized} && r.response.body == Empty
    ensures r.Respond? && r.response.status == StatusOk
        <==> BearerToken(headers).Some? && secret.Some? && decode(BearerToken(headers).value, secret.value)
  {
    match BearerToken(headers)
    case None => Respond(HttpResponse(StatusUnauthorized, Empty))
    case Some(token) =>
      match secret
      case None => Panic
      case Some(key) =>
        if decode(token, key) then Respond(HttpResponse(StatusOk, Empty))
        else Respond(HttpResponse(StatusUnauthorized, Empty))
  }

  /** The token handed to the decoder is the header text with exactly its
      first seven characters, `Bearer `, removed. */
  lemma TokenIsHeaderWithoutPrefix(headers: seq<Header>)
    requires BearerToken(headers).Some?
    ensures var text := HeaderToStr(GetHeader(headers, AuthorizationHeader).value).value;
      |text| >= 7 && text[..7] == "Bearer " && BearerToken(headers).value == text[7..]
  {
    var text := HeaderToStr(GetHeader(headers, AuthorizationHeader).value).value;
    var t := BearerToken(headers).value;
    assert text == BearerPrefix + t;
    assert text[..7] == BearerPrefix && text[7..] == t;
  }

  /** Whatever headers precede or follow it, an `Authorization` value that
      reads as `Bearer <x>` yields exactly `<x>`. */
  lemma BearerHeaderYieldsToken(headers: seq<Header>, x: string)
    ensures GetHeader(headers, AuthorizationHeader).Some?
         && HeaderToStr(GetHeader(headers, AuthorizationHeader).value) == Some(BearerPrefix + x)
         ==> BearerToken(headers) == Some(x)
  {
    StripPrefixOfConcat(BearerPrefix, x);
  }

  /** Text in visible ASCII, sent as octets, reads back unchanged. */
  lemma AsciiRoundTrip(s: string)
    requires forall i :: 0 <= i < |s| ==> 32 <= s[i] as int < 127
    ensures HeaderToStr(AsciiBytes(s)) == Some(s)
  {
    var bs := AsciiBytes(s);
    assert forall i :: 0 <= i < |bs| ==> IsVisibleAscii(bs[i]);
    var t := HeaderToStr(bs).value;
    forall i | 0 <= i < |s| ensures t[i] == s[i] {
      assert t[i] as int == bs[i] == s[i] as int;
    }
    assert t == s;
  }

  /** A client that sends `Authorization: Bearer <token>` in visible ASCII,
      as the first authorization header, has exactly `<token>` decoded. */
  lemma BearerHeaderRoundTrip(token: string, rest: seq<Header>)
    requires forall i :: 0 <= i < |token| ==> 32 <= token[i] as int < 127
    ensures BearerToken([Header(AuthorizationHeader, AsciiBytes(BearerPrefix + token))] + rest) == Some(token)
  {
    var text := BearerPrefix + token;
    var headers := [Header(AuthorizationHeader, AsciiBytes(text))] + rest;
    assert SameName(headers[0].name, AuthorizationHeader);
    assert GetHeader(headers, AuthorizationHeader) == Some(AsciiBytes(text));
    forall i | 0 <= i < |text| ensures 32 <= text[i] as int < 127 {
      if i >= |BearerPrefix| { assert text[i] == token[i - |BearerPrefix|]; }
    }
    AsciiRoundTrip(text);
    StripPrefixOfConcat(BearerPrefix, token);
  }

  /** The prefix match is case-sensitive: `bearer abc` is refused with 401,
      even though header names themselves match without regard to case. */
  lemma LowerCaseSchemeIsRefused(secret: Option<string>, decode: (string, string) -> bool)
    ensures ValidateToken([Header("authorization", AsciiBytes("bearer abc"))], secret, decode)
         == Respond(HttpResponse(StatusUnauthorized, Empty))
  {
    var headers := [Header("authorization", AsciiBytes("bearer abc"))];
    assert SameName("authorization", AuthorizationHeader);
    assert GetHeader(headers, AuthorizationHeader) == Some(AsciiBytes("bearer abc"));
    AsciiRoundTrip("bearer abc");
    assert !StartsWith("bearer abc", BearerPrefix) by {
      assert "bearer abc"[0] != BearerPrefix[0];
    }
  }

  /** A header value with an octet outside visible ASCII is refused with 401. */
  lemma NonVisibleHeaderIsRefused(value: seq<byte>, k: nat, secret: Option<string>, decode: (string, string) -> bool)
    requires k < |value| && !IsVisibleAscii(value[k])
    ensures ValidateToken([Header(AuthorizationHeader, value)], secret, decode)
         == Respond(HttpResponse(StatusUnauthorized, Empty))
  {
    assert SameName(AuthorizationHeader, AuthorizationHeader);
    assert GetHeader([Header(AuthorizationHeader, value)], AuthorizationHeader) == Some(value);
  }
}
