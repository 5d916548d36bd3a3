/** The bearer-token helpers: `generate_token`, `parse_token`,
    `get_bearer_token` and the token checks of `require_auth`.  A token is
    the base64 text of "<user id>:<time>"; it carries no signature and no
    expiry. */
module Middleware {
  import opened Wrappers
  import opened PhpStrings
  import opened Base64

  /** The end of `get_authorization_header`: a truthy header value is
      trimmed, anything else is null.  `raw` is the value its header lookup
      found. */
  function AuthorizationHeader(raw: Option<string>): (r: Option<string>)
    ensures r.Some? <==> raw.Some? && Truthy(raw.value)
    ensures r.Some? && r.value != [] ==> !IsTrimmed(r.value[0]) && !IsTrimmed(r.value[|r.value| - 1])
  {
    if raw.Some? && Truthy(raw.value) then Some(Trim(raw.value)) else None
  }

  /** `stripos($auth, 'Bearer ') === 0`: the first seven characters are
      "Bearer " in any letter case. */
  predicate HasBearerScheme(auth: string) {
    |auth| >= 7 && LowerAscii(auth[..7]) == "bearer "
  }

  /** The scheme test compares character by character, each character of
      the header lower-cased: "Bearer ", "BEARER " and "bEaReR " all pass. */
  lemma BearerSchemeByChars(auth: string)
    ensures HasBearerScheme(auth) <==> |auth| >= 7 && forall i :: 0 <= i < 7 ==> LowerChar(auth[i]) == "bearer "[i]
  {
    if |auth| >= 7 {
      var lowered := LowerAscii(auth[..7]);
      assert forall i :: 0 <= i < 7 ==> lowered[i] == LowerChar(auth[i]);
    }
  }

  /** `get_bearer_token`: the trimmed text after the seven characters of the
      scheme, when the trimmed header is truthy and starts with the scheme
      in any case; null otherwise. */
  function GetBearerToken(raw: Option<string>): (r: Option<string>)
    ensures r.Some? <==> raw.Some? && Truthy(raw.value) && HasBearerScheme(Trim(raw.value))
    ensures r.Some? ==> r.value == Trim(Trim(raw.value)[7..])
  {
    match AuthorizationHeader(raw)
    case None => None
    case Some(auth) => if Truthy(auth) && HasBearerScheme(auth) then Some(Trim(auth[7..])) else None
  }

  /** A non-empty string with no trim character at either end. */
  predicate Untrimmed(s: string) {
    s != [] && !IsTrimmed(s[0]) && !IsTrimmed(s[|s| - 1])
  }

  /** Base64 text has no trim character at either end. */
  lemma EncodedUntrimmed(s: string)
    requires IsByteString(s) && s != []
    ensures Untrimmed(Encode(s))
  {
    var r := Encode(s);
    EncodedForm(s);
    var last := |r| - 1;
    assert 0 < last;
    assert SextetValue(r[last]).Some? || r[last] == '=';
    assert SextetValue(r[0]).Some? || r[0] == '=';
  }

  /** A header of the scheme in any case and a token, with any trim
      characters around and between them, yields exactly the token. */
  lemma BearerTokenRoundTrip(w1: string, scheme: string, w2: string, token: string, w3: string)
    requires AllTrimmed(w1) && AllTrimmed(w2) && AllTrimmed(w3)
    requires |scheme| == 7 && LowerAscii(scheme) == "bearer "
    requires Untrimmed(token)
    ensures GetBearerToken(Some(w1 + (scheme + (w2 + token)) + w3)) == Some(token)
  {
    TrimmedHeader(w1, scheme, w2, token, w3);
    BearerTokenOf(w1 + (scheme + (w2 + token)) + w3, scheme + (w2 + token), token);
  }

  /** The trimmed header of `BearerTokenRoundTrip` is the scheme, the trim
      characters after it and the token. */
  lemma TrimmedHeader(w1: string, scheme: string, w2: string, token: string, w3: string)
    requires AllTrimmed(w1) && AllTrimmed(w2) && AllTrimmed(w3)
    requires |scheme| == 7 && LowerAscii(scheme) == "bearer "
    requires Untrimmed(token)
    ensures Trim(w1 + (scheme + (w2 + token)) + w3) == scheme + (w2 + token)
    ensures HasBearerScheme(scheme + (w2 + token)) && Trim((scheme + (w2 + token))[7..]) == token
  {
    var rest := w2 + token;
    var x := scheme + rest;
    TokenAfterSpace(w2, token);
    SchemeInFront(scheme, rest);
    TrimAround(w1, x, w3);
  }

  /** Trim characters before an untrimmed token are trimmed away, and the
      token still ends the text. */
  lemma TokenAfterSpace(w: string, token: string)
    requires AllTrimmed(w) && Untrimmed(token)
    ensures Trim(w + token) == token
    ensures w + token != [] && !IsTrimmed((w + token)[|w + token| - 1])
  {
    assert w + token + [] == w + token;
    TrimAround(w, token, []);
    var last := |w + token| - 1;
    assert (w + token)[last] == token[|token| - 1];
  }

  /** The scheme in front of text that ends with a non-trim character is
      recognised and untrimmed, and cutting seven characters leaves that
      text. */
  lemma SchemeInFront(scheme: string, rest: string)
    requires |scheme| == 7 && LowerAscii(scheme) == "bearer "
    requires rest != [] && !IsTrimmed(rest[|rest| - 1])
    ensures HasBearerScheme(scheme + rest) && (scheme + rest)[7..] == rest
    ensures Untrimmed(scheme + rest)
  {
    var x := scheme + rest;
    assert x[0] == scheme[0];
    assert x[..7] == scheme;
    var last := |x| - 1;
    assert x[last] == rest[|rest| - 1];
  }

  /** `get_bearer_token` on a header whose trimmed form is `x`, a string
      with the scheme in front of `token` and trim characters. */
  lemma BearerTokenOf(raw: string, x: string, token: string)
    requires Trim(raw) == x && HasBearerScheme(x) && Trim(x[7..]) == token
    ensures GetBearerToken(Some(raw)) == Some(token)
  {
    assert |raw| >= |x| >= 7;
    assert Truthy(raw);
    var r := GetBearerToken(Some(raw));
    assert r.Some?;
  }

  /** The fields `parse_token` returns. */
  datatype TokenData = TokenData(userId: int, ts: int)

  /** `generate_token`: the base64 text of the user id and the time, joined
      by a colon; `now` stands for `time()`. */
  function GenerateToken(userId: int, now: int): (token: string)
    ensures |token| >= 4 && Truthy(token)
    ensures Untrimmed(token)
  {
    var text := DecimalOf(userId) + ":" + DecimalOf(now);
    assert IsByteString(text);
    EncodedUntrimmed(text);
    Encode(text)
  }

  /** `parse_token`: strict base64 decoding, then the first two colon-
      separated fields cast to int; null when decoding fails or there is no
      colon. */
  function ParseToken(token: string): (r: Option<TokenData>)
    ensures r.None? <==> Decode(token).None? || ':' !in Decode(token).value
  {
    match Decode(token)
    case None => None
    case Some(decoded) =>
      var parts := Explode(decoded);
      ExplodeSplits(decoded);
      if |parts| < 2 then None
      else Some(TokenData(IntCast(parts[0]), IntCast(parts[1])))
  }

  /** A token that decodes to a colon-free field, a colon and more text
      parses to that field and the first field of the rest. */
  lemma ParseTokenFields(token: string, a: string, rest: string)
    requires ':' !in a && Decode(token) == Some(a + ":" + rest)
    ensures ParseToken(token) == Some(TokenData(IntCast(a), IntCast(Explode(rest)[0])))
  {
    ExplodeField(a, rest);
  }

  /** Round trip: a generated token parses back to its user id and time. */
  lemma ParseGeneratedToken(userId: int, now: int)
    ensures ParseToken(GenerateToken(userId, now)) == Some(TokenData(userId, now))
  {
    var text := DecimalOf(userId) + ":" + DecimalOf(now);
    assert IsByteString(text);
    DecodeEncode(text);
    ParseTokenFields(GenerateToken(userId, now), DecimalOf(userId), DecimalOf(now));
    ExplodeWhole(DecimalOf(now));
    IntCastDecimal(userId);
    IntCastDecimal(now);
  }

  /** Only the first two fields are read: anything after a second colon is
      ignored. */
  lemma ParseTokenIgnoresExtraFields(a: string, b: string, rest: string)
    requires ':' !in a && ':' !in b
    requires IsByteString(a + ":" + b + ":" + rest)
    ensures ParseToken(Encode(a + ":" + b + ":" + rest)) == Some(TokenData(IntCast(a), IntCast(b)))
  {
    var text := a + ":" + b + ":" + rest;
    DecodeEncode(text);
    assert text == a + ":" + (b + ":" + rest);
    ParseTokenFields(Encode(text), a, b + ":" + rest);
    ExplodeField(b, rest);
  }

  /** Why `require_auth` answers 401 before its user lookup. */
  datatype AuthError = MissingToken | InvalidToken

  /** The token checks of `require_auth`: a missing or falsy bearer token is
      refused, so is a token that does not parse or whose user id is 0;
      otherwise the user id is the one looked up next. */
  function AuthenticatedUserId(raw: Option<string>): (r: Result<int, AuthError>)
    ensures r == Failure(MissingToken) <==> GetBearerToken(raw).None? || !Truthy(GetBearerToken(raw).value)
    ensures r == Failure(InvalidToken) <==>
      GetBearerToken(raw).Some? && Truthy(GetBearerToken(raw).value) &&
      (ParseToken(GetBearerToken(raw).value).None? || ParseToken(GetBearerToken(raw).value).value.userId == 0)
    ensures r.Success? ==> r.value != 0 && ParseToken(GetBearerToken(raw).value).value.userId == r.value
  {
    match GetBearerToken(raw)
    case None => Failure(MissingToken)
    case Some(token) =>
      if !Truthy(token) then Failure(MissingToken)
      else match ParseToken(token)
        case None => Failure(InvalidToken)
        case Some(data) => if data.userId == 0 then Failure(InvalidToken) else Success(data.userId)
  }

  /** A token generated for a non-zero user id passes the checks, whatever
      its time and however the header spells the scheme: tokens do not
      expire, and anyone can mint one since it is not signed. */
  lemma GeneratedTokenAccepted(userId: int, now: int, w1: string, scheme: string, w2: string, w3: string)
    requires userId != 0
    requires AllTrimmed(w1) && AllTrimmed(w2) && AllTrimmed(w3)
    requires |scheme| == 7 && LowerAscii(scheme) == "bearer "
    ensures AuthenticatedUserId(Some(w1 + (scheme + (w2 + GenerateToken(userId, now))) + w3)) == Success(userId)
  {
    var token := GenerateToken(userId, now);
    BearerTokenRoundTrip(w1, scheme, w2, token, w3);
    ParseGeneratedToken(userId, now);
  }

  /** A token generated for user id 0 is refused as invalid, however the
      header spells the scheme. */
  lemma UserZeroTokenRejected(now: int, w1: string, scheme: string, w2: string, w3: string)
    requires AllTrimmed(w1) && AllTrimmed(w2) && AllTrimmed(w3)
    requires |scheme| == 7 && LowerAscii(scheme) == "bearer "
    ensures AuthenticatedUserId(Some(w1 + (scheme + (w2 + GenerateToken(0, now))) + w3)) == Failure(InvalidToken)
  {
    var token := GenerateToken(0, now);
    BearerTokenRoundTrip(w1, scheme, w2, token, w3);
    ParseGeneratedToken(0, now);
  }
}
