/** The JWT gate in front of the HTTP handlers (AuthMiddleware) and the helper that
    issues tokens (GenerateToken).

    The JWT library is foreign cryptography and is abstracted as an oracle: what a token
    string's header and claims decode to, and whether its HMAC signature under the
    service's key and its registered claims check out. The middleware's effects on the
    Gin context are returned: the token it handed to the parser, the context keys it set,
    and whether it aborted (with which status and message) or called the next handler. */
module Auth {
  import opened Wrappers

  const BearerPrefix: string := "Bearer "
  const Issuer: string := "global-order-platform"

  const HttpUnauthorized := 401

  const NanosPerSecond := 1_000_000_000
  /** 24 * time.Hour */
  const TokenLifetime := 24 * 3600 * NanosPerSecond

  datatype SigningMethod =
    | HS256 | HS384 | HS512
    | RS256 | RS384 | RS512 | PS256 | PS384 | PS512
    | ES256 | ES384 | ES512 | EdDSA | NoSignature

  /** The methods of jwt.SigningMethodHMAC. */
  predicate IsHMAC(m: SigningMethod) {
    m.HS256? || m.HS384? || m.HS512?
  }

  datatype RegisteredClaims = RegisteredClaims(issuer: string, expiresAt: Option<int>)

  /** The claims a parsed token carries: the service's CustomClaims, or anything else. */
  datatype Claims =
    | CustomClaims(userId: string, role: string, registered: RegisteredClaims)
    | OtherClaims

  datatype Token = Token(alg: SigningMethod, claims: Claims)

  /** The JWT library: `decode` is what a token string's header and claims say, None when
      it is malformed; `verified` says whether its signature under the HMAC key and its
      time-based claims are valid. */
  datatype Jwt = Jwt(decode: string -> Option<Token>, verified: string -> bool)

  /** jwt.ParseWithClaims with the middleware's key function, which refuses every
      signing method outside the HMAC family before any signature is checked. */
  function ParseWithClaims(jwt: Jwt, tokenString: string): (r: Result<Token, string>)
    ensures r.Success? <==>
      jwt.decode(tokenString).Some? && IsHMAC(jwt.decode(tokenString).value.alg)
      && jwt.verified(tokenString)
    ensures r.Success? ==> r.value == jwt.decode(tokenString).value
  {
    match jwt.decode(tokenString)
    case None => Failure("token is malformed")
    case Some(token) =>
      if !IsHMAC(token.alg) then Failure("unexpected signing method")
      else if !jwt.verified(tokenString) then Failure("token signature is invalid")
      else Success(token)
  }

  /** strings.TrimPrefix: removes one leading copy of `prefix`, if there is one. For a
      non-empty prefix the string changes exactly when the prefix is there, and then the
      result is what follows that one copy of it. */
  function TrimPrefix(s: string, prefix: string): (r: string)
    ensures prefix != [] ==> (r != s <==> prefix <= s)
    ensures prefix <= s ==> s == prefix + r
  {
    if prefix <= s then
      assert s == s[..|prefix|] + s[|prefix|..];
      s[|prefix|..]
    else s
  }

  datatype GateResult = Abort(status: int, error: string) | Next

  datatype Outcome = Outcome(
    parserInput: Option<string>,   // the token string handed to jwt.ParseWithClaims
    keys: map<string, string>,     // the context keys once the middleware is done
    result: GateResult)

  /** The middleware on a request whose Authorization header is `header` (the empty
      string when there is none), with the context's keys `keys`. */
  function AuthMiddleware(jwt: Jwt, header: string, keys: map<string, string>): (r: Outcome)
    ensures header == "" ==>
      r == Outcome(None, keys, Abort(HttpUnauthorized, "Authorization header required"))
    ensures header != "" && !(BearerPrefix <= header) ==>
      r == Outcome(None, keys, Abort(HttpUnauthorized, "Bearer token required"))
    // The parser sees the header with exactly one leading "Bearer " removed.
    ensures r.parserInput.Some? <==> header != "" && BearerPrefix <= header
    ensures r.parserInput.Some? ==> header == BearerPrefix + r.parserInput.value
    // The handler runs only when every check passed, and then sees userID and role.
    ensures r.result.Next? <==>
      && r.parserInput.Some?
      && ParseWithClaims(jwt, r.parserInput.value).Success?
      && ParseWithClaims(jwt, r.parserInput.value).value.claims.CustomClaims?
    ensures r.result.Next? ==>
      var claims := jwt.decode(r.parserInput.value).value.claims;
      r.keys == keys["userID" := claims.userId]["role" := claims.role]
    // A token the parser refuses, and claims of another type, abort with their messages.
    ensures r.parserInput.Some? && ParseWithClaims(jwt, r.parserInput.value).Failure? ==>
      r.result == Abort(HttpUnauthorized, "Invalid token")
    ensures r.parserInput.Some? && ParseWithClaims(jwt, r.parserInput.value).Success?
            && !ParseWithClaims(jwt, r.parserInput.value).value.claims.CustomClaims? ==>
      r.result == Abort(HttpUnauthorized, "Invalid token claims")
    ensures r.result.Abort? ==> r.keys == keys && r.result.status == HttpUnauthorized
  {
    if header == "" then
      Outcome(None, keys, Abort(HttpUnauthorized, "Authorization header required"))
    else
      var tokenString := TrimPrefix(header, BearerPrefix);
      if tokenString == header then
        Outcome(None, keys, Abort(HttpUnauthorized, "Bearer token required"))
      else
        match ParseWithClaims(jwt, tokenString)
        case Failure(_) =>
          Outcome(Some(tokenString), keys, Abort(HttpUnauthorized, "Invalid token"))
        case Success(token) =>
          match token.claims
          case CustomClaims(userId, role, _) =>
            Outcome(Some(tokenString), keys["userID" := userId]["role" := role], Next)
          case OtherClaims =>
            Outcome(Some(tokenString), keys, Abort(HttpUnauthorized, "Invalid token claims"))
  }

  /** A token whose header names a signing method outside the HMAC family is refused,
      whatever its signature and claims. */
  lemma NonHmacRejected(jwt: Jwt, tokenString: string, keys: map<string, string>)
    requires jwt.decode(tokenString).Some? && !IsHMAC(jwt.decode(tokenString).value.alg)
    ensures AuthMiddleware(jwt, BearerPrefix + tokenString, keys)
         == Outcome(Some(tokenString), keys, Abort(HttpUnauthorized, "Invalid token"))
  {
    assert BearerPrefix <= BearerPrefix + tokenString;
    assert (BearerPrefix + tokenString)[|BearerPrefix|..] == tokenString;
  }

  /** Only one "Bearer " is stripped: a doubled prefix reaches the parser with one left. */
  lemma PrefixStrippedOnce(jwt: Jwt, tokenString: string, keys: map<string, string>)
    ensures AuthMiddleware(jwt, BearerPrefix + BearerPrefix + tokenString, keys).parserInput
         == Some(BearerPrefix + tokenString)
  {
    var header := BearerPrefix + BearerPrefix + tokenString;
    assert header == BearerPrefix + (BearerPrefix + tokenString);
    assert BearerPrefix <= header;
    assert header[|BearerPrefix|..] == BearerPrefix + tokenString;
  }

  /** GenerateToken(userID, role) at time `nowNanos` (time.Now() in nanoseconds since the
      Unix epoch): the claims to be signed with HS256. jwt.NewNumericDate keeps whole
      seconds, so the expiry is the second in which now + 24h falls. */
  function GenerateToken(userId: string, role: string, nowNanos: int): (t: Token)
    ensures t.alg == HS256
    ensures t.claims.CustomClaims? && t.claims.userId == userId && t.claims.role == role
    ensures t.claims.registered.issuer == Issuer
    ensures t.claims.registered.expiresAt.Some?
    ensures var exp := t.claims.registered.expiresAt.value;
      exp * NanosPerSecond <= nowNanos + TokenLifetime < exp * NanosPerSecond + NanosPerSecond
  {
    var expiresAt := (nowNanos + TokenLifetime) / NanosPerSecond;
    Token(HS256, CustomClaims(userId, role, RegisteredClaims(Issuer, Some(expiresAt))))
  }

  /** A token the service issued, presented as "Bearer <token>" while the library still
      finds its signature and expiry valid, lets the request through with the user id and
      role it was issued for. */
  lemma GeneratedTokenAccepted(jwt: Jwt, tokenString: string, userId: string, role: string,
                               nowNanos: int, keys: map<string, string>)
    requires jwt.decode(tokenString) == Some(GenerateToken(userId, role, nowNanos))
    requires jwt.verified(tokenString)
    ensures AuthMiddleware(jwt, BearerPrefix + tokenString, keys)
         == Outcome(Some(tokenString), keys["userID" := userId]["role" := role], Next)
  {
    assert BearerPrefix <= BearerPrefix + tokenString;
    assert (BearerPrefix + tokenString)[|BearerPrefix|..] == tokenString;
  }
}
