/**
 * The bearer-token middleware of jwtAuth.ts: customJWTVerify's own claim
 * checks on top of jose, parsing of the Authorization header, and the
 * request gate that runs configuration checks, key resolution and
 * verification in order and stops at the first failure.
 */
module JwtAuth {
  import opened Wrappers
  import opened Truthiness
  import opened Text
  import opened Jwt
  import DateTimePattern
  import KeyFetcher

  const ServerDomainRequired := "env.SERVER_DOMAIN is required"
  const MinAuthTimeRequired := "env.MIN_AUTH_TIME is required"
  const InvalidAuthorizationHeader := "invalid Authorization header"
  const PublicKeyFetchFailed := "Failed to fetch public key"
  const Unauthorized := "Unauthorized"

  /** The authentication scheme and its separating space (RFC 6750 section 2.1). */
  const BearerPrefix := "Bearer "

  /**
   * The worker's environment bindings; a binding is None when it is
   * missing or not a string.
   */
  datatype Env = Env(
    serverDomain: Option<string>,             // SERVER_DOMAIN, the expected audience
    minAuthTime: Option<string>,              // MIN_AUTH_TIME
    developmentPublicKeyUrl: Option<string>   // DEVELOPMENT_PUBLIC_KEY_URL
  )

  /**
   * Everything outside the middleware that it consults: the crypto
   * library, the key store, dayjs's conversion of MIN_AUTH_TIME to epoch
   * seconds, and the wall clock.
   */
  datatype Platform = Platform(
    crypto: Crypto,
    fetch: KeyFetcher.Fetch,
    unixSeconds: string -> Option<int>,
    now: int
  )

  /**
   * How a request leaves the middleware: an HTTPException with a status and
   * message, or `jwt` set in the context and the next handler called.
   */
  datatype Outcome = Reject(status: nat, message: string) | Pass(jwt: Verified)

  /** customJWTVerify accepts: jose accepts, and the repository's iat and auth_time checks hold. */
  ghost predicate CustomAccepts(c: Claims, audience: string, minAuthTime: Option<int>, now: int) {
    && JoseAccepts(c, audience, now)
    && c.iat.Some? && c.iat.value != 0 && c.iat.value <= now
    && c.authTime.Some? && c.authTime.value != 0
    && (minAuthTime.Some? ==> minAuthTime.value <= c.authTime.value)
  }

  /**
   * customJWTVerify: jose's verification followed by "iat present, non-zero
   * and not in the future" and "auth_time present, non-zero and not before
   * minAuthTime". On success the payload and header are returned unchanged.
   * `minAuthTime` is None when the configured time is an Invalid Date: its
   * unix() is NaN, and NaN > auth_time is false, so no floor applies.
   */
  function CustomJwtVerify(token: string, key: PublicKey, audience: string, minAuthTime: Option<int>, now: int, crypto: Crypto)
    : (r: Result<Verified, VerifyError>)
    ensures r.Success? <==>
      && crypto.decodeHeader(token).Some?
      && AlgorithmAllowed(crypto.decodeHeader(token).value)
      && crypto.signatureValid(token, key)
      && crypto.decodePayload(token).Some?
      && CustomAccepts(crypto.decodePayload(token).value, audience, minAuthTime, now)
    ensures r.Success? ==>
      r.value == Verified(crypto.decodePayload(token).value, crypto.decodeHeader(token).value)
    ensures crypto.decodeHeader(token).Some? && !AlgorithmAllowed(crypto.decodeHeader(token).value)
      ==> r == Failure(AlgorithmNotAllowed)
  {
    var verified :- JoseVerify(token, key, audience, now, crypto);
    var claims := verified.payload;
    if !TruthyNumber(claims.iat) || claims.iat.value > now then Failure(IssuedAtCheckFailed)
    else if !TruthyNumber(claims.authTime) || (minAuthTime.Some? && minAuthTime.value > claims.authTime.value) then
      Failure(AuthTimeCheckFailed)
    else Success(verified)
  }

  /** A well-formed credential: "Bearer ", then a token with no space in it. */
  ghost predicate IsBearerCredential(header: string) {
    StartsWith(header, BearerPrefix) && ' ' !in header[|BearerPrefix|..]
  }

  /**
   * Lines 68-82: the header must be present, non-empty and start with
   * "Bearer ", and splitting it at every space must give exactly two
   * pieces; the token is the second piece.
   */
  function ParseAuthorization(authorization: Option<string>): (token: Option<string>)
    ensures token.Some? <==> authorization.Some? && IsBearerCredential(authorization.value)
    ensures token.Some? ==> authorization.value == BearerPrefix + token.value
  {
    if !TruthyString(authorization) || !StartsWith(authorization.value, BearerPrefix) then None
    else
      var header := authorization.value;
      var rest := header[|BearerPrefix|..];
      assert header == "Bearer" + [' '] + rest;
      SplitAfter("Bearer", ' ', rest);
      var parts := Split(header, ' ');
      if |parts| != 2 then None else Some(parts[1])
  }

  /** A header built from "Bearer " and a token is accepted exactly when the token has no space. */
  lemma ParseBearer(t: string)
    ensures ParseAuthorization(Some(BearerPrefix + t)) == if ' ' in t then None else Some(t)
  {
    var h := BearerPrefix + t;
    assert h[|BearerPrefix|..] == t;
    assert StartsWith(h, BearerPrefix);
  }

  /** A missing header, an empty one and one without the space after the scheme are refused. */
  lemma RejectsMissingScheme()
    ensures ParseAuthorization(None) == None
    ensures ParseAuthorization(Some("")) == None
    ensures ParseAuthorization(Some("Bearerxxxx")) == None
  {
    assert "Bearerxxxx"[6] != BearerPrefix[6];
  }

  /** A space inside the token, or a doubled space after the scheme, is refused. */
  lemma RejectsExtraSpace()
    ensures ParseAuthorization(Some("Bearer xx xx")) == None
  {
    var h := "Bearer xx xx";
    assert h[|BearerPrefix|..][2] == ' ';
  }

  lemma RejectsDoubleSpace()
    ensures ParseAuthorization(Some("Bearer  xxxx")) == None
  {
    var h := "Bearer  xxxx";
    assert h[|BearerPrefix|..][0] == ' ';
  }

  /** A single token is extracted verbatim, and an empty token passes this step. */
  lemma AcceptsSingleToken()
    ensures ParseAuthorization(Some("Bearer xxxx")) == Some("xxxx")
    ensures ParseAuthorization(Some("Bearer ")) == Some("")
  {
    ParseBearer("xxxx");
    assert "Bearer xxxx" == BearerPrefix + "xxxx";
    ParseBearer("");
    assert "Bearer " == BearerPrefix + "";
  }

  /**
   * Lines 84-94: getKid on the token, getPublicKey for that kid, then
   * importSPKI of the returned key; the first failure ends resolution.
   */
  function ResolveKey(token: string, env: Env, p: Platform): (r: Result<PublicKey, KeyFetcher.KeyError>)
    ensures r.Success? <==>
      && var header := p.crypto.decodeHeader(token);
      && header.Some? && "kid" in header.value && header.value["kid"] != ""
      && var keys := p.fetch(KeyFetcher.SelectUrl(env.developmentPublicKeyUrl));
      && keys.Some? && header.value["kid"] in keys.value && keys.value[header.value["kid"]] != ""
      && p.crypto.importSpki(keys.value[header.value["kid"]]).Some?
    ensures r.Success? ==>
      var kid := p.crypto.decodeHeader(token).value["kid"];
      r.value == p.crypto.importSpki(p.fetch(KeyFetcher.SelectUrl(env.developmentPublicKeyUrl)).value[kid]).value
  {
    var kid :- KeyFetcher.GetKid(p.crypto.decodeHeader(token));
    var spki :- KeyFetcher.GetPublicKey(kid, env.developmentPublicKeyUrl, p.fetch);
    match p.crypto.importSpki(spki)
    case None => Failure(KeyFetcher.ImportFailed)
    case Some(key) => Success(key)
  }

  /** The configuration the middleware demands before it looks at the request. */
  ghost predicate ConfigValid(env: Env) {
    && TruthyString(env.serverDomain)
    && env.minAuthTime.Some?
    && DateTimePattern.FitsShape(DateTimePattern.MinAuthTimeShape, env.minAuthTime.value)
  }

  /** The one path that reaches the next handler. */
  ghost predicate Admits(env: Env, authorization: Option<string>, p: Platform, v: Verified) {
    && ConfigValid(env)
    && authorization.Some? && IsBearerCredential(authorization.value)
    && var token := authorization.value[|BearerPrefix|..];
    && var key := ResolveKey(token, env, p);
    && key.Success?
    && CustomJwtVerify(token, key.value, env.serverDomain.value,
         p.unixSeconds(env.minAuthTime.value), p.now, p.crypto) == Success(v)
  }

  /**
   * The middleware, lines 48-114. Configuration errors are 500 and come
   * first; every request-dependent failure is 401 with a fixed message.
   */
  function Authenticate(env: Env, authorization: Option<string>, p: Platform): (r: Outcome)
    ensures !TruthyString(env.serverDomain) ==> r == Reject(500, ServerDomainRequired)
    ensures TruthyString(env.serverDomain) && !ConfigValid(env) ==> r == Reject(500, MinAuthTimeRequired)
    ensures (r.Reject? && r.status == 500) <==> !ConfigValid(env)
    ensures ConfigValid(env) && !(authorization.Some? && IsBearerCredential(authorization.value))
      ==> r == Reject(401, InvalidAuthorizationHeader)
    ensures r.Reject? && r.status == 401 ==>
      r.message in {InvalidAuthorizationHeader, PublicKeyFetchFailed, Unauthorized}
    ensures r.Reject? ==> r.status in {401, 500}
  {
    if !TruthyString(env.serverDomain) then
      Reject(500, ServerDomainRequired)
    else if env.minAuthTime.None? then
      Reject(500, MinAuthTimeRequired)
    else
      DateTimePattern.MinAuthTimeAccepted(env.minAuthTime.value);
      if !DateTimePattern.IsMinAuthTime(env.minAuthTime.value) then
        Reject(500, MinAuthTimeRequired)
      else
        var audience := env.serverDomain.value;
        var minAuthTime := p.unixSeconds(env.minAuthTime.value);
        match ParseAuthorization(authorization)
        case None => Reject(401, InvalidAuthorizationHeader)
        case Some(token) =>
          match ResolveKey(token, env, p)
          case Failure(_) => Reject(401, PublicKeyFetchFailed)
          case Success(key) =>
            match CustomJwtVerify(token, key, audience, minAuthTime, p.now, p.crypto)
            case Failure(_) => Reject(401, Unauthorized)
            case Success(verified) => Pass(verified)
  }

  /** Whatever the request and the platform, a configuration error decides the response. */
  lemma ConfigErrorPrecedes(env: Env, a: Option<string>, b: Option<string>, p: Platform, q: Platform)
    requires !ConfigValid(env)
    ensures Authenticate(env, a, p) == Authenticate(env, b, q)
    ensures Authenticate(env, a, p).Reject? && Authenticate(env, a, p).status == 500
  {
  }

  /** A missing SERVER_DOMAIN wins over a well-formed header. */
  lemma MissingServerDomainWithBearer(minAuthTime: Option<string>, devUrl: Option<string>, p: Platform)
    ensures Authenticate(Env(None, minAuthTime, devUrl), Some("Bearer xxxx"), p)
      == Reject(500, ServerDomainRequired)
  {
  }

  /** A MIN_AUTH_TIME without offset is a configuration error. */
  lemma OffsetlessMinAuthTime(serverDomain: string, devUrl: Option<string>, a: Option<string>, p: Platform)
    requires serverDomain != ""
    ensures Authenticate(Env(Some(serverDomain), Some("2024-01-01T00:00:00"), devUrl), a, p)
      == Reject(500, MinAuthTimeRequired)
  {
    DateTimePattern.MinAuthTimeRejections();
  }

  /** The request reaches the next handler exactly along the path of Admits, carrying its result. */
  lemma PassExactly(env: Env, authorization: Option<string>, p: Platform, v: Verified)
    ensures Authenticate(env, authorization, p) == Pass(v) <==> Admits(env, authorization, p, v)
  {
    if ConfigValid(env) && authorization.Some? && IsBearerCredential(authorization.value) {
      var t := ParseAuthorization(authorization);
      assert authorization.value == BearerPrefix + t.value;
      assert t.value == authorization.value[|BearerPrefix|..];
    }
  }

  /**
   * When key resolution fails the response is "Failed to fetch public key"
   * and the verification oracles are never consulted: replacing them
   * changes nothing.
   */
  lemma KeyFailureSkipsVerification(env: Env, t: string, p: Platform,
                                    payloads: string -> Option<Claims>,
                                    signatures: (string, PublicKey) -> bool)
    requires ConfigValid(env)
    requires ' ' !in t
    requires ResolveKey(t, env, p).Failure?
    ensures Authenticate(env, Some(BearerPrefix + t), p) == Reject(401, PublicKeyFetchFailed)
    ensures Authenticate(env, Some(BearerPrefix + t),
              p.(crypto := p.crypto.(decodePayload := payloads, signatureValid := signatures)))
            == Reject(401, PublicKeyFetchFailed)
  {
    ParseBearer(t);
  }

  /** Every verification failure becomes the same "Unauthorized", hiding its cause. */
  lemma VerifyFailureIsUnauthorized(env: Env, t: string, p: Platform)
    requires ConfigValid(env)
    requires ' ' !in t
    requires ResolveKey(t, env, p).Success?
    requires CustomJwtVerify(t, ResolveKey(t, env, p).value, env.serverDomain.value,
               p.unixSeconds(env.minAuthTime.value), p.now, p.crypto).Failure?
    ensures Authenticate(env, Some(BearerPrefix + t), p) == Reject(401, Unauthorized)
  {
    ParseBearer(t);
  }

  /** "Bearer " with an empty token passes header parsing and fails at key resolution. */
  lemma EmptyTokenFailsKeyResolution(env: Env, p: Platform)
    requires ConfigValid(env)
    requires p.crypto.decodeHeader("").None?
    ensures Authenticate(env, Some("Bearer "), p) == Reject(401, PublicKeyFetchFailed)
  {
    AcceptsSingleToken();
  }

  /**
   * A token signed with PS256 under a key the key store holds for its kid,
   * whose claims pass every check, is admitted with its payload and
   * protected header exactly as decoded.
   */
  lemma AdmitsValidToken(env: Env, t: string, p: Platform, header: HeaderMap, claims: Claims,
                         keys: KeyFetcher.KeySet, key: PublicKey)
    requires ConfigValid(env)
    requires ' ' !in t
    requires p.crypto.decodeHeader(t) == Some(header)
    requires AlgorithmAllowed(header) && "kid" in header && header["kid"] != ""
    requires p.fetch(KeyFetcher.SelectUrl(env.developmentPublicKeyUrl)) == Some(keys)
    requires header["kid"] in keys && keys[header["kid"]] != ""
    requires p.crypto.importSpki(keys[header["kid"]]) == Some(key)
    requires p.crypto.signatureValid(t, key)
    requires p.crypto.decodePayload(t) == Some(claims)
    requires CustomAccepts(claims, env.serverDomain.value, p.unixSeconds(env.minAuthTime.value), p.now)
    ensures Authenticate(env, Some(BearerPrefix + t), p) == Pass(Verified(claims, header))
  {
    ParseBearer(t);
  }

  /** With every other check passing, iat == now is accepted and iat == now + 1 is not. */
  lemma IssuedAtBoundary(c: Claims, audience: string, minAuthTime: Option<int>, now: int)
    requires CustomAccepts(c, audience, minAuthTime, now)
    ensures now != 0 ==> CustomAccepts(c.(iat := Some(now)), audience, minAuthTime, now)
    ensures !CustomAccepts(c.(iat := Some(now + 1)), audience, minAuthTime, now)
    ensures !CustomAccepts(c.(iat := Some(0)), audience, minAuthTime, now)
    ensures !CustomAccepts(c.(iat := None), audience, minAuthTime, now)
  {
  }

  /** With every other check passing, exp == now + 1 is accepted and exp == now is not. */
  lemma ExpiryBoundary(c: Claims, audience: string, minAuthTime: Option<int>, now: int)
    requires CustomAccepts(c, audience, minAuthTime, now)
    ensures CustomAccepts(c.(exp := Some(now + 1)), audience, minAuthTime, now)
    ensures !CustomAccepts(c.(exp := Some(now)), audience, minAuthTime, now)
  {
  }

  /** With every other check passing, auth_time == minAuthTime is accepted and one second earlier is not. */
  lemma AuthTimeBoundary(c: Claims, audience: string, minAuthTime: int, now: int)
    requires CustomAccepts(c, audience, Some(minAuthTime), now)
    ensures minAuthTime != 0 ==>
      CustomAccepts(c.(authTime := Some(minAuthTime)), audience, Some(minAuthTime), now)
    ensures !CustomAccepts(c.(authTime := Some(minAuthTime - 1)), audience, Some(minAuthTime), now)
    ensures !CustomAccepts(c.(authTime := Some(0)), audience, Some(minAuthTime), now)
  {
  }

  /**
   * A MIN_AUTH_TIME that has the right shape but is not a real date (month
   * 13, say) is an Invalid Date whose unix() is NaN: the floor disappears,
   * and only a present, non-zero auth_time is still required.
   */
  lemma InvalidMinAuthTimeDropsFloor(c: Claims, audience: string, minAuthTime: int, now: int)
    requires CustomAccepts(c, audience, Some(minAuthTime), now)
    ensures CustomAccepts(c, audience, None, now)
    ensures CustomAccepts(c.(authTime := Some(1)), audience, None, now)
    ensures !CustomAccepts(c.(authTime := Some(0)), audience, None, now)
    ensures !CustomAccepts(c.(authTime := None), audience, None, now)
  {
  }
}
