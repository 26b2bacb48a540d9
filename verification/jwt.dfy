/**
 * Tokens as the middleware sees them once decoded, the cryptographic
 * operations it relies on (as oracles), and the checks that jose's
 * jwtVerify performs with the options passed at lines 27-36 of jwtAuth.ts.
 */
module Jwt {
  import opened Wrappers

  /** The only signing algorithm accepted (the `alg` constant of jwtAuth.ts). */
  const Algorithm := "PS256"
  /** The only accepted `iss` claim value (RFC 7519 section 4.1.1). */
  const Issuer := "https://cms.mirohani.com"

  /** A decoded JOSE protected header (RFC 7515 section 4), e.g. "alg" and "kid". */
  type HeaderMap = map<string, string>

  /** The `aud` claim (RFC 7519 section 4.1.3): one string or an array of strings. */
  datatype Audience = Single(name: string) | Several(names: seq<string>)

  /**
   * The claims of a decoded payload; a field is None when the claim is not
   * in the payload. Time claims are integer seconds since the epoch.
   */
  datatype Claims = Claims(
    iss: Option<string>,
    sub: Option<string>,
    aud: Option<Audience>,
    exp: Option<int>,
    nbf: Option<int>,
    iat: Option<int>,
    authTime: Option<int>,    // auth_time (OpenID Connect Core 1.0 section 2)
    userId: Option<string>    // mirohani_user_id
  )

  /** An imported verification key. */
  datatype PublicKey = PublicKey(handle: string)

  /** The `{payload, protectedHeader}` pair that verification returns. */
  datatype Verified = Verified(payload: Claims, protectedHeader: HeaderMap)

  /** Why verification failed; the middleware collapses all of these into one response. */
  datatype VerifyError =
    | MalformedToken
    | AlgorithmNotAllowed
    | SignatureInvalid
    | MissingClaim(claim: string)
    | UnexpectedIssuer
    | UnexpectedAudience
    | NotYetValid
    | Expired
    | IssuedAtCheckFailed
    | AuthTimeCheckFailed

  /**
   * Foreign operations taken as given: base64url/JSON decoding of the
   * compact serialisation, SPKI import and the RSA-PSS signature check.
   * A decoder answers None where the library throws.
   */
  datatype Crypto = Crypto(
    decodeHeader: string -> Option<HeaderMap>,
    decodePayload: string -> Option<Claims>,
    importSpki: string -> Option<PublicKey>,
    signatureValid: (string, PublicKey) -> bool
  )

  /** jose's audience test: the expected audience is the claim, or one of its entries. */
  predicate NamesAudience(aud: Audience, expected: string) {
    match aud
    case Single(name) => name == expected
    case Several(names) => expected in names
  }

  /**
   * The first required claim that is absent, in the order jose reports
   * them: iss and aud (required because issuer and audience are given),
   * then mirohani_user_id and auth_time (requiredClaims).
   */
  function FirstMissingClaim(c: Claims): (m: Option<string>)
    ensures m.None? <==> c.iss.Some? && c.aud.Some? && c.userId.Some? && c.authTime.Some?
  {
    if c.iss.None? then Some("iss")
    else if c.aud.None? then Some("aud")
    else if c.userId.None? then Some("mirohani_user_id")
    else if c.authTime.None? then Some("auth_time")
    else None
  }

  /** jose's claim-set validation: presence, iss, aud, nbf, exp, with no clock tolerance. */
  function ValidateClaims(c: Claims, audience: string, now: int): (r: Option<VerifyError>)
    ensures r.None? <==> JoseAccepts(c, audience, now)
    ensures c.iss.Some? && c.iss.value != Issuer ==> r.Some?
    ensures r == Some(Expired) ==> c.exp.Some? && c.exp.value <= now
  {
    var missing := FirstMissingClaim(c);
    if missing.Some? then Some(MissingClaim(missing.value))
    else if c.iss.value != Issuer then Some(UnexpectedIssuer)
    else if !NamesAudience(c.aud.value, audience) then Some(UnexpectedAudience)
    else if c.nbf.Some? && c.nbf.value > now then Some(NotYetValid)
    else if c.exp.Some? && c.exp.value <= now then Some(Expired)
    else None
  }

  /**
   * The claim set is acceptable to jose: issued by Issuer to `audience`,
   * carrying auth_time and mirohani_user_id, already valid and not yet
   * expired at `now`.
   */
  ghost predicate JoseAccepts(c: Claims, audience: string, now: int) {
    && c.iss == Some(Issuer)
    && c.aud.Some? && NamesAudience(c.aud.value, audience)
    && c.userId.Some?
    && c.authTime.Some?
    && (forall n :: c.nbf == Some(n) ==> n <= now)
    && (forall e :: c.exp == Some(e) ==> now < e)
  }

  /** The protected header names the one allowed algorithm. */
  predicate AlgorithmAllowed(h: HeaderMap) {
    "alg" in h && h["alg"] == Algorithm
  }

  /**
   * jose.jwtVerify(token, key, {algorithms: [PS256], issuer, audience,
   * requiredClaims: [auth_time, mirohani_user_id]}): the header is decoded
   * and its algorithm checked before the signature, the signature before
   * the payload, and the payload's claims last.
   */
  function JoseVerify(token: string, key: PublicKey, audience: string, now: int, crypto: Crypto)
    : (r: Result<Verified, VerifyError>)
    ensures r.Success? <==>
      && crypto.decodeHeader(token).Some?
      && AlgorithmAllowed(crypto.decodeHeader(token).value)
      && crypto.signatureValid(token, key)
      && crypto.decodePayload(token).Some?
      && JoseAccepts(crypto.decodePayload(token).value, audience, now)
    ensures r.Success? ==>
      r.value == Verified(crypto.decodePayload(token).value, crypto.decodeHeader(token).value)
    ensures crypto.decodeHeader(token).Some? && !AlgorithmAllowed(crypto.decodeHeader(token).value)
      ==> r == Failure(AlgorithmNotAllowed)
  {
    match crypto.decodeHeader(token)
    case None => Failure(MalformedToken)
    case Some(header) =>
      if !AlgorithmAllowed(header) then Failure(AlgorithmNotAllowed)
      else if !crypto.signatureValid(token, key) then Failure(SignatureInvalid)
      else match crypto.decodePayload(token)
        case None => Failure(MalformedToken)
        case Some(claims) =>
          var problem := ValidateClaims(claims, audience, now);
          if problem.Some? then Failure(problem.value)
          else Success(Verified(claims, header))
  }
}
