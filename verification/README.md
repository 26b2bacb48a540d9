# Bearer-token authentication middleware (mbapi `jwtAuth`)

This project models, in Dafny, the JSON Web Token gate that protects the
API: the `jwtAuth` middleware, its `customJWTVerify` claim checks, and the
key resolver `getKid` / `getPublicKey` that finds the verification key
for a token's key id.

- `wrappers.dfy` (`Wrappers`): `Option` and `Result`.
- `truthiness.dfy` (`Truthiness`): JavaScript truthiness of an optional
  string and of an optional number, as the `!x` tests use it.
- `text.dfy` (`Text`): `startsWith` and `split`/`join` on one separator
  character, with JavaScript's semantics. `Split` is proved to invert
  `Join` in both directions.
- `date_time_pattern.dfy` (`DateTimePattern`): the anchored expression
  that validates `MIN_AUTH_TIME`, as a list of atoms with a matcher. The
  matcher is proved to accept exactly the 25-character strings laid out as
  `DDDD-DD-DDTDD:DD:DD+DD:DD`.
- `jwt.dfy` (`Jwt`): decoded header and claims. It also holds the
  cryptographic operations, which are oracles, and the checks jose's
  `jwtVerify` applies with the options the middleware passes.
- `key_fetcher.dfy` (`KeyFetcher`): `getKid`, the key-store URL selection
  and the `{kid: spki}` lookup. The URL test is a greedy digit scan,
  proved equal to what the regular expression accepts.
- `jwt_auth.dfy` (`JwtAuth`): `customJWTVerify`, header parsing, key
  resolution and the request gate `Authenticate`. The gate returns
  `Reject(status, message)` or `Pass(jwt)`.

Oracles and parameters. The model does not run any I/O. Instead, these
are inputs:

- `Crypto`: header and payload decoding, `importSPKI` and the RSA-PSS
  signature check.
- `Fetch`: the key store. Its answer is the parsed body of an ok
  response, or `None`.
- `Platform.unixSeconds`: dayjs's conversion of `MIN_AUTH_TIME` to epoch
  seconds. `None` stands for an Invalid Date, whose `unix()` is `NaN`.
- `Platform.now`: the wall clock, in integer seconds.

In these places the model follows the code:

- `MIN_AUTH_TIME` needs a `+` offset. The expression at jwtAuth.ts:60 has
  a literal `\+`, so a `-` offset is refused.
- `"Bearer "` with an empty token passes header parsing. It is refused
  later, at key resolution. Fetch `Headers` strip trailing whitespace, so a
  client that sends `"Bearer "` delivers `"Bearer"`, which is refused at
  jwtAuth.ts:69 with `invalid Authorization header`. The `"Bearer "` case
  is what the middleware does if that string reaches it.
- A `MIN_AUTH_TIME` that has the right shape but is not a real date, such
  as `2024-13-01T00:00:00+09:00`, passes the configuration check. dayjs
  turns it into `NaN`, and `NaN > auth_time` is false. So no `auth_time`
  floor applies, and any present, non-zero `auth_time` is accepted.
- `iat` and `auth_time` equal to `0` count as absent, because the code
  tests truthiness. The same holds for an empty `kid` and an empty key
  entry.
- The override URL only has to start with `http://localhost:<digits>/`.

## Model

| member | source | states |
|---|---|---|
| Text.Split | src/middleware/jwtAuth/jwtAuth.ts:75 | `split(" ")` gives at least one piece, no piece contains the separator, joining the pieces restores the input, and there is one piece exactly when the input has no separator |
| Text.StartsWith | src/middleware/jwtAuth/jwtAuth.ts:69 | `startsWith` holds iff the prefix is no longer than the string and agrees with it position by position; the string is then the prefix followed by the rest |
| Text.SplitJoin | src/middleware/jwtAuth/jwtAuth.ts:75-82 | splitting the join of separator-free pieces gives back exactly those pieces |
| DateTimePattern.MatchesIffFitsLayout | src/middleware/jwtAuth/jwtAuth.ts:60 | the atom matcher for `\d{n}` and literal atoms accepts exactly the strings with the atom list's character layout |
| DateTimePattern.MinAuthTimeAccepted | src/middleware/jwtAuth/jwtAuth.ts:57-65 | `MIN_AUTH_TIME` passes iff it is 25 characters shaped `DDDD-DD-DDTDD:DD:DD+DD:DD` with ASCII digits; an accepted value has `+` at offset 19 |
| DateTimePattern.IsMinAuthTime | src/middleware/jwtAuth/jwtAuth.ts:58-61 | the `MIN_AUTH_TIME` test passes iff the value is 25 characters shaped `DDDD-DD-DDTDD:DD:DD+DD:DD` with ASCII digits; an accepted value has `+` at offset 19 |
| DateTimePattern.MinAuthTimeRejections | src/middleware/jwtAuth/jwtAuth.ts:60 | a `-05:00` offset, a value without offset and the empty string are all refused |
| DateTimePattern.MinAuthTimeExample | src/middleware/jwtAuth/jwtAuth.ts:60 | the value `2024-01-01T00:00:00+09:00` used in jwtAuth.test.ts is accepted |
| Jwt.FirstMissingClaim | src/middleware/jwtAuth/jwtAuth.ts:32-34 | no claim is reported missing iff `iss`, `aud`, `mirohani_user_id` and `auth_time` are all present |
| Jwt.ValidateClaims | src/middleware/jwtAuth/jwtAuth.ts:27-36 | the claim set passes iff the issuer is `https://cms.mirohani.com`, the audience is named, both required claims are present, `nbf <= now` and `now < exp` where given; a wrong issuer always fails |
| Jwt.JoseVerify | src/middleware/jwtAuth/jwtAuth.ts:27-36 | verification succeeds iff the header decodes with `alg` PS256, the signature is valid, the payload decodes and its claims pass; any other `alg` fails with AlgorithmNotAllowed; success returns the decoded payload and header |
| JwtAuth.CustomJwtVerify | src/middleware/jwtAuth/jwtAuth.ts:22-46 | succeeds iff jose succeeds and also `iat` is non-zero and `<= now` and `auth_time` is non-zero and `>= minAuthTime` when `minAuthTime` is a number; payload and header are returned unchanged |
| JwtAuth.IssuedAtBoundary | src/middleware/jwtAuth/jwtAuth.ts:37-39 | with the other checks passing, `iat == now` is accepted; `iat == now + 1`, `iat == 0` and a missing `iat` are refused |
| JwtAuth.ExpiryBoundary | src/middleware/jwtAuth/jwtAuth.ts:27-36 | with the other checks passing, `exp == now + 1` is accepted and `exp == now` is refused |
| JwtAuth.AuthTimeBoundary | src/middleware/jwtAuth/jwtAuth.ts:41-43 | with the other checks passing, `auth_time == minAuthTime` is accepted; one second earlier and `0` are refused |
| JwtAuth.InvalidMinAuthTimeDropsFloor | src/middleware/jwtAuth/jwtAuth.ts:41-43 | when `minAuthTime` is `NaN`, every claim set accepted under some floor is still accepted, `auth_time == 1` is accepted, and only `0` or a missing `auth_time` is refused |
| JwtAuth.ParseAuthorization | src/middleware/jwtAuth/jwtAuth.ts:68-82 | a token is extracted iff the header is present, starts with `Bearer ` and has no space after it; the header is then exactly `Bearer ` followed by the token |
| JwtAuth.ParseBearer | src/middleware/jwtAuth/jwtAuth.ts:68-82 | `Bearer ` + t yields t when t has no space and nothing otherwise |
| JwtAuth.RejectsMissingScheme | src/middleware/jwtAuth/jwtAuth.ts:68-73 | a missing header, `""` and `Bearerxxxx` are refused |
| JwtAuth.RejectsExtraSpace | src/middleware/jwtAuth/jwtAuth.ts:75-80 | `Bearer xx xx` is refused |
| JwtAuth.RejectsDoubleSpace | src/middleware/jwtAuth/jwtAuth.ts:75-80 | `Bearer  xxxx` is refused |
| JwtAuth.AcceptsSingleToken | src/middleware/jwtAuth/jwtAuth.ts:75-82 | `Bearer xxxx` yields `xxxx`, and `Bearer ` yields the empty token |
| JwtAuth.ResolveKey | src/middleware/jwtAuth/jwtAuth.ts:84-94 | the key resolves iff the header decodes with a non-empty `kid`, the store at the selected URL has a non-empty entry for it and that entry imports; the key is the import of that entry |
| JwtAuth.Authenticate | src/middleware/jwtAuth/jwtAuth.ts:48-114 | a bad `SERVER_DOMAIN` gives 500 `env.SERVER_DOMAIN is required`; otherwise a bad `MIN_AUTH_TIME` gives 500 `env.MIN_AUTH_TIME is required`; 500 occurs iff the configuration is invalid; a valid configuration with a malformed header gives 401 `invalid Authorization header`; every 401 carries one of the three fixed messages |
| JwtAuth.ConfigErrorPrecedes | src/middleware/jwtAuth/jwtAuth.ts:51-65 | under an invalid configuration the outcome is a 500 and does not depend on the header or the platform |
| JwtAuth.MissingServerDomainWithBearer | src/middleware/jwtAuth/jwtAuth.ts:51-56 | a missing `SERVER_DOMAIN` with header `Bearer xxxx` gives 500 `env.SERVER_DOMAIN is required` |
| JwtAuth.OffsetlessMinAuthTime | src/middleware/jwtAuth/jwtAuth.ts:57-65 | `MIN_AUTH_TIME` `2024-01-01T00:00:00` gives 500 `env.MIN_AUTH_TIME is required` whatever the request |
| JwtAuth.PassExactly | src/middleware/jwtAuth/jwtAuth.ts:96-113 | the request passes with `jwt == v` iff the configuration is valid, the header is a bearer credential, its key resolves and verification returns exactly `v` |
| JwtAuth.KeyFailureSkipsVerification | src/middleware/jwtAuth/jwtAuth.ts:84-94 | a key-resolution failure gives 401 `Failed to fetch public key`, and the result is the same whatever the payload decoder and signature check do |
| JwtAuth.VerifyFailureIsUnauthorized | src/middleware/jwtAuth/jwtAuth.ts:96-112 | any verification failure after a resolved key gives 401 `Unauthorized` |
| JwtAuth.EmptyTokenFailsKeyResolution | src/middleware/jwtAuth/jwtAuth.ts:75-94 | `Bearer ` passes header parsing; when the empty token's header cannot be decoded, the outcome is 401 `Failed to fetch public key` |
| JwtAuth.AdmitsValidToken | src/middleware/jwtAuth/jwtAuth.ts:84-113 | a PS256 token signed under the key the store holds for its `kid`, with acceptable claims, passes with exactly its decoded payload and header |
| KeyFetcher.GetKid | src/middleware/jwtAuth/remotePublicKeyFetcher.ts:4-11 | succeeds iff the header decodes and has a non-empty `kid`, returning it; a decoded header without one fails with KidRequired |
| KeyFetcher.DigitRun | src/middleware/jwtAuth/remotePublicKeyFetcher.ts:20 | the greedy `\d+` run: all digits, ending at the end of the string or at a non-digit |
| KeyFetcher.LocalKeyUrlScan | src/middleware/jwtAuth/remotePublicKeyFetcher.ts:18-20 | the scan accepts a URL iff it starts with `http://localhost:`, then one or more digits, then `/` |
| KeyFetcher.IsLocalKeyUrl | src/middleware/jwtAuth/remotePublicKeyFetcher.ts:20 | the override test passes iff the URL is `http://localhost:`, then a non-empty run of digits, then `/`, then anything |
| KeyFetcher.SelectUrl | src/middleware/jwtAuth/remotePublicKeyFetcher.ts:17-25 | the override, verbatim, when it matches the localhost pattern; `https://secure.mirohani.com` otherwise |
| KeyFetcher.SelectUrlExamples | src/middleware/jwtAuth/remotePublicKeyFetcher.ts:17-25 | `http://localhost:0000/test-token` is used as given; `http://localhost/x`, `https://localhost:1/x`, `http://localhost:80` and no override fall back to production |
| KeyFetcher.GetPublicKey | src/middleware/jwtAuth/remotePublicKeyFetcher.ts:26-35 | succeeds iff the response from the selected URL is ok and has a non-empty entry for `kid`, returning that entry; every other case is FetchFailed |
| KeyFetcher.LookupKey | src/middleware/jwtAuth/remotePublicKeyFetcher.ts:27-35 | an ok answer with a non-empty entry for `kid` yields exactly that entry; a non-ok answer, a missing entry or an empty one fails with FetchFailed |
| KeyFetcher.GetPublicKeyIgnoresOtherUrls | src/middleware/jwtAuth/remotePublicKeyFetcher.ts:26 | changing what the key store answers at any URL other than the selected one leaves the result unchanged |
| KeyFetcher.LookupIgnoresOtherKeys | src/middleware/jwtAuth/remotePublicKeyFetcher.ts:27-32 | two responses that agree on the `kid` entry give the same result |
| KeyFetcher.LookupExample | src/middleware/jwtAuth/remotePublicKeyFetcher.ts:27-35 | from `{"x": "xxxx", "y": "yyyy"}` key `x` yields `xxxx`; an absent key, an empty entry and a failed response all fail |

## Left out

- Signature verification, `importSPKI` and base64url/JSON decoding of the
  token are foreign library code. They are the `Crypto` oracles.
- LookupKey: the key set is a map of strings, so a `kid` that the body
  lacks is missing. At remotePublicKeyFetcher.ts:30, `data[kid]` is a
  JavaScript property read, and it also finds `Object.prototype` members.
  For a `kid` such as `constructor`, `toString` or `__proto__` that the
  body lacks, `getPublicKey` returns a function or object instead of
  failing. `importSPKI` at jwtAuth.ts:88 then rejects that value. So the
  `LookupKey` and `GetPublicKey` rows do not hold for those kids. The
  gate's response is unchanged: 401 `Failed to fetch public key` either
  way.
- `fetch`, `res.json()` and network errors are I/O. They are the `Fetch`
  oracle; a non-ok status, a network error and an unparsable body are all
  `None`.
- dayjs's parsing of `MIN_AUTH_TIME` is library date arithmetic. It is the
  `Platform.unixSeconds` oracle. Which strings are Invalid Dates is up to
  that oracle.
- The clock is the parameter `Platform.now`. jose's clock and
  `dayjs().unix()` are read separately in the code; the model uses one
  value for both.
- JoseVerify: jose's `crit` and `b64` header checks are not modelled.
  jose refuses a correctly signed token whose `crit` names an extension it
  does not recognise, and `jwtVerify` refuses a token with `b64: false`.
  The model's success condition accepts both. jose's key-type check is left
  out because it cannot fail here: the key always comes from
  `importSPKI(spki, "PS256")` at jwtAuth.ts:88. A missing `alg` is reported
  as AlgorithmNotAllowed rather than as a malformed header; the middleware
  turns both into the same response.
- JoseVerify: one `decodeHeader` oracle serves both `decodeProtectedHeader`
  and jose's own compact parsing. jose refuses a token that lacks three
  segments as a malformed JWS before it looks at `alg`. So the
  AlgorithmNotAllowed clause holds for well-formed compact tokens only.
- CustomJwtVerify: `Claims` holds eight claims and `HeaderMap` holds
  string values only. "Returned unchanged" is exact for those fields; other
  payload members and non-string header members are not modelled.
- Claim values of the wrong JSON type are not modelled. Time claims are
  integers and string claims are strings, so a fractional `iat` or a
  numeric `kid` is not representable.
- An environment binding that is not a string is modelled as absent. This
  matches the `typeof` tests on `SERVER_DOMAIN` and `MIN_AUTH_TIME`. For
  `DEVELOPMENT_PUBLIC_KEY_URL`, a non-string value that the regular
  expression would coerce into a match is not covered.
- The header value is taken as the middleware receives it, after the
  Fetch `Headers` object has normalised it.
- `console.error` logging, Hono's `Context`, `HTTPException` and
  `createMiddleware`, and the async control flow are not modelled. `Pass`
  stands for setting `jwt` and calling `next` once.
- The post routes, the token endpoint, the ORM client, the app wiring and
  the test helpers have no authentication logic. They are not part of
  this model.
