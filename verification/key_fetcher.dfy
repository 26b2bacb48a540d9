/**
 * Resolution of the verification key from a token's key id: reading `kid`
 * from the protected header, choosing the key-store URL, and looking the
 * key id up in the `{kid: spki}` object the key store returns
 * (remotePublicKeyFetcher.ts).
 */
module KeyFetcher {
  import opened Wrappers
  import opened Text
  import opened Jwt

  /** The key store used unless a local development override applies. */
  const ProductionUrl := "https://secure.mirohani.com"
  /** The fixed head of an accepted override, matched by ^http:\/\/localhost:\d+\/ */
  const LocalhostPrefix := "http://localhost:"

  /** The body of a successful key-store response: key id to SPKI-encoded key. */
  type KeySet = map<string, string>

  /**
   * The key store as seen from the middleware: the parsed body of an ok
   * response to a GET of the URL, or None for a non-ok status, a network
   * error or an unparsable body.
   */
  type Fetch = string -> Option<KeySet>

  datatype KeyError = HeaderUndecodable | KidRequired | FetchFailed | ImportFailed

  /**
   * getKid: the token's `kid` header parameter (RFC 7515 section 4.1.4)
   * when the header decodes and the value is truthy.
   */
  function GetKid(header: Option<HeaderMap>): (r: Result<string, KeyError>)
    ensures r.Success? <==> header.Some? && "kid" in header.value && header.value["kid"] != ""
    ensures r.Success? ==> r.value == header.value["kid"]
    ensures header.Some? && !r.Success? ==> r == Failure(KidRequired)
  {
    match header
    case None => Failure(HeaderUndecodable)
    case Some(h) =>
      if "kid" in h && h["kid"] != "" then Success(h["kid"]) else Failure(KidRequired)
  }

  /** Length of the run of ASCII digits in `s` starting at `i` (the greedy \d+ or \d*). */
  function DigitRun(s: string, i: nat): (n: nat)
    requires i <= |s|
    ensures i + n <= |s|
    ensures forall j :: i <= j < i + n ==> IsDigit(s[j])
    ensures i + n == |s| || !IsDigit(s[i + n])
    decreases |s| - i
  {
    if i < |s| && IsDigit(s[i]) then 1 + DigitRun(s, i + 1) else 0
  }

  /** The test /^http:\/\/localhost:\d+\// as a scan: the prefix, a digit run, then '/'. */
  predicate ScansAsLocalKeyUrl(url: string) {
    && StartsWith(url, LocalhostPrefix)
    && var n := DigitRun(url, |LocalhostPrefix|);
    && n >= 1
    && |LocalhostPrefix| + n < |url|
    && url[|LocalhostPrefix| + n] == '/'
  }

  /** The strings the expression accepts: some port of one or more digits, then '/', then anything. */
  ghost predicate LocalKeyUrl(url: string) {
    exists port: string :: |port| >= 1 && AllDigits(port) && StartsWith(url, LocalhostPrefix + port + "/")
  }

  /** A digit run that ends at a non-digit has exactly the run's length. */
  lemma DigitRunExact(s: string, i: nat, k: nat)
    requires i + k < |s|
    requires forall j :: i <= j < i + k ==> IsDigit(s[j])
    requires !IsDigit(s[i + k])
    ensures DigitRun(s, i) == k
  {
  }

  /** What the scan accepts, the expression accepts, with the scanned digits as the port. */
  lemma ScanFindsPort(url: string)
    requires ScansAsLocalKeyUrl(url)
    ensures LocalKeyUrl(url)
  {
    var p := LocalhostPrefix;
    var n := DigitRun(url, |p|);
    var port := url[|p|..|p| + n];
    assert AllDigits(port) by {
      forall j | 0 <= j < |port| ensures IsDigit(port[j]) {
        assert port[j] == url[|p| + j];
      }
    }
    assert url[..|p + port + "/"|] == p + port + "/";
  }

  /** What the expression accepts, the scan accepts: the digit run stops exactly at the port's end. */
  lemma PortFoundByScan(url: string, port: string)
    requires |port| >= 1 && AllDigits(port) && StartsWith(url, LocalhostPrefix + port + "/")
    ensures ScansAsLocalKeyUrl(url)
  {
    var p := LocalhostPrefix;
    var whole := p + port + "/";
    assert url[..|whole|] == whole;
    assert url[..|p|] == whole[..|p|] == p;
    forall j | |p| <= j < |p| + |port| ensures IsDigit(url[j]) {
      assert url[j] == whole[j] == port[j - |p|];
    }
    assert url[|p| + |port|] == whole[|p| + |port|] == '/';
    DigitRunExact(url, |p|, |port|);
  }

  /** The scan agrees with the expression on every string, despite the expression's backtracking. */
  lemma LocalKeyUrlScan(url: string)
    ensures ScansAsLocalKeyUrl(url) <==> LocalKeyUrl(url)
  {
    if ScansAsLocalKeyUrl(url) {
      ScanFindsPort(url);
    }
    if LocalKeyUrl(url) {
      var port: string :| |port| >= 1 && AllDigits(port) && StartsWith(url, LocalhostPrefix + port + "/");
      PortFoundByScan(url, port);
    }
  }

  /** The override test of remotePublicKeyFetcher.ts, line 20, decided by the scan. */
  function IsLocalKeyUrl(url: string): (ok: bool)
    ensures ok <==> LocalKeyUrl(url)
  {
    LocalKeyUrlScan(url);
    ScansAsLocalKeyUrl(url)
  }

  /**
   * The key-store URL: the override exactly as configured when it is set,
   * non-empty and matches the localhost pattern; the production URL
   * otherwise.
   */
  function SelectUrl(devUrl: Option<string>): (url: string)
    ensures devUrl.Some? && LocalKeyUrl(devUrl.value) ==> url == devUrl.value
    ensures !(devUrl.Some? && LocalKeyUrl(devUrl.value)) ==> url == ProductionUrl
  {
    match devUrl
    case None => ProductionUrl
    case Some(candidate) =>
      if candidate != "" && IsLocalKeyUrl(candidate) then candidate else ProductionUrl
  }

  /** Lines 27-35: an ok answer with a non-empty entry for `kid` yields that entry; anything else fails. */
  function LookupKey(kid: string, answer: Option<KeySet>): (r: Result<string, KeyError>)
    ensures r.Success? <==> answer.Some? && kid in answer.value && answer.value[kid] != ""
    ensures r.Success? ==> r.value == answer.value[kid]
    ensures !r.Success? ==> r == Failure(FetchFailed)
  {
    match answer
    case Some(keys) =>
      if kid in keys && keys[kid] != "" then Success(keys[kid]) else Failure(FetchFailed)
    case None => Failure(FetchFailed)
  }

  /**
   * getPublicKey: one request to the selected URL; the SPKI string stored
   * under `kid` when the response is ok and that entry is non-empty.
   */
  function GetPublicKey(kid: string, devUrl: Option<string>, fetch: Fetch): (r: Result<string, KeyError>)
    ensures r.Success? <==>
      var body := fetch(SelectUrl(devUrl));
      body.Some? && kid in body.value && body.value[kid] != ""
    ensures r.Success? ==> r.value == fetch(SelectUrl(devUrl)).value[kid] && r.value != ""
    ensures !r.Success? ==> r == Failure(FetchFailed)
  {
    LookupKey(kid, fetch(SelectUrl(devUrl)))
  }

  /** The key store `fetch`, except that it gives `answer` for `url`. */
  function Answering(fetch: Fetch, url: string, answer: Option<KeySet>): Fetch {
    u => if u == url then answer else fetch(u)
  }

  /** The override used in remotePublicKeyFetcher.test.ts is taken verbatim; near misses fall back to production. */
  lemma SelectUrlExamples()
    ensures SelectUrl(Some("http://localhost:0000/test-token")) == "http://localhost:0000/test-token"
    ensures SelectUrl(Some("http://localhost/x")) == ProductionUrl
    ensures SelectUrl(Some("https://localhost:1/x")) == ProductionUrl
    ensures SelectUrl(Some("http://localhost:80")) == ProductionUrl
    ensures SelectUrl(None) == ProductionUrl
  {
    var dev := "http://localhost:0000/test-token";
    DigitRunExact(dev, |LocalhostPrefix|, 4);
    assert ScansAsLocalKeyUrl(dev);
    assert !ScansAsLocalKeyUrl("http://localhost/x");
    assert !ScansAsLocalKeyUrl("https://localhost:1/x");
    assert !ScansAsLocalKeyUrl("http://localhost:80");
  }

  /** Only the selected URL is requested: what the key store would answer elsewhere changes nothing. */
  lemma GetPublicKeyIgnoresOtherUrls(kid: string, devUrl: Option<string>, fetch: Fetch, url: string, answer: Option<KeySet>)
    requires url != SelectUrl(devUrl)
    ensures GetPublicKey(kid, devUrl, Answering(fetch, url, answer)) == GetPublicKey(kid, devUrl, fetch)
  {
  }

  /** Entries for other key ids in the response have no effect. */
  lemma LookupIgnoresOtherKeys(kid: string, a: KeySet, b: KeySet)
    requires kid in a <==> kid in b
    requires kid in a ==> a[kid] == b[kid]
    ensures LookupKey(kid, Some(a)) == LookupKey(kid, Some(b))
  {
  }

  /** The response used in remotePublicKeyFetcher.test.ts: each key id yields its own entry. */
  lemma LookupExample()
    ensures LookupKey("x", Some(map["x" := "xxxx", "y" := "yyyy"])) == Success("xxxx")
    ensures LookupKey("z", Some(map["x" := "xxxx", "y" := "yyyy"])) == Failure(FetchFailed)
    ensures LookupKey("x", Some(map["x" := ""])) == Failure(FetchFailed)
    ensures LookupKey("x", None) == Failure(FetchFailed)
  {
  }
}
