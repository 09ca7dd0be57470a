/** The JSON envelope and the response headers both deployments send. */
module Http {
  import opened Wrappers
  import opened Text

  /** `{ ok, error? }`; the error is present exactly on failures. */
  datatype Body = Body(ok: bool, error: Option<string>)

  datatype Response = Response(status: int, headers: map<string, string>, body: Body)

  const ForbiddenOrigin := "Forbidden origin."
  const MethodNotAllowed := "Method not allowed."
  const InvalidJson := "Invalid JSON."
  const TooManyRequests := "Too many requests. Please try again later."
  const NotConfigured := "Email service not configured."
  const SendFailure := "Failed to send email."

  function Failure(error: string): Body
  {
    Body(false, Some(error))
  }

  const Success: Body := Body(true, None)

  /** The four headers every response carries. */
  const HardeningHeaders: map<string, string> := map[
    "X-Content-Type-Options" := "nosniff",
    "X-Frame-Options" := "DENY",
    "Referrer-Policy" := "no-referrer",
    "Permissions-Policy" := "geolocation=(), microphone=(), camera=()"
  ]

  predicate CarriesHardening(headers: map<string, string>)
  {
    forall k :: k in HardeningHeaders ==> k in headers && headers[k] == HardeningHeaders[k]
  }

  /** `Retry-After` holds `String(retryAfter)`. */
  function WithRetryAfter(headers: map<string, string>, seconds: nat): (h: map<string, string>)
    ensures "Retry-After" in h
    ensures forall i :: 0 <= i < |h["Retry-After"]| ==> IsDigit(h["Retry-After"][i])
    ensures DecimalValue(h["Retry-After"]) == seconds
    ensures forall k :: k != "Retry-After" ==> (k in h <==> k in headers)
    ensures forall k :: k != "Retry-After" && k in headers ==> h[k] == headers[k]
  {
    DecimalRoundTrip(seconds);
    headers["Retry-After" := NatToDecimal(seconds)]
  }

  /**
   * `value.split(",")[0].trim()`: the first address of a forwarded-for
   * list, with no comma and no surrounding whitespace.
   */
  function FirstHop(value: string): (ip: string)
    ensures ',' !in ip && IsTrimmed(ip)
    ensures ',' !in value ==> ip == Trim(value)
  {
    var first := Split(value, ',')[0];
    TrimKeepsCharacters(first);
    Trim(first)
  }

  /** The first hop of `a, b...` is `a` trimmed, whatever follows the first comma. */
  lemma FirstHopOfList(a: string, rest: string)
    requires ',' !in a
    ensures FirstHop(a + [','] + rest) == Trim(a)
  {
    var s := a + [','] + rest;
    IndexOfAfterFreePrefix(a, ',', rest);
    assert s[..|a|] == a;
  }
}
