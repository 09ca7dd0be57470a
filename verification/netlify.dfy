/**
 * The serverless deployment of the contact route. The function instance
 * keeps the rate-limit store between invocations but builds a fresh
 * transport for every send; `JSON.parse` and the outcome of the send are
 * inputs.
 */
module NetlifyContact {
  import opened Wrappers
  import opened Text
  import opened OriginGuard
  import opened Config
  import opened Validation
  import opened RateLimit
  import opened Mail
  import opened Http

  /** The invocation: method, the raw header entries in order (or none at all), the raw body. */
  datatype Event = Event(httpMethod: string, headers: Option<seq<(string, string)>>, body: Option<string>)

  /** `JSON.parse` of the body: an object, or a syntax error. */
  datatype ParseResult = Parsed(payload: Payload) | ParseError

  /** The header names of `entries`, lower-cased, in order. */
  function LowerNames(entries: seq<(string, string)>): (names: seq<string>)
    ensures |names| == |entries|
    ensures forall i :: 0 <= i < |entries| ==> names[i] == ToLower(entries[i].0)
  {
    seq(|entries|, i requires 0 <= i < |entries| => ToLower(entries[i].0))
  }

  /** No entry after the `i`-th has the same lower-cased name. */
  predicate LastOfName(entries: seq<(string, string)>, i: int)
    requires 0 <= i < |entries|
  {
    forall j :: i < j < |entries| ==> ToLower(entries[j].0) != ToLower(entries[i].0)
  }

  /** The lower-cased names of a non-empty list: those of all but its last entry, and the last one's. */
  lemma LowerNamesOfSnoc(entries: seq<(string, string)>)
    requires |entries| > 0
    ensures forall k :: k in LowerNames(entries) <==>
      k in LowerNames(entries[..|entries| - 1]) || k == ToLower(entries[|entries| - 1].0)
  {
    var n := |entries| - 1;
    assert LowerNames(entries) == LowerNames(entries[..n]) + [ToLower(entries[n].0)];
  }

  /**
   * `Object.fromEntries` over the entries with lower-cased names. The keys
   * are exactly the lower-cased names, each already lower-case, and a
   * name's value comes from its last entry.
   */
  function LowercaseHeaders(entries: seq<(string, string)>): (h: map<string, string>)
    ensures forall k :: k in h <==> k in LowerNames(entries)
    ensures forall k :: k in h ==> ToLower(k) == k
    ensures forall i :: 0 <= i < |entries| && LastOfName(entries, i) ==>
      h[ToLower(entries[i].0)] == entries[i].1
    decreases |entries|
  {
    if |entries| == 0 then map[]
    else
      var n := |entries| - 1;
      var init := entries[..n];
      assert forall i :: 0 <= i < n ==> init[i] == entries[i];
      LowerNamesOfSnoc(entries);
      ToLowerIdempotent(entries[n].0);
      LowercaseHeaders(init)[ToLower(entries[n].0) := entries[n].1]
  }

  /**
   * Header names are case-insensitive: two header lists that differ only in
   * the case of their names give the same lower-cased headers.
   */
  lemma {:induction false} HeaderCaseIgnored(a: seq<(string, string)>, b: seq<(string, string)>)
    requires |a| == |b|
    requires forall i :: 0 <= i < |a| ==> ToLower(a[i].0) == ToLower(b[i].0) && a[i].1 == b[i].1
    ensures LowercaseHeaders(a) == LowercaseHeaders(b)
    decreases |a|
  {
    if |a| > 0 {
      var n := |a| - 1;
      HeaderCaseIgnored(a[..n], b[..n]);
    }
  }

  /** `event.headers || {}`, lower-cased. */
  function Headers(event: Event): map<string, string>
  {
    LowercaseHeaders(event.headers.GetOr([]))
  }

  function HeaderValue(h: map<string, string>, name: string): Option<string>
  {
    if name in h then Some(h[name]) else None
  }

  /** The five headers of every `jsonResponse`: the hardening four and the JSON content type. */
  const SecurityHeaders: map<string, string> := HardeningHeaders["Content-Type" := "application/json"]

  predicate CarriesSecurityHeaders(headers: map<string, string>)
  {
    && CarriesHardening(headers)
    && "Content-Type" in headers && headers["Content-Type"] == "application/json"
  }

  /** `jsonResponse(statusCode, body)`. */
  function JsonResponse(status: int, body: Body): (r: Response)
    ensures r.status == status && r.body == body
    ensures CarriesSecurityHeaders(r.headers)
    ensures "Retry-After" !in r.headers
  {
    Response(status, SecurityHeaders, body)
  }

  /**
   * `getClientIp(headers)`: the first hop of `x-forwarded-for` when it is a
   * non-empty string, else of `x-nf-client-connection-ip`, else "unknown".
   * An empty header counts as absent.
   */
  function ClientIp(h: map<string, string>): (ip: string)
    ensures IsSet(h, "x-forwarded-for") ==> ip == FirstHop(h["x-forwarded-for"])
    ensures !IsSet(h, "x-forwarded-for") && IsSet(h, "x-nf-client-connection-ip") ==>
      ip == FirstHop(h["x-nf-client-connection-ip"])
    ensures !IsSet(h, "x-forwarded-for") && !IsSet(h, "x-nf-client-connection-ip") ==> ip == "unknown"
    ensures ',' !in ip
  {
    if IsSet(h, "x-forwarded-for") then FirstHop(h["x-forwarded-for"])
    else if IsSet(h, "x-nf-client-connection-ip") then FirstHop(h["x-nf-client-connection-ip"])
    else "unknown"
  }

  /** `event.body || "{}"`: a missing or empty body reads as an empty object. */
  function BodyText(event: Event): (text: string)
    ensures text != ""
    ensures event.body.None? || event.body.value == "" ==> text == "{}"
    ensures event.body.Some? && event.body.value != "" ==> text == event.body.value
  {
    if event.body.Some? && event.body.value != "" then event.body.value else "{}"
  }

  /** The 429 answer to a refused request, with `Retry-After` in seconds. */
  function Throttled(seconds: nat): (r: Response)
    ensures r.status == 429 && r.body == Failure(TooManyRequests)
    ensures "Retry-After" in r.headers && r.headers["Retry-After"] == NatToDecimal(seconds)
    ensures CarriesSecurityHeaders(r.headers)
  {
    Response(429, WithRetryAfter(SecurityHeaders, seconds), Failure(TooManyRequests))
  }

  /** The response, the rate-limit store left behind, and the send attempted, if any. */
  datatype Outcome = Outcome(response: Response, limiter: Limiter, attempted: Option<Dispatch>)

  /**
   * The handler once the rate limiter has let the request through: 500
   * "Email service not configured." without a transport when the
   * configuration is incomplete; else a send through a transport built for
   * this request, answered 200 when it is delivered and 500 "Failed to send
   * email." when it fails.
   */
  function Deliver(env: Env, limiter: Limiter, sub: Submission, send: SendOutcome): (o: Outcome)
    ensures o.limiter == limiter
    ensures o.attempted.None? <==> MissingEnv(env) != []
    ensures o.attempted.None? ==> o.response == JsonResponse(500, Failure(NotConfigured))
    ensures o.attempted.Some? ==>
      MissingEnv(env) == []
      && o.attempted.value == Dispatch(BuildTransport(env), ComposeMessage(env, sub))
    ensures o.attempted.Some? && send == Delivered ==> o.response == JsonResponse(200, Success)
    ensures o.attempted.Some? && send == SendFailed ==> o.response == JsonResponse(500, Failure(SendFailure))
  {
    if MissingEnv(env) != [] then
      Outcome(JsonResponse(500, Failure(NotConfigured)), limiter, None)
    else
      var attempt := Dispatch(BuildTransport(env), ComposeMessage(env, sub));
      if send == Delivered then Outcome(JsonResponse(200, Success), limiter, Some(attempt))
      else Outcome(JsonResponse(500, Failure(SendFailure)), limiter, Some(attempt))
  }

  /**
   * The handler from the rate limiter on: 429 with `Retry-After` when
   * refused; otherwise `Deliver` with the updated store.
   */
  function Respond(env: Env, sub: Submission, checked: Checked, send: SendOutcome): (o: Outcome)
    requires checked.retryAfter.Some? ==> checked.retryAfter.value >= 1
    ensures o.limiter == checked.limiter
    ensures o.response.status == 429 <==> checked.retryAfter.Some?
    ensures o.response.status == 429 ==>
      o.response.body == Failure(TooManyRequests) && o.attempted.None?
      && "Retry-After" in o.response.headers
      && o.response.headers["Retry-After"] == NatToDecimal(checked.retryAfter.value)
    ensures checked.retryAfter.Some? ==> o == Outcome(Throttled(checked.retryAfter.value), checked.limiter, None)
    ensures checked.retryAfter.None? ==> o == Deliver(env, checked.limiter, sub, send)
    ensures o.attempted.None? <==> checked.retryAfter.Some? || MissingEnv(env) != []
    ensures o.response.status == 200 <==> o.attempted.Some? && send == Delivered
    ensures o.response.body.ok <==> o.response.status == 200
    ensures CarriesSecurityHeaders(o.response.headers)
  {
    if checked.retryAfter.Some? && checked.retryAfter.value != 0 then
      Outcome(Throttled(checked.retryAfter.value), checked.limiter, None)
    else
      Deliver(env, checked.limiter, sub, send)
  }

  /** The origin of the event, from the lower-cased headers. */
  function Origin(event: Event): Option<string>
  {
    HeaderValue(Headers(event), "origin")
  }

  /** How the checks before the payload end: an early answer, or the parsed object. */
  datatype Gate = Answered(response: Response) | Proceed(payload: Payload)

  /**
   * The checks before the payload, in order: origin (403), then method
   * (405), then JSON (400); a refused origin wins over a wrong method.
   */
  function Admit(env: Env, event: Event, parse: string -> ParseResult): (g: Gate)
    ensures g.Answered? && g.response.status == 403 <==> !IsAllowedOrigin(AllowList(env), Origin(event))
    ensures g.Answered? && g.response.status == 405 <==>
      IsAllowedOrigin(AllowList(env), Origin(event)) && event.httpMethod != "POST"
    ensures g.Answered? && g.response.status == 400 <==>
      IsAllowedOrigin(AllowList(env), Origin(event)) && event.httpMethod == "POST" && parse(BodyText(event)).ParseError?
    ensures g.Proceed? <==>
      IsAllowedOrigin(AllowList(env), Origin(event)) && event.httpMethod == "POST" && parse(BodyText(event)).Parsed?
    ensures g.Proceed? ==> parse(BodyText(event)) == Parsed(g.payload)
    ensures g.Answered? ==>
      g.response == JsonResponse(g.response.status, Failure(
        if g.response.status == 403 then ForbiddenOrigin
        else if g.response.status == 405 then MethodNotAllowed
        else InvalidJson))
  {
    if !IsAllowedOrigin(AllowList(env), Origin(event)) then Answered(JsonResponse(403, Failure(ForbiddenOrigin)))
    else if event.httpMethod != "POST" then Answered(JsonResponse(405, Failure(MethodNotAllowed)))
    else
      var parsed := parse(BodyText(event));
      if parsed.ParseError? then Answered(JsonResponse(400, Failure(InvalidJson)))
      else Proceed(parsed.payload)
  }

  /**
   * The handler once the body's fields are read: honeypot and validation (400)
   * leave the store untouched; from the rate limiter on, see `Respond`.
   */
  function Process(env: Env, limiter: Limiter, f: RawFields, ip: string, now: int, send: SendOutcome): (o: Outcome)
    ensures Validate(f).Rejected? ==>
      o == Outcome(JsonResponse(400, Failure(Validate(f).error)), limiter, None)
    ensures Validate(f).Accepted? ==> o.limiter == CheckRateLimit(limiter, ip, now).limiter
    ensures o.response.status == 429 <==>
      Validate(f).Accepted? && CheckRateLimit(limiter, ip, now).retryAfter.Some?
    ensures Validate(f).Accepted? ==> o == Respond(env, Validate(f).submission, CheckRateLimit(limiter, ip, now), send)
    ensures o.attempted.None? <==>
      Validate(f).Rejected? || CheckRateLimit(limiter, ip, now).retryAfter.Some? || MissingEnv(env) != []
    ensures o.response.status == 500 && o.attempted.None? ==> MissingEnv(env) != []
    ensures o.attempted.Some? ==>
      Validate(f).Accepted? && o.attempted.value.message == ComposeMessage(env, Validate(f).submission)
    ensures o.attempted.Some? ==> MissingEnv(env) == [] && o.attempted.value.transport == BuildTransport(env)
    ensures o.response.status == 200 <==> o.attempted.Some? && send == Delivered
    ensures o.response.body.ok <==> o.response.status == 200
    ensures CarriesSecurityHeaders(o.response.headers)
  {
    match Validate(f)
    case Rejected(error) => Outcome(JsonResponse(400, Failure(error)), limiter, None)
    case Accepted(sub) => Respond(env, sub, CheckRateLimit(limiter, ip, now), send)
  }

  /** The handler after the checks of `Admit`: an early answer stands; a parsed object goes to `Process`. */
  function Finish(env: Env, limiter: Limiter, g: Gate, ip: string, now: int, send: SendOutcome): (o: Outcome)
    requires g.Answered? ==> g.response.status in {403, 405, 400} && !g.response.body.ok && CarriesSecurityHeaders(g.response.headers)
    ensures g.Answered? ==> o == Outcome(g.response, limiter, None)
    ensures g.Proceed? ==> o == Process(env, limiter, Extract(g.payload), ip, now, send)
    ensures o.response.body.ok <==> o.response.status == 200
    ensures CarriesSecurityHeaders(o.response.headers)
  {
    match g
    case Answered(response) => Outcome(response, limiter, None)
    case Proceed(payload) => Process(env, limiter, Extract(payload), ip, now, send)
  }

  /**
   * `exports.handler`: the checks of `Admit`, then `Process` on the parsed
   * object with the client address read from the lower-cased headers. Every
   * answer carries the security headers, and `ok` holds exactly on 200.
   */
  function HandleEvent(env: Env, limiter: Limiter, event: Event, now: int,
                       parse: string -> ParseResult, send: SendOutcome): (o: Outcome)
    ensures o.response.body.ok <==> o.response.status == 200
    ensures CarriesSecurityHeaders(o.response.headers)
  {
    Finish(env, limiter, Admit(env, event, parse), ClientIp(Headers(event)), now, send)
  }

  /** A refused origin is answered 403 whatever the method, the body or the store. */
  lemma OriginBeforeMethod(env: Env, limiter: Limiter, event: Event, verb: string, now: int,
                           parse: string -> ParseResult, send: SendOutcome)
    requires !IsAllowedOrigin(AllowList(env), Origin(event))
    ensures HandleEvent(env, limiter, event.(httpMethod := verb), now, parse, send)
         == HandleEvent(env, limiter, event, now, parse, send)
         == Outcome(JsonResponse(403, Failure(ForbiddenOrigin)), limiter, None)
  {
    assert Origin(event.(httpMethod := verb)) == Origin(event);
  }

  /** An allowed origin with any method but "POST" is answered 405 and uses no quota. */
  lemma WrongMethodRefused(env: Env, limiter: Limiter, event: Event, now: int,
                           parse: string -> ParseResult, send: SendOutcome)
    requires IsAllowedOrigin(AllowList(env), Origin(event)) && event.httpMethod != "POST"
    ensures HandleEvent(env, limiter, event, now, parse, send)
         == Outcome(JsonResponse(405, Failure(MethodNotAllowed)), limiter, None)
  {
  }

  /** An allowed POST whose body does not parse is answered 400 "Invalid JSON." before any field check. */
  lemma BadJsonRefused(env: Env, limiter: Limiter, event: Event, now: int,
                       parse: string -> ParseResult, send: SendOutcome)
    requires IsAllowedOrigin(AllowList(env), Origin(event)) && event.httpMethod == "POST"
    requires parse(BodyText(event)).ParseError?
    ensures HandleEvent(env, limiter, event, now, parse, send)
         == Outcome(JsonResponse(400, Failure(InvalidJson)), limiter, None)
  {
  }

  /**
   * An admitted, valid request that the rate limiter refuses is answered 429
   * "Too many requests" with `Retry-After` set to the limiter's wait in
   * seconds; nothing is sent and the store is the one the limiter leaves.
   */
  lemma RefusedEventThrottled(env: Env, limiter: Limiter, event: Event, now: int,
                              parse: string -> ParseResult, send: SendOutcome)
    requires Admit(env, event, parse).Proceed?
    requires Validate(Extract(Admit(env, event, parse).payload)).Accepted?
    requires CheckRateLimit(limiter, ClientIp(Headers(event)), now).retryAfter.Some?
    ensures HandleEvent(env, limiter, event, now, parse, send)
         == Outcome(Throttled(CheckRateLimit(limiter, ClientIp(Headers(event)), now).retryAfter.value),
                    CheckRateLimit(limiter, ClientIp(Headers(event)), now).limiter, None)
  {
    var g := Admit(env, event, parse);
    var ip := ClientIp(Headers(event));
    var checked := CheckRateLimit(limiter, ip, now);
    var o := HandleEvent(env, limiter, event, now, parse, send);
    assert o == Process(env, limiter, Extract(g.payload), ip, now, send);
    assert o == Respond(env, Validate(Extract(g.payload)).submission, checked, send);
  }

  /**
   * An allowed POST without a body is parsed as `{}` and fails as missing
   * fields, using no rate-limit quota.
   */
  lemma MissingBodyIsMissingFields(env: Env, limiter: Limiter, event: Event, now: int,
                                   parse: string -> ParseResult, send: SendOutcome)
    requires IsAllowedOrigin(AllowList(env), Origin(event)) && event.httpMethod == "POST"
    requires event.body.None? || event.body == Some("")
    requires parse("{}") == Parsed(map[])
    ensures HandleEvent(env, limiter, event, now, parse, send)
         == Outcome(JsonResponse(400, Failure(MissingFields)), limiter, None)
  {
    var g := Admit(env, event, parse);
    assert g == Proceed(map[]);
    var f := Extract(map[]);
    assert f == RawFields("", "", "", "", "");
    assert Trim("") == "";
    assert Sanitize("") == "";
  }

  /**
   * The configuration is read again on every invocation and nothing is
   * cached: with an incomplete configuration no request ever sends, and
   * every send uses the transport built from the configuration as it is now,
   * carrying the message composed from the validated fields.
   */
  lemma ConfigRecheckedEveryRequest(env: Env, limiter: Limiter, event: Event, now: int,
                                    parse: string -> ParseResult, send: SendOutcome)
    ensures MissingEnv(env) != [] ==> HandleEvent(env, limiter, event, now, parse, send).attempted.None?
    ensures HandleEvent(env, limiter, event, now, parse, send).attempted.Some? ==>
      Admit(env, event, parse).Proceed?
      && Validate(Extract(Admit(env, event, parse).payload)).Accepted?
      && HandleEvent(env, limiter, event, now, parse, send).attempted.value
         == Dispatch(BuildTransport(env), ComposeMessage(env, Validate(Extract(Admit(env, event, parse).payload)).submission))
  {
    var g := Admit(env, event, parse);
    var ip := ClientIp(Headers(event));
    var o := HandleEvent(env, limiter, event, now, parse, send);
    assert o == Finish(env, limiter, g, ip, now, send);
    if g.Proceed? {
      assert o == Process(env, limiter, Extract(g.payload), ip, now, send);
    }
  }

  /**
   * An accepted request spends its quota even when the configuration turns
   * out to be incomplete: the store is left as the rate limiter leaves it,
   * and the answer is 500 "Email service not configured.".
   */
  lemma QuotaSpentWhenUnconfigured(env: Env, limiter: Limiter, f: RawFields, ip: string, now: int, send: SendOutcome)
    requires Validate(f).Accepted?
    requires CheckRateLimit(limiter, ip, now).retryAfter.None?
    requires MissingEnv(env) != []
    ensures Process(env, limiter, f, ip, now, send)
         == Outcome(JsonResponse(500, Failure(NotConfigured)), CheckRateLimit(limiter, ip, now).limiter, None)
  {
  }
}
