/**
 * The standalone server's `POST /api/contact` route. The process-wide state
 * is the rate-limit store and the memoised transporter; the environment,
 * the clock reading and the outcome of the send are inputs.
 */
module Server {
  import opened Wrappers
  import opened Text
  import opened OriginGuard
  import opened Validation
  import opened RateLimit
  import opened Mail
  import opened Config
  import opened Http

  /**
   * What the route reads from a request: the `Origin` and `X-Forwarded-For`
   * headers, the address the host resolved for the peer (`req.ip`, else the
   * socket's remote address), and the parsed body, if any.
   */
  datatype Request = Request(origin: Option<string>, forwardedFor: Option<string>,
                             peerAddress: Option<string>, body: Option<Payload>)

  datatype State = State(limiter: RateLimit.Limiter, transporter: Option<Transport>)

  /** The process at start-up: empty store, nothing cached. */
  const Start: State := State(RateLimit.Initial, None)

  datatype Outcome = Outcome(response: Response, state: State, attempted: Option<Dispatch>)

  /** `req.body || {}` with its fields coerced to strings. */
  function Fields(req: Request): RawFields
  {
    Extract(req.body.GetOr(map[]))
  }

  /**
   * `getClientIp(req)`: the first hop of a non-empty `X-Forwarded-For`, else
   * a non-empty peer address, else "unknown".
   */
  function ClientIp(req: Request): (ip: string)
    ensures req.forwardedFor.Some? && req.forwardedFor.value != "" ==>
      ip == FirstHop(req.forwardedFor.value) && ',' !in ip
    ensures (req.forwardedFor.None? || req.forwardedFor.value == "") ==>
      ip == (if req.peerAddress.Some? && req.peerAddress.value != "" then req.peerAddress.value else "unknown")
  {
    if req.forwardedFor.Some? && req.forwardedFor.value != "" then FirstHop(req.forwardedFor.value)
    else if req.peerAddress.Some? && req.peerAddress.value != "" then req.peerAddress.value
    else "unknown"
  }

  /** `res.status(status).json(body)`, behind the hardening middleware. */
  function Reply(status: int, body: Body): Response
  {
    Response(status, HardeningHeaders, body)
  }

  /** The 429 answer to a refused request, with `Retry-After` in seconds. */
  function Throttled(seconds: nat): (r: Response)
    ensures r.status == 429 && r.body == Failure(TooManyRequests)
    ensures "Retry-After" in r.headers && r.headers["Retry-After"] == NatToDecimal(seconds)
    ensures CarriesHardening(r.headers)
  {
    Response(429, WithRetryAfter(HardeningHeaders, seconds), Failure(TooManyRequests))
  }

  /**
   * The route once the rate limiter has let the request through: the
   * transporter lookup, then 500 "Email service not configured." without a
   * send when nothing is cached and the configuration is incomplete; else a
   * send through the cached or newly built transporter, answered 200 when it
   * is delivered and 500 "Failed to send email." when it fails.
   */
  function Deliver(env: Env, st: State, sub: Submission, send: SendOutcome): (o: Outcome)
    ensures o.state.limiter == st.limiter
    ensures o.attempted.None? <==> st.transporter.None? && MissingEnv(env) != []
    ensures o.attempted.None? ==> o.response == Reply(500, Failure(NotConfigured)) && o.state.transporter.None?
    ensures o.attempted.Some? ==>
      o.attempted.value.message == ComposeMessage(env, sub)
      && o.state.transporter == Some(o.attempted.value.transport)
    ensures st.transporter.Some? ==> o.state.transporter == st.transporter
    ensures st.transporter.None? && o.attempted.Some? ==>
      MissingEnv(env) == [] && o.attempted.value.transport == BuildTransport(env)
    ensures o.attempted.Some? && send == Delivered ==> o.response == Reply(200, Success)
    ensures o.attempted.Some? && send == SendFailed ==> o.response == Reply(500, Failure(SendFailure))
  {
    var lookup := GetTransporter(st.transporter, env);
    var next := st.(transporter := lookup.cache);
    match lookup.result
    case MissingConfig(_) => Outcome(Reply(500, Failure(NotConfigured)), next, None)
    case Ready(t) =>
      var attempt := Dispatch(t, ComposeMessage(env, sub));
      if send == Delivered then Outcome(Reply(200, Success), next, Some(attempt))
      else Outcome(Reply(500, Failure(SendFailure)), next, Some(attempt))
  }

  /**
   * The route from the rate limiter on, given the limiter's verdict: 429
   * with `Retry-After` when refused; otherwise `Deliver` with the updated
   * store.
   */
  function Respond(env: Env, st: State, sub: Submission, checked: Checked, send: SendOutcome): (o: Outcome)
    requires checked.retryAfter.Some? ==> checked.retryAfter.value >= 1
    ensures o.state.limiter == checked.limiter
    ensures o.response.status == 429 <==> checked.retryAfter.Some?
    ensures o.response.status == 429 ==>
      o.response.body == Failure(TooManyRequests) && o.attempted.None?
      && "Retry-After" in o.response.headers
      && o.response.headers["Retry-After"] == NatToDecimal(checked.retryAfter.value)
    ensures checked.retryAfter.Some? ==>
      o == Outcome(Throttled(checked.retryAfter.value), st.(limiter := checked.limiter), None)
    ensures checked.retryAfter.None? ==> o == Deliver(env, st.(limiter := checked.limiter), sub, send)
    ensures o.attempted.None? <==>
      checked.retryAfter.Some? || (st.transporter.None? && MissingEnv(env) != [])
    ensures o.response.status == 200 <==> o.attempted.Some? && send == Delivered
    ensures o.response.body.ok <==> o.response.status == 200
    ensures o.response.body.ok <==> o.response.body.error.None?
    ensures CarriesHardening(o.response.headers)
    ensures st.transporter.Some? ==> o.state.transporter == st.transporter
  {
    if checked.retryAfter.Some? && checked.retryAfter.value != 0 then
      Outcome(Throttled(checked.retryAfter.value), st.(limiter := checked.limiter), None)
    else
      Deliver(env, st.(limiter := checked.limiter), sub, send)
  }

  /**
   * One request through the route. The checks run in a fixed order and the
   * first failing one answers: origin (403), honeypot and validation (400),
   * rate limit (429), configuration (500), send (500 or 200). Rejections
   * before the rate limiter leave the state untouched, so they use no quota;
   * from the rate limiter on, the request's quota is spent even when the
   * configuration is missing or the send fails. A cached transporter is
   * never replaced.
   */
  function HandleContact(env: Env, st: State, req: Request, now: int, send: SendOutcome): (o: Outcome)
    ensures !IsAllowedOrigin(AllowList(env), req.origin) ==>
      o == Outcome(Reply(403, Failure(ForbiddenOrigin)), st, None)
    ensures IsAllowedOrigin(AllowList(env), req.origin) && Trim(Fields(req).company) != "" ==>
      o == Outcome(Reply(400, Failure(InvalidSubmission)), st, None)
    ensures IsAllowedOrigin(AllowList(env), req.origin) && Validate(Fields(req)).Rejected? ==>
      o == Outcome(Reply(400, Failure(Validate(Fields(req)).error)), st, None)
    ensures IsAllowedOrigin(AllowList(env), req.origin) && Validate(Fields(req)).Accepted? ==>
      o.state.limiter == CheckRateLimit(st.limiter, ClientIp(req), now).limiter
    ensures o.response.status == 429 <==>
      IsAllowedOrigin(AllowList(env), req.origin) && Validate(Fields(req)).Accepted?
      && CheckRateLimit(st.limiter, ClientIp(req), now).retryAfter.Some?
    ensures IsAllowedOrigin(AllowList(env), req.origin) && Validate(Fields(req)).Accepted? ==>
      o == Respond(env, st, Validate(Fields(req)).submission, CheckRateLimit(st.limiter, ClientIp(req), now), send)
    ensures o.attempted.Some? ==>
      Validate(Fields(req)).Accepted?
      && o.attempted.value.message == ComposeMessage(env, Validate(Fields(req)).submission)
    ensures o.attempted.None? <==>
      !IsAllowedOrigin(AllowList(env), req.origin) || Validate(Fields(req)).Rejected?
      || CheckRateLimit(st.limiter, ClientIp(req), now).retryAfter.Some?
      || (st.transporter.None? && MissingEnv(env) != [])
    ensures o.response.status == 200 <==> o.attempted.Some? && send == Delivered
    ensures o.response.body.ok <==> o.response.status == 200
    ensures CarriesHardening(o.response.headers)
    ensures st.transporter.Some? ==> o.state.transporter == st.transporter
  {
    if !IsAllowedOrigin(AllowList(env), req.origin) then
      Outcome(Reply(403, Failure(ForbiddenOrigin)), st, None)
    else
      match Validate(Fields(req))
      case Rejected(error) => Outcome(Reply(400, Failure(error)), st, None)
      case Accepted(sub) =>
        Respond(env, st, sub, CheckRateLimit(st.limiter, ClientIp(req), now), send)
  }

  /**
   * With a complete configuration and an open allow-list, the first request
   * after start-up carrying an already clean, well-formed submission and a
   * blank honeypot is delivered: 200 `{ok: true}`, replying to the submitted
   * address.
   */
  lemma CleanSubmissionDelivered(env: Env, req: Request, now: int)
    requires "ALLOWED_ORIGINS" !in env
    requires forall k :: k in RequiredEnv ==> IsSet(env, k)
    requires Trim(Fields(req).company) == ""
    requires WellFormed(Submission(Fields(req).name, Fields(req).email, Fields(req).subject, Fields(req).message))
    ensures HandleContact(env, Start, req, now, Delivered).response == Reply(200, Success)
    ensures HandleContact(env, Start, req, now, Delivered).attempted.Some?
    ensures HandleContact(env, Start, req, now, Delivered).attempted.value.message.replyTo == Fields(req).email
  {
    UnsetConfigAdmitsAll(req.origin);
    assert EnvValue(env, "ALLOWED_ORIGINS") == None;
    CleanFieldsAccepted(Fields(req));
    var checked := CheckRateLimit(Start.limiter, ClientIp(req), now);
    assert checked.retryAfter.None?;
    assert MissingEnv(env) == [];
  }

  /**
   * An admitted, valid request that the rate limiter refuses is answered
   * with the 429 `Throttled` response for the limiter's delay; nothing is
   * sent, the store is the one the limiter leaves, and the transporter
   * cache is left as it was, so a refused request never installs one.
   */
  lemma RefusedRequestThrottled(env: Env, st: State, req: Request, now: int, send: SendOutcome)
    requires IsAllowedOrigin(AllowList(env), req.origin) && Validate(Fields(req)).Accepted?
    requires CheckRateLimit(st.limiter, ClientIp(req), now).retryAfter.Some?
    ensures HandleContact(env, st, req, now, send)
         == Outcome(Throttled(CheckRateLimit(st.limiter, ClientIp(req), now).retryAfter.value),
                    st.(limiter := CheckRateLimit(st.limiter, ClientIp(req), now).limiter), None)
  {
    var checked := CheckRateLimit(st.limiter, ClientIp(req), now);
    assert HandleContact(env, st, req, now, send)
        == Respond(env, st, Validate(Fields(req)).submission, checked, send);
  }

  /** Once the server has cached a transporter it keeps it through any later request. */
  lemma TransporterKept(env: Env, st: State, req: Request, now: int, send: SendOutcome)
    requires st.transporter.Some?
    ensures HandleContact(env, st, req, now, send).state.transporter == st.transporter
    ensures HandleContact(env, st, req, now, send).response.body != Failure(NotConfigured)
  {
    var o := HandleContact(env, st, req, now, send);
    var v := Validate(Fields(req));
    if !IsAllowedOrigin(AllowList(env), req.origin) {
      assert o.response.body == Failure(ForbiddenOrigin);
    } else if v.Rejected? {
      assert o.response.body == Failure(v.error);
      assert v.error != NotConfigured by {
        assert v.error in {InvalidSubmission, MissingFields, InvalidLength, InvalidEmail};
      }
    } else {
      var checked := CheckRateLimit(st.limiter, ClientIp(req), now);
      if checked.retryAfter.Some? {
        assert o.response.status == 429;
      } else {
        assert o.attempted.Some?;
        assert o.response.body == Success || o.response.body == Failure(SendFailure) by {
          assert send == Delivered || send == SendFailed;
        }
      }
    }
  }
}
