/**
 * Mail dispatch: the required SMTP settings, the transport built from them,
 * and the message composed for an accepted submission. `createTransport`
 * and `sendMail` belong to nodemailer; the transport is the settings record
 * handed to it, and the outcome of a send is an input.
 */
module Mail {
  import opened Wrappers
  import opened Seqs
  import opened Text
  import opened Validation
  import opened Config

  const RequiredEnv: seq<string> := ["SMTP_HOST", "SMTP_USER", "SMTP_PASS", "ADMIN_EMAIL"]
  const DefaultPort := "587"
  const FallbackSubject := "Contact Form Submission"

  /**
   * `REQUIRED_ENV.filter((key) => !process.env[key])`: exactly the required
   * keys that are unset, in the order `REQUIRED_ENV` lists them.
   */
  function MissingEnv(env: Env): (missing: seq<string>)
    ensures forall k :: k in missing <==> k in RequiredEnv && !IsSet(env, k)
    ensures IsSubsequence(missing, RequiredEnv)
    ensures missing == [] <==> forall k :: k in RequiredEnv ==> IsSet(env, k)
  {
    Filter(RequiredEnv, (k: string) => !IsSet(env, k))
  }

  /** The options object given to `createTransport`. */
  datatype Transport = Transport(host: string, port: string, secure: bool, user: string, pass: string)

  /**
   * The transport built from a complete configuration: host and credentials
   * as configured, the port falling back to 587, TLS only for the exact
   * value "true".
   */
  function BuildTransport(env: Env): (t: Transport)
    requires MissingEnv(env) == []
    ensures t.host == env["SMTP_HOST"] && t.user == env["SMTP_USER"] && t.pass == env["SMTP_PASS"]
    ensures t.host != "" && t.user != "" && t.pass != ""
    ensures t.port == (if IsSet(env, "SMTP_PORT") then env["SMTP_PORT"] else DefaultPort)
    ensures t.secure <==> EnvValue(env, "SMTP_SECURE") == Some("true")
  {
    assert "SMTP_HOST" in RequiredEnv && "SMTP_USER" in RequiredEnv && "SMTP_PASS" in RequiredEnv;
    Transport(
      env["SMTP_HOST"],
      if IsSet(env, "SMTP_PORT") then env["SMTP_PORT"] else DefaultPort,
      EnvValue(env, "SMTP_SECURE") == Some("true"),
      env["SMTP_USER"],
      env["SMTP_PASS"])
  }

  /** What `getTransporter` returns, and the memo it leaves behind. */
  datatype Lookup = Lookup(result: Result, cache: Option<Transport>)
  datatype Result = Ready(transport: Transport) | MissingConfig(keys: seq<string>)

  /**
   * `getTransporter` of the standalone server. A cached transport is
   * returned as it is, whatever the configuration says now. Otherwise an
   * incomplete configuration reports its missing keys and caches nothing,
   * and a complete one builds the transport and caches it.
   */
  function GetTransporter(cache: Option<Transport>, env: Env): (r: Lookup)
    ensures cache.Some? ==> r == Lookup(Ready(cache.value), cache)
    ensures cache.None? && MissingEnv(env) != [] ==>
      r.result == MissingConfig(MissingEnv(env)) && r.cache == None
    ensures cache.None? && MissingEnv(env) == [] ==>
      r.result == Ready(BuildTransport(env)) && r.cache == Some(BuildTransport(env))
    ensures r.result.Ready? <==> r.cache.Some?
    ensures r.result.Ready? ==> r.cache == Some(r.result.transport)
  {
    if cache.Some? then Lookup(Ready(cache.value), cache)
    else if MissingEnv(env) != [] then Lookup(MissingConfig(MissingEnv(env)), None)
    else
      var t := BuildTransport(env);
      Lookup(Ready(t), Some(t))
  }

  /** Once a transport is cached, later lookups return it and keep it, under any configuration. */
  lemma CachedTransportIsStable(t: Transport, env1: Env, env2: Env)
    ensures GetTransporter(Some(t), env1) == GetTransporter(Some(t), env2)
    ensures GetTransporter(Some(t), env1).cache == Some(t)
  {
  }

  /** A send attempt: the transport used and the message handed to it. */
  datatype Dispatch = Dispatch(transport: Transport, message: Message)

  /** The outcome of `transporter.sendMail`. */
  datatype SendOutcome = Delivered | SendFailed

  datatype Message = Message(to: Option<string>, from: Option<string>, replyTo: string, subject: string, text: string)

  /**
   * The message for an accepted submission: to the administrator, from
   * `MAIL_FROM` when set (else the administrator), replying to the submitter,
   * under the submitted subject or the fixed fallback, with the body
   * `name (email): message`.
   */
  function ComposeMessage(env: Env, s: Submission): (m: Message)
    ensures m.to == EnvValue(env, "ADMIN_EMAIL")
    ensures m.from == (if IsSet(env, "MAIL_FROM") then Some(env["MAIL_FROM"]) else EnvValue(env, "ADMIN_EMAIL"))
    ensures m.replyTo == s.email
    ensures s.subject != "" ==> m.subject == s.subject
    ensures s.subject == "" ==> m.subject == FallbackSubject
    ensures m.text == s.name + " (" + s.email + "): " + s.message
  {
    Message(
      EnvValue(env, "ADMIN_EMAIL"),
      if IsSet(env, "MAIL_FROM") then Some(env["MAIL_FROM"]) else EnvValue(env, "ADMIN_EMAIL"),
      s.email,
      if s.subject != "" then s.subject else FallbackSubject,
      s.name + " (" + s.email + "): " + s.message)
  }

  /**
   * The header fields a visitor controls cannot inject headers: for a
   * well-formed submission the reply-to address and the subject are free of
   * CR/LF, the subject is never empty, and the reply-to is a well-shaped
   * address.
   */
  lemma ComposedHeadersSafe(env: Env, s: Submission)
    requires WellFormed(s)
    ensures NoBreaks(ComposeMessage(env, s).replyTo)
    ensures NoBreaks(ComposeMessage(env, s).subject)
    ensures ComposeMessage(env, s).subject != ""
    ensures IsEmailShape(ComposeMessage(env, s).replyTo)
  {
  }
}
