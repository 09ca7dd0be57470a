/** The process environment as both deployments read it. */
module Config {
  import opened Wrappers
  import opened OriginGuard

  /** `process.env`: a key maps to its string value; an absent key is `undefined`. */
  type Env = map<string, string>

  /**
   * `m[key]` is a truthy string: present and non-empty. Used for the
   * environment and for the lower-cased request headers alike.
   */
  predicate IsSet(m: map<string, string>, key: string)
  {
    key in m && m[key] != ""
  }

  function EnvValue(env: Env, key: string): Option<string>
  {
    if key in env then Some(env[key]) else None
  }

  /** The allow-list, read once from `ALLOWED_ORIGINS`. */
  function AllowList(env: Env): seq<string>
  {
    ReadAllowList(EnvValue(env, "ALLOWED_ORIGINS"))
  }

  /**
   * The value of `ALLOWED_ORIGINS` as parsed at start-up: exactly
   * `ParseAllowList`, the same parse under another name, with no difference
   * in behaviour. It is kept as a separate step only so that proofs about
   * requests see the parsed list as one value and unfold the parse only
   * when they need it.
   */
  function ReadAllowList(config: Option<string>): seq<string>
  {
    ParseAllowList(config)
  }
}
