# Contact gateway model

A Dafny model of the contact-submission gateway of a personal portfolio site,
together with the two small helpers around it: the postal-address formatter
and the pre-commit security scan.

The gateway exists twice. `server.js` serves it as the Express route
`POST /api/contact`, and `netlify/functions/contact.js` serves it as a Netlify
function. Both run the same pipeline, and the first check that fails
answers the request:

1. The origin allow-list (`ALLOWED_ORIGINS`) is checked.
2. The Netlify function alone checks the method and parses the JSON body.
3. Field extraction, the honeypot, header sanitising, presence, the
   inclusive length bounds and the e-mail shape are checked.
4. The per-IP fixed-window rate limiter is consulted (5 requests per
   10 minutes).
5. The SMTP configuration is checked.
6. The mail is sent.

The two deployments differ in a few places:

- The Express server memoises its transport. The function builds one per
  request.
- The function lower-cases header names itself.
- The function reads the client address from `x-forwarded-for` or
  `x-nf-client-connection-ip`.

Layout, one module per file:

| file | module | what |
|---|---|---|
| `wrappers.dfy` | `Wrappers` | `Option` |
| `seqs.dfy` | `Seqs` | order-preserving `Filter`, subsequences, `Collect` of optional values |
| `text.dfy` | `Text` | JavaScript `trim`/`\s`, `split`/`join`, `startsWith`, ASCII `toLowerCase`, `String(n)` |
| `origin.dfy` | `OriginGuard` | parsing `ALLOWED_ORIGINS`, `isAllowedOrigin` |
| `config.dfy` | `Config` | the environment map, the allow-list read from it |
| `validation.dfy` | `Validation` | field coercion, honeypot, `sanitizeHeaderValue`, bounds, e-mail shape |
| `ratelimit.dfy` | `RateLimit` | `checkRateLimit` with its lazy sweep |
| `mail.dfy` | `Mail` | required settings, transport options, memoised `getTransporter`, the message |
| `http.dfy` | `Http` | JSON envelope, hardening headers, `Retry-After`, first forwarded hop |
| `server.dfy` | `Server` | the Express route |
| `netlify.dfy` | `NetlifyContact` | the Netlify handler |
| `address.dfy` | `Address` | `formatAddress` |
| `scan.dfy` | `SecurityScan` | `shouldIgnore`, the tracked-env filter, first-matching-pattern reports |

Several things are inputs rather than effects:

- the clock (`now`, for `Date.now()`);
- the process environment (a map);
- the outcome of `sendMail`;
- `JSON.parse` (a function parameter);
- the regular-expression tests of the scan patterns.

Process-wide state is threaded through explicitly:

- the rate-limit store;
- the time of the last sweep;
- the memoised transport.

## Model

| member | source | states |
|---|---|---|
| Text.Trim | server.js:124 | `trim` leaves no whitespace at either end and never lengthens the string |
| Text.LeadingSpace | server.js:124 | the whitespace `trim` drops at the front: every counted character is whitespace and the next one is not |
| Text.TrailingStart | server.js:124 | the whitespace `trim` drops at the back: every character from the returned length on is whitespace and the one before it is not |
| Text.TrimInfix | server.js:124 | `trim` removes only whitespace: the result is a contiguous slice of the input with nothing but whitespace before and after it |
| Text.TrimIdempotent | server.js:121-124 | trimming twice is trimming once |
| Text.TrimEmptyIffAllSpace | server.js:117 | `s.trim()` is falsy exactly when `s` is all whitespace, so a whitespace-only honeypot is blank |
| Text.Split | server.js:6-9 | `split(",")` gives at least one comma-free piece, and joining the pieces with "," restores the input |
| Text.SplitJoin | server.js:6-9 | splitting a join of separator-free pieces gives the pieces back |
| Text.NatToDecimal | server.js:145 | `String(n)` is a non-empty digit string that starts with 0 only for n = 0 |
| Text.DecimalRoundTrip | server.js:145 | reading the numeral back gives `n` |
| OriginGuard.ParseAllowList | server.js:6-9 | a string is an entry exactly when it is a non-blank trimmed comma segment; the entries keep the order of the segments (a subsequence of the trimmed segments); each is non-empty, trimmed and comma-free |
| OriginGuard.IsAllowedOrigin | server.js:43-46 | an empty allow-list admits every origin, an absent one too; otherwise an absent or empty origin is refused and a non-empty one is admitted exactly when it is listed |
| OriginGuard.AdmissionByConfig | server.js:43-46 | if no segment is non-blank, every origin is admitted, an absent one too; otherwise exactly the non-empty origins equal to a trimmed segment are admitted |
| OriginGuard.UnsetConfigAdmitsAll | server.js:6-9 | an unset `ALLOWED_ORIGINS` gives the empty list, and the guard is open |
| OriginGuard.SingleOrigin | server.js:43-46 | a single configured origin admits exactly itself and refuses requests without an origin |
| Validation.CollapseBreaks | server.js:41 | the `/[\r\n]+/g` replacement leaves no CR or LF and never lengthens the value |
| Validation.CollapseKeepsCharacters | server.js:41 | the replacement introduces no character but the space |
| Validation.Sanitize | server.js:41 | the sanitised value holds no CR or LF, has no whitespace at either end, and holds only characters of the input and spaces |
| Validation.CollapseAfterBreakFree | server.js:41 | text without CR/LF passes the replacement unchanged, whatever follows it |
| Validation.BreakRunBecomesSpace | server.js:41 | a whole run of CR/LF characters, however long, becomes exactly one space; the text before it is kept and the replacement goes on after it |
| Validation.SanitizeJoinsLines | server.js:41 | two lines without outer whitespace joined by any CR/LF run sanitise to the lines joined by one space |
| Validation.SanitizeWithoutBreaks | server.js:41 | on input without CR/LF, sanitising is plain trimming |
| Validation.SanitizeIdempotent | server.js:41 | sanitising an already sanitised value changes nothing |
| Validation.SanitizeFixesClean | server.js:121-123 | a value with no CR/LF and no outer whitespace is left unchanged |
| Validation.EmailShapeIsPattern | server.js:20 | the shape predicate `Validation.IsEmailShape` (a non-empty local part before the first `@`, then a domain without `@`, both without whitespace, holding a `.` that is neither its first nor its last character) holds exactly when `^[^\s@]+@[^\s@]+\.[^\s@]+$` matches |
| Validation.EmailExamples | server.js:139-141 | `a@b.c` passes; `not-an-email`, `a@b` and `a b@c.d` fail |
| Validation.StringField | server.js:111-115 | a string value is taken as it is; an absent key or a non-string value reads as "" |
| Validation.Extract | netlify/functions/contact.js:94-98 | each of `name`, `email`, `subject`, `message` and `company` is the payload's string under that key, or "" when the key is absent or holds a non-string |
| Validation.Validate | server.js:110-141 | a filled honeypot always gives "Invalid submission."; each later error happens exactly when every earlier check passed and its own check failed; acceptance holds iff the honeypot is blank and the cleaned fields are present, bounded (inclusive) and well-shaped; an accepted submission is the cleaned fields |
| Validation.HoneypotFirst | server.js:117-119 | two payloads with the same filled honeypot are both refused as "Invalid submission.", whatever their other fields |
| Validation.NonStringCompanyPasses | server.js:110-115 | an absent or non-string `company` reads as "" and never trips the honeypot |
| Validation.BlankHoneypotPasses | server.js:117 | an all-whitespace honeypot does not trip |
| Validation.CleanFieldsAccepted | server.js:121-141 | fields that already satisfy the accepted invariant, with a blank honeypot, are accepted unchanged: the cleaning step `Validation.Clean` (sanitise name, e-mail and subject, trim the message, server.js:121-124) leaves them as they are |
| RateLimit.CeilDiv | server.js:75 | `Math.ceil(n / d)` is the least `q` with `n <= q * d` |
| RateLimit.Sweep | server.js:58-65 | a due sweep keeps exactly the live entries, unchanged, and records `now`; an early sweep changes nothing |
| RateLimit.SweepStore | server.js:59-63 | the deletion loop leaves exactly the entries whose window is still open |
| RateLimit.CheckRateLimit | server.js:56-79 | a fresh or expired entry resets to count 1 and is allowed; otherwise the count rises by one even when refused; refusal comes exactly when the count passes 5, with the seconds left rounded up; other keys lose only expired entries, and only when a sweep is due |
| RateLimit.CheckKeepsConsistent | server.js:66-76 | with a clock that never runs backwards every refusal's delay lies in 1..600 s, and the store stays consistent |
| RateLimit.InitialConsistent | server.js:18-19 | the empty start-up store is consistent |
| RateLimit.RunInsideWindow | server.js:73-76 | inside one window each request adds one to the count, and a request is refused exactly when its count passes 5 |
| RateLimit.KthRequestInWindow | server.js:66-76 | from a fresh window, requests 1-5 pass and the 6th and later are refused with 1..600 s |
| Mail.MissingEnv | server.js:86 | the missing keys are exactly the unset or empty required ones, in `REQUIRED_ENV` order; the list is empty iff all four are set |
| Mail.BuildTransport | server.js:91-99 | host and credentials as configured; the port falls back to 587; TLS only for exactly "true" |
| Mail.GetTransporter | server.js:81-102 | a cached transport is returned whatever the configuration; else an incomplete configuration caches nothing and reports its missing keys; a complete one is built and cached |
| Mail.CachedTransportIsStable | server.js:82-84 | once cached, the lookup no longer depends on the environment |
| Mail.ComposeMessage | server.js:158-164 | to the admin, from `MAIL_FROM` when truthy (else the admin), reply-to the submitted address, the subject or the fallback, body `name (email): message` |
| Mail.ComposedHeadersSafe | server.js:158-163 | for an accepted submission the visitor-controlled headers hold no CR/LF, the subject is never empty and the reply-to is well-shaped |
| Http.WithRetryAfter | server.js:145 | `Retry-After` is a digit string whose value is the delay; the other headers are kept |
| Http.FirstHop | server.js:51 | the first forwarded hop has no comma and no outer whitespace; for a comma-free value it is the whole value trimmed |
| Http.FirstHopOfList | server.js:51 | for `a, rest` the hop is `a` trimmed, whatever follows |
| Server.ClientIp | server.js:48-54 | the first hop of a non-empty `X-Forwarded-For`, else a non-empty peer address, else "unknown" |
| Server.Throttled | server.js:144-148 | the refusal answer is 429 "Too many requests", with `Retry-After` the decimal numeral of the delay and the hardening headers |
| Server.Deliver | server.js:151-169 | no send exactly when nothing is cached and the configuration is incomplete, and then 500 "Email service not configured." with nothing cached; otherwise the composed message goes through the cached transport or one built from the configuration, which is then cached; a delivered send is answered 200 `{ok: true}` and a failed one 500 "Failed to send email." |
| Server.Respond | server.js:143-169 | a refusal is answered with exactly the `Throttled` response for the delay, sends nothing and leaves the transporter cache as it was (server.js:143-149 returns before `getTransporter`); 429 exactly when refused; otherwise the outcome of `Deliver` on the updated store; no send exactly when refused or unconfigured with nothing cached; 200 exactly on a delivered send |
| Server.HandleContact | server.js:104-170 | the check order; rejections before the limiter leave the state untouched; an accepted request updates the store as the limiter does; 429 iff accepted and refused; an admitted, accepted request gets the outcome of `Respond` on the limiter's verdict, so a refused one gets the 429 `Throttled` answer with its `Retry-After` and an unthrottled one the outcome of `Deliver`; no send exactly when one of the checks stops the request; `ok` iff 200; hardening headers on every answer; a cached transport is never replaced |
| Server.RefusedRequestThrottled | server.js:143-149 | an admitted, valid request that the limiter refuses gets exactly the `Throttled` answer, sends nothing, keeps the transporter cache and leaves the store as the limiter leaves it |
| Server.CleanSubmissionDelivered | server.js:104-165 | at start-up, with full configuration and an open guard, a clean well-formed submission is delivered with reply-to the submitted address |
| Server.TransporterKept | server.js:81-84 | a cached transport survives any request and rules out "not configured" |
| NetlifyContact.LowercaseHeaders | netlify/functions/contact.js:74-76 | the keys are exactly the lower-cased names, all lower-case, and each takes the value of its last entry |
| NetlifyContact.HeaderCaseIgnored | netlify/functions/contact.js:74-77 | header lists differing only in name case give the same headers, so `Origin` and `origin` are read alike |
| NetlifyContact.JsonResponse | netlify/functions/contact.js:19-31 | every JSON response carries the four hardening headers and `Content-Type: application/json` |
| NetlifyContact.ClientIp | netlify/functions/contact.js:40-46 | the first hop of a non-empty `x-forwarded-for`, else of `x-nf-client-connection-ip`, else "unknown"; never a comma |
| NetlifyContact.BodyText | netlify/functions/contact.js:89 | a missing or empty body is read as `{}` |
| NetlifyContact.Admit | netlify/functions/contact.js:77-92 | 403 exactly for a refused origin, 405 exactly for an admitted non-POST, 400 "Invalid JSON." exactly for an admitted POST whose body does not parse; the request goes on exactly when it is an admitted POST whose body parses, and then with the parsed object |
| NetlifyContact.Throttled | netlify/functions/contact.js:128-136 | the refusal answer is 429 "Too many requests" with the security headers plus `Retry-After`, the decimal numeral of the delay |
| NetlifyContact.Deliver | netlify/functions/contact.js:139-167 | no send exactly when the configuration is incomplete, and then 500 "Email service not configured."; otherwise the composed message goes through a transport built from the current configuration; a delivered send is answered 200 `{ok: true}` and a failed one 500 "Failed to send email." |
| NetlifyContact.Respond | netlify/functions/contact.js:127-167 | a refusal is answered with exactly the `Throttled` response (the security headers plus `Retry-After`, nothing else) and sends nothing; 429 exactly when refused; otherwise the outcome of `Deliver`; no send exactly when refused or unconfigured; 200 exactly on a delivered send |
| NetlifyContact.Process | netlify/functions/contact.js:94-167 | validation rejections leave the store untouched; 429 iff accepted and refused; an accepted request gets the outcome of `Respond` on the limiter's verdict, so a refused one gets the 429 `Throttled` answer and an unthrottled one the outcome of `Deliver`; no send exactly when validation, the limiter or the configuration stops it; a send uses a transport built from the current configuration |
| NetlifyContact.Finish | netlify/functions/contact.js:87-94 | an early answer from the checks stands, with the store untouched and nothing sent; a parsed object goes on to `Process` with its fields extracted |
| NetlifyContact.HandleEvent | netlify/functions/contact.js:73-168 | every answer carries the security headers, and `ok` holds exactly on 200 |
| NetlifyContact.OriginBeforeMethod | netlify/functions/contact.js:79-85 | a refused origin gets 403 whatever the method |
| NetlifyContact.WrongMethodRefused | netlify/functions/contact.js:83-85 | an admitted non-POST gets 405 and spends no quota |
| NetlifyContact.BadJsonRefused | netlify/functions/contact.js:87-92 | an unparseable body gets 400 "Invalid JSON." before any field check |
| NetlifyContact.RefusedEventThrottled | netlify/functions/contact.js:127-137 | an admitted, valid request that the limiter refuses is answered with the 429 `Throttled` response for the limiter's delay, sends nothing and leaves the store as the limiter leaves it |
| NetlifyContact.MissingBodyIsMissingFields | netlify/functions/contact.js:87-111 | an admitted POST without a body fails as "Missing required fields." and spends no quota |
| NetlifyContact.ConfigRecheckedEveryRequest | netlify/functions/contact.js:139-162 | with an incomplete configuration nothing is ever sent; every send goes through the transport built from the configuration of that request |
| NetlifyContact.QuotaSpentWhenUnconfigured | netlify/functions/contact.js:127-143 | an accepted request under an incomplete configuration gets 500 but still spends its quota |
| Address.FormatAddress | src/utils/index.js:37-41 | "" for a missing address; otherwise the template line with its outer whitespace trimmed, no longer than the template line and built only from its characters |
| Address.CleanPartsNeedNoTrim | src/utils/index.js:40 | when the street is non-empty and every part has no outer whitespace, the trim changes nothing: the line is the template exactly, for any subset of optional parts |
| Address.StreetOnly | src/utils/index.js:40 | with no truthy city, state or zip the line is the street alone, trimmed |
| Address.MissingStreetPrintsUndefined | src/utils/index.js:39-40 | a missing street, with no truthy city, state or zip, prints as "undefined" |
| Address.FullAddress | src/utils/index.js:40 | a complete address whose parts have no outer whitespace prints as `street, city state zip` |
| Address.StreetAndZip | src/utils/index.js:40 | street and zip without city or state print as `street zip` |
| Address.BlankStreetKeepsComma | src/Components/Contact.js:13-14 | a blank street with a city leaves the line starting with "," |
| SecurityScan.Normalize | scripts/security-scan.js:59 | every backslash becomes "/" and every other character is kept in place, so the length is unchanged |
| SecurityScan.Basename | scripts/security-scan.js:60 | the basename never contains "/" |
| SecurityScan.BasenameOfFile | scripts/security-scan.js:60 | a slash-free file name is its own basename under any directory |
| SecurityScan.ShouldIgnore | scripts/security-scan.js:58-70 | a path is skipped exactly when its basename is an env file or a listed file, or its normalised path starts with a skipped directory |
| SecurityScan.UnderIgnoredDirCases | scripts/security-scan.js:65-68 | the skipped directories are exactly `public/`, `build/`, `node_modules/` and `.git/` |
| SecurityScan.EnvFileIgnoredAnywhere | scripts/security-scan.js:60-63 | `.env` and `.env.*` files other than `.env.example` are skipped in every directory |
| SecurityScan.IgnoredFileAnywhere | scripts/security-scan.js:64 | a listed file name is skipped in every directory |
| SecurityScan.EnvExampleIsNotEnvName | scripts/security-scan.js:61 | under the env-file test `SecurityScan.IsEnvName` (`.env`, or `.env.` followed by anything but `example`, security-scan.js:61 and 101), `.env.example` is not an env file; `.env` and `.env.local` are |
| SecurityScan.BackslashPathsIgnored | scripts/security-scan.js:59 | backslash-separated paths under any of the four skipped directories (`node_modules`, `build`, `public`, `.git`) are skipped |
| SecurityScan.SplitLines | scripts/security-scan.js:99 | `/\r?\n/` splitting: the line-feed pieces, each but the last without one trailing CR |
| SecurityScan.SplitLinesOfJoin | scripts/security-scan.js:99 | LF-free lines, none but the last ending in CR, joined by LF split back into the same lines |
| SecurityScan.TrackedEnvFiles | scripts/security-scan.js:95-105 | the listed env-file lines, in listing order and each as often as it is listed, and no other line; none when git fails |
| SecurityScan.FirstApplicable | scripts/security-scan.js:39-45 | the first pattern that applies to the extension and matches; none before it does |
| SecurityScan.FirstMatch | scripts/security-scan.js:39-45 | the loop finds the first applicable pattern, or reports that none applies |
| SecurityScan.FileIssue | scripts/security-scan.js:31-45 | skipped or unreadable files report nothing; otherwise the report names the first applicable pattern |
| Seqs.Filter | scripts/security-scan.js:100-101 | `filter` keeps exactly the elements that pass, in order, each with its multiplicity |
| Seqs.Collect | scripts/security-scan.js:31-46 | the `i`-th collected value is the value of the `i`-th element that has one |
| SecurityScan.FileIssues | scripts/security-scan.js:30-46 | one report per reporting file, in walk order: the `i`-th report is that of the `i`-th file that has one |
| SecurityScan.Scan | scripts/security-scan.js:23-54 | at most one line more than there are files; committed env files always fail the scan; the report is empty exactly when there are no committed env files and no file reports |

## Left out

- Host plumbing is left out: Express middleware, `app.listen`, `trust proxy` and the `x-powered-by` switch. The handler's `async` scheduling and logging (`console.error`) are also left out. Requests are handled one at a time.
- The 10 kB body limit, URL-encoded bodies and the parsing inside `express.json` are left out. The server route receives the already parsed object, or none.
- `Server.Respond` does not model the `Content-Type` header that `res.json` adds. That header is Express plumbing, not part of the route.
- `Server.ClientIp` folds `req.ip` and `req.socket.remoteAddress` into one optional peer address. How Express derives `req.ip` behind a proxy is not modelled.
- `JSON.parse` is a parameter. Its results are limited to objects or a syntax error. A body such as `null` makes `payload.name` throw at netlify/functions/contact.js:94, and the function does not catch that. Numbers, strings and arrays read as objects without the five fields.
- `nodemailer.createTransport` and `sendMail` are not modelled. The transport is the options record, and the outcome of a send is an input.
- `Mail.BuildTransport` keeps the port as the configured string, or "587". `Number(...)` coercion is not modelled.
- `Validation.Validate` counts length bounds in characters. JavaScript counts UTF-16 code units, so a character outside the Basic Multilingual Plane counts once here and twice in the source.
- `Text.ToLower` lower-cases ASCII letters only. `toLowerCase` also folds non-ASCII letters in header names and file extensions.
- `RateLimit.CheckKeepsConsistent` proves the 1..600 s bound only for a clock that never runs backwards. If `Date.now()` jumps back, the source can produce a longer delay.
- The environment is read once per process for `ALLOWED_ORIGINS` and on each request for the SMTP settings. Both are the same map parameter here, so the model assumes the environment does not change while the process runs.
- Address.FullAddress: states the exact line only for parts without outer whitespace. Other parts get the trimmed template line that `Address.FormatAddress` states.
- `Address.FormatAddress` models fields that are strings or absent. `null` and numeric fields, which the template prints as `null` or as their numeral, are not modelled.
- Parts of the security scan are inputs or left out:
  - `collectFiles`, `readTextFile` (the 1 MB and NUL-byte checks), `execSync`, `path.relative` and `process.exit` are I/O. The walked files, their readable content and the `git ls-files` output are inputs.
  - `IGNORE_DIRS` only prunes the walk inside `collectFiles`, so it is not modelled.
  - `path.extname` is an input.
  - `path.basename` follows POSIX, so a backslash is an ordinary character.
  - The concrete pattern regular expressions are an abstract `test` parameter.
