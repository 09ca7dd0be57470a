/**
 * The payload validator shared by both deployments: field extraction,
 * honeypot, header sanitising, presence, inclusive length bounds and the
 * e-mail shape check, in that order.
 */
module Validation {
  import opened Text

  const MaxNameLength: nat := 100
  const MaxEmailLength: nat := 254
  const MaxSubjectLength: nat := 150
  const MaxMessageLength: nat := 2000

  const InvalidSubmission := "Invalid submission."
  const MissingFields := "Missing required fields."
  const InvalidLength := "Invalid field length."
  const InvalidEmail := "Invalid email address."

  /** A parsed JSON value, as far as the validator cares: a string or anything else. */
  datatype JsonValue = JString(text: string) | JOther

  /** A parsed JSON object body. */
  type Payload = map<string, JsonValue>

  /** The five submitted fields after type coercion; `company` is the honeypot. */
  datatype RawFields = RawFields(name: string, email: string, subject: string, message: string, company: string)

  /** `typeof v === "string" ? v : ""` for the property `key`. */
  function StringField(p: Payload, key: string): (v: string)
    ensures key in p && p[key].JString? ==> v == p[key].text
    ensures key !in p || p[key].JOther? ==> v == ""
  {
    if key in p && p[key].JString? then p[key].text else ""
  }

  /**
   * The five fields of the body: a string property is taken as it is, while a
   * missing or non-string property reads as "".
   */
  function Extract(p: Payload): (f: RawFields)
    ensures "name" in p && p["name"].JString? ==> f.name == p["name"].text
    ensures "name" !in p || p["name"].JOther? ==> f.name == ""
    ensures "email" in p && p["email"].JString? ==> f.email == p["email"].text
    ensures "email" !in p || p["email"].JOther? ==> f.email == ""
    ensures "subject" in p && p["subject"].JString? ==> f.subject == p["subject"].text
    ensures "subject" !in p || p["subject"].JOther? ==> f.subject == ""
    ensures "message" in p && p["message"].JString? ==> f.message == p["message"].text
    ensures "message" !in p || p["message"].JOther? ==> f.message == ""
    ensures "company" in p && p["company"].JString? ==> f.company == p["company"].text
    ensures "company" !in p || p["company"].JOther? ==> f.company == ""
  {
    RawFields(StringField(p, "name"), StringField(p, "email"), StringField(p, "subject"),
              StringField(p, "message"), StringField(p, "company"))
  }

  // ---------------------------------------------------------------------------
  // Header sanitising: `value.replace(/[\r\n]+/g, " ").trim()`
  // ---------------------------------------------------------------------------

  predicate IsBreak(c: char)
  {
    c == '\r' || c == '\n'
  }

  predicate NoBreaks(s: string)
  {
    forall i :: 0 <= i < |s| ==> !IsBreak(s[i])
  }

  /** Drops the run of CR/LF characters at the front of `s`. */
  function DropBreaks(s: string): (r: string)
    ensures |r| <= |s| && r == s[|s| - |r|..]
    ensures |r| == 0 || !IsBreak(r[0])
  {
    if |s| > 0 && IsBreak(s[0]) then DropBreaks(s[1..]) else s
  }

  /** Every maximal run of CR/LF characters becomes one space. */
  function CollapseBreaks(s: string): (r: string)
    ensures NoBreaks(r)
    ensures |r| <= |s|
    decreases |s|
  {
    if |s| == 0 then []
    else if IsBreak(s[0]) then [' '] + CollapseBreaks(DropBreaks(s[1..]))
    else [s[0]] + CollapseBreaks(s[1..])
  }

  /** Collapsing adds no character but the space that replaces a run. */
  lemma {:induction false} CollapseKeepsCharacters(s: string)
    ensures forall x :: x in CollapseBreaks(s) ==> x in s || x == ' '
    decreases |s|
  {
    if |s| > 0 {
      if IsBreak(s[0]) {
        var t := DropBreaks(s[1..]);
        CollapseKeepsCharacters(t);
        assert forall x :: x in t ==> x in s;
      } else {
        CollapseKeepsCharacters(s[1..]);
        assert forall x :: x in s[1..] ==> x in s;
      }
    }
  }

  /**
   * `sanitizeHeaderValue`: the result can go into a mail header. It holds no
   * CR or LF, has no whitespace at either end, and is built from characters
   * of `s` and the spaces that replace line breaks.
   */
  function Sanitize(s: string): (r: string)
    ensures NoBreaks(r)
    ensures IsTrimmed(r)
    ensures forall x :: x in r ==> x in s || x == ' '
  {
    var c := CollapseBreaks(s);
    var r := Trim(c);
    TrimKeepsCharacters(c);
    CollapseKeepsCharacters(s);
    assert forall i :: 0 <= i < |r| ==> r[i] in c;
    r
  }

  /** On input without CR/LF, sanitising is plain trimming. */
  lemma SanitizeWithoutBreaks(s: string)
    requires NoBreaks(s)
    ensures Sanitize(s) == Trim(s)
  {
    CollapseAfterBreakFree(s, []);
    assert s + [] == s;
  }

  /** Sanitising an already sanitised value changes nothing. */
  lemma SanitizeIdempotent(s: string)
    ensures Sanitize(Sanitize(s)) == Sanitize(s)
  {
    var r := Sanitize(s);
    SanitizeWithoutBreaks(r);
    TrimOfTrimmed(r);
  }

  /** A string made only of CR and LF characters. */
  predicate AllBreaks(s: string)
  {
    forall i :: 0 <= i < |s| ==> IsBreak(s[i])
  }

  /** `DropBreaks` removes a whole leading run of breaks and nothing after it. */
  lemma {:induction false} DropBreaksOfRun(b: string, c: string)
    requires AllBreaks(b)
    requires |c| == 0 || !IsBreak(c[0])
    ensures DropBreaks(b + c) == c
    decreases |b|
  {
    if |b| > 0 {
      assert (b + c)[0] == b[0];
      assert (b + c)[1..] == b[1..] + c;
      assert AllBreaks(b[1..]) by {
        forall i | 0 <= i < |b| - 1 ensures IsBreak(b[1..][i]) {
          assert b[1..][i] == b[i + 1];
        }
      }
      DropBreaksOfRun(b[1..], c);
    } else {
      assert b + c == c;
    }
  }

  /** Break-free text passes through `CollapseBreaks` unchanged, whatever follows it. */
  lemma {:induction false} CollapseAfterBreakFree(a: string, t: string)
    requires NoBreaks(a)
    ensures CollapseBreaks(a + t) == a + CollapseBreaks(t)
    decreases |a|
  {
    if |a| > 0 {
      assert NoBreaks(a[1..]) by {
        forall i | 0 <= i < |a| - 1 ensures !IsBreak(a[1..][i]) {
          assert a[1..][i] == a[i + 1];
        }
      }
      calc {
        CollapseBreaks(a + t);
        == { assert (a + t)[0] == a[0] && !IsBreak(a[0]); assert (a + t)[1..] == a[1..] + t; }
        [a[0]] + CollapseBreaks(a[1..] + t);
        == { CollapseAfterBreakFree(a[1..], t); }
        [a[0]] + (a[1..] + CollapseBreaks(t));
        == { assert a == [a[0]] + a[1..]; }
        a + CollapseBreaks(t);
      }
    } else {
      assert a + t == t;
    }
  }

  /**
   * A maximal run of CR/LF characters becomes exactly one space: text before
   * it is kept, and collapsing resumes with the text after it.
   */
  lemma {:induction false} BreakRunBecomesSpace(a: string, b: string, c: string)
    requires NoBreaks(a)
    requires |b| > 0 && AllBreaks(b)
    requires |c| == 0 || !IsBreak(c[0])
    ensures CollapseBreaks(a + b + c) == a + " " + CollapseBreaks(c)
  {
    calc {
      CollapseBreaks(a + b + c);
      == { assert a + b + c == a + (b + c); }
      CollapseBreaks(a + (b + c));
      == { CollapseAfterBreakFree(a, b + c); }
      a + CollapseBreaks(b + c);
      == { RunCollapsesToSpace(b, c); }
      a + ([' '] + CollapseBreaks(c));
      == { assert a + ([' '] + CollapseBreaks(c)) == a + " " + CollapseBreaks(c); }
      a + " " + CollapseBreaks(c);
    }
  }

  /** A leading run of breaks collapses to one space, and collapsing goes on after the run. */
  lemma {:induction false} RunCollapsesToSpace(b: string, c: string)
    requires |b| > 0 && AllBreaks(b)
    requires |c| == 0 || !IsBreak(c[0])
    ensures CollapseBreaks(b + c) == [' '] + CollapseBreaks(c)
  {
    var s := b + c;
    assert s[0] == b[0] && IsBreak(s[0]);
    assert s[1..] == b[1..] + c;
    assert AllBreaks(b[1..]) by {
      forall i | 0 <= i < |b| - 1 ensures IsBreak(b[1..][i]) {
        assert b[1..][i] == b[i + 1];
      }
    }
    DropBreaksOfRun(b[1..], c);
  }

  /** Two lines joined by any CR/LF run sanitise to the lines joined by one space ("Ann\r\nSmith" gives "Ann Smith"). */
  lemma {:induction false} SanitizeJoinsLines(a: string, b: string, c: string)
    requires NoBreaks(a) && NoBreaks(c)
    requires a != "" && c != "" && !IsSpace(a[0]) && !IsSpace(c[|c| - 1])
    requires |b| > 0 && AllBreaks(b)
    ensures Sanitize(a + b + c) == a + " " + c
  {
    BreakRunBecomesSpace(a, b, c);
    assert CollapseBreaks(c) == c by {
      CollapseAfterBreakFree(c, []);
      assert c + [] == c;
    }
    var line := a + " " + c;
    assert line[0] == a[0];
    assert line[|line| - 1] == c[|c| - 1];
    TrimOfTrimmed(line);
  }

  // ---------------------------------------------------------------------------
  // E-mail shape: /^[^\s@]+@[^\s@]+\.[^\s@]+$/
  // ---------------------------------------------------------------------------

  /** A character of the class `[^\s@]`. */
  predicate IsAddrChar(c: char)
  {
    !IsSpace(c) && c != '@'
  }

  predicate AllAddrChars(s: string)
  {
    forall i :: 0 <= i < |s| ==> IsAddrChar(s[i])
  }

  /**
   * The shape the source's e-mail pattern accepts, stated directly: a
   * non-empty local part before the first `@` with no whitespace; a domain
   * after it with no whitespace and no further `@`, holding a `.` that is
   * neither its first nor its last character.
   */
  predicate IsEmailShape(s: string)
  {
    '@' in s &&
    var at := IndexOf(s, '@');
    var local := s[..at];
    var domain := s[at + 1..];
    && |local| > 0 && AllAddrChars(local)
    && AllAddrChars(domain)
    && exists j :: 0 < j < |domain| - 1 && domain[j] == '.'
  }

  /**
   * What the regular expression matches: three non-empty runs of `[^\s@]`
   * joined by `@` and by a literal `.`.
   */
  ghost predicate MatchesEmailPattern(s: string)
  {
    exists i, j :: 0 < i && i + 1 < j < |s| - 1 && s[i] == '@' && s[j] == '.'
      && AllAddrChars(s[..i]) && AllAddrChars(s[i + 1..j]) && AllAddrChars(s[j + 1..])
  }

  /** Every string of the direct shape matches the regular expression. */
  lemma ShapeMatchesPattern(s: string)
    requires IsEmailShape(s)
    ensures MatchesEmailPattern(s)
  {
    var at := IndexOf(s, '@');
    var domain := s[at + 1..];
    var jd :| 0 < jd < |domain| - 1 && domain[jd] == '.';
    var j := at + 1 + jd;
    assert s[at + 1..j] == domain[..jd];
    assert s[j + 1..] == domain[jd + 1..];
    assert s[j] == '.';
  }

  /** A run of address characters holds no `@`. */
  lemma AddrCharsHaveNoAt(s: string)
    requires AllAddrChars(s)
    ensures '@' !in s
  {
  }

  /** Every match of the regular expression has the direct shape. */
  lemma PatternHasShape(s: string, i: nat, j: nat)
    requires 0 < i && i + 1 < j < |s| - 1 && s[i] == '@' && s[j] == '.'
    requires AllAddrChars(s[..i]) && AllAddrChars(s[i + 1..j]) && AllAddrChars(s[j + 1..])
    ensures IsEmailShape(s)
  {
    assert '@' in s;
    AddrCharsHaveNoAt(s[..i]);
    IndexOfAfterFreePrefix(s[..i], '@', s[i + 1..]);
    assert s == s[..i] + ['@'] + s[i + 1..];
    var domain := s[i + 1..];
    forall k | 0 <= k < |domain| ensures IsAddrChar(domain[k]) {
      if i + 1 + k < j {
        assert domain[k] == s[i + 1..j][k];
      } else if i + 1 + k > j {
        assert domain[k] == s[j + 1..][k - (j - i)];
      }
    }
    assert domain[j - i - 1] == '.';
  }

  /** The direct predicate and the regular expression accept the same strings. */
  lemma EmailShapeIsPattern(s: string)
    ensures IsEmailShape(s) <==> MatchesEmailPattern(s)
  {
    if IsEmailShape(s) {
      ShapeMatchesPattern(s);
    }
    if MatchesEmailPattern(s) {
      var i, j :| 0 < i && i + 1 < j < |s| - 1 && s[i] == '@' && s[j] == '.'
        && AllAddrChars(s[..i]) && AllAddrChars(s[i + 1..j]) && AllAddrChars(s[j + 1..]);
      PatternHasShape(s, i, j);
    }
  }

  lemma EmailExamples()
    ensures IsEmailShape("a@b.c")
    ensures !IsEmailShape("not-an-email")
    ensures !IsEmailShape("a@b")
    ensures !IsEmailShape("a b@c.d")
  {
    PlainAddressIsEmail();
    NoAtIsNotEmail();
    NoDotIsNotEmail();
    SpaceIsNotEmail();
  }

  lemma PlainAddressIsEmail()
    ensures IsEmailShape("a@b.c")
  {
    var good := "a@b.c";
    assert IndexOf(good, '@') == 1;
    assert good[2..][1] == '.';
  }

  lemma NoAtIsNotEmail()
    ensures !IsEmailShape("not-an-email")
  {
    var s := "not-an-email";
    assert forall i :: 0 <= i < |s| ==> s[i] != '@';
  }

  lemma NoDotIsNotEmail()
    ensures !IsEmailShape("a@b")
  {
    assert IndexOf("a@b", '@') == 1;
  }

  lemma SpaceIsNotEmail()
    ensures !IsEmailShape("a b@c.d")
  {
    var s := "a b@c.d";
    assert IndexOf(s, '@') == 3;
    assert s[..3][1] == ' ';
  }

  // ---------------------------------------------------------------------------
  // The validator
  // ---------------------------------------------------------------------------

  /** The fields as the gateway uses them once they are accepted. */
  datatype Submission = Submission(name: string, email: string, subject: string, message: string)

  datatype Verdict = Accepted(submission: Submission) | Rejected(error: string)

  /** Name, e-mail and subject are header-sanitised; the message is only trimmed. */
  function Clean(f: RawFields): Submission
  {
    Submission(Sanitize(f.name), Sanitize(f.email), Sanitize(f.subject), Trim(f.message))
  }

  predicate Present(s: Submission)
  {
    s.name != "" && s.email != "" && s.message != ""
  }

  /** Inclusive upper bounds: a value exactly at its bound passes. */
  predicate WithinBounds(s: Submission)
  {
    && |s.name| <= MaxNameLength
    && |s.email| <= MaxEmailLength
    && |s.subject| <= MaxSubjectLength
    && |s.message| <= MaxMessageLength
  }

  /**
   * The invariant an accepted submission carries: required fields present
   * and bounded, a well-shaped address, header fields free of CR/LF, and
   * every field trimmed.
   */
  predicate WellFormed(s: Submission)
  {
    && Present(s)
    && WithinBounds(s)
    && IsEmailShape(s.email)
    && NoBreaks(s.name) && NoBreaks(s.email) && NoBreaks(s.subject)
    && IsTrimmed(s.name) && IsTrimmed(s.email) && IsTrimmed(s.subject) && IsTrimmed(s.message)
  }

  /**
   * The handler's checks from the honeypot to the e-mail shape. Each
   * rejection happens only once every earlier check has passed, and the
   * honeypot wins over everything else.
   */
  function Validate(f: RawFields): (v: Verdict)
    ensures Trim(f.company) != "" ==> v == Rejected(InvalidSubmission)
    ensures v.Rejected? ==> v.error in {InvalidSubmission, MissingFields, InvalidLength, InvalidEmail}
    ensures v.Accepted? <==> Trim(f.company) == "" && WellFormed(Clean(f))
    ensures v.Accepted? ==> v.submission == Clean(f)
    ensures v == Rejected(MissingFields) <==> Trim(f.company) == "" && !Present(Clean(f))
    ensures v == Rejected(InvalidLength) <==>
      Trim(f.company) == "" && Present(Clean(f)) && !WithinBounds(Clean(f))
    ensures v == Rejected(InvalidEmail) <==>
      Trim(f.company) == "" && Present(Clean(f)) && WithinBounds(Clean(f)) && !IsEmailShape(Clean(f).email)
  {
    if Trim(f.company) != "" then Rejected(InvalidSubmission)
    else
      var s := Clean(f);
      if !Present(s) then Rejected(MissingFields)
      else if !WithinBounds(s) then Rejected(InvalidLength)
      else if !IsEmailShape(s.email) then Rejected(InvalidEmail)
      else Accepted(s)
  }

  /** A filled honeypot is refused whatever the other fields hold. */
  lemma HoneypotFirst(f: RawFields, g: RawFields)
    requires Trim(f.company) != ""
    requires g.company == f.company
    ensures Validate(f) == Validate(g) == Rejected(InvalidSubmission)
  {
  }

  /** An absent or non-string `company` reads as "" and does not trip the honeypot. */
  lemma NonStringCompanyPasses(p: Payload)
    requires "company" !in p || p["company"].JOther?
    ensures Validate(Extract(p)) != Rejected(InvalidSubmission)
  {
    var f := Extract(p);
    assert f.company == "";
    assert Trim(f.company) == "";
    BlankHoneypotPasses(f);
  }

  /** An all-whitespace honeypot is as good as an empty one. */
  lemma BlankHoneypotPasses(f: RawFields)
    requires AllSpace(f.company)
    ensures Validate(f) != Rejected(InvalidSubmission)
  {
    TrimEmptyIffAllSpace(f.company);
  }

  /** Sanitising leaves a value alone that already has no CR/LF and no outer whitespace. */
  lemma SanitizeFixesClean(s: string)
    requires NoBreaks(s) && IsTrimmed(s)
    ensures Sanitize(s) == s
  {
    SanitizeWithoutBreaks(s);
    TrimOfTrimmed(s);
  }

  /**
   * Fields that already satisfy the accepted-submission invariant, with a
   * blank honeypot, are accepted exactly as submitted.
   */
  lemma CleanFieldsAccepted(f: RawFields)
    requires Trim(f.company) == ""
    requires WellFormed(Submission(f.name, f.email, f.subject, f.message))
    ensures Validate(f) == Accepted(Submission(f.name, f.email, f.subject, f.message))
  {
    SanitizeFixesClean(f.name);
    SanitizeFixesClean(f.email);
    SanitizeFixesClean(f.subject);
    TrimOfTrimmed(f.message);
  }
}
