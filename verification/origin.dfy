/**
 * The origin allow-list: parsed once from `ALLOWED_ORIGINS`, consulted on
 * every request before anything else happens.
 */
module OriginGuard {
  import opened Wrappers
  import opened Text
  import opened Seqs

  /** The comma-separated segments of the configured value (`undefined` reads as ""). */
  function Segments(config: Option<string>): seq<string>
  {
    Split(config.GetOr(""), ',')
  }

  /** Each segment with its surrounding whitespace removed. */
  function TrimAll(parts: seq<string>): (r: seq<string>)
    ensures |r| == |parts|
    ensures forall i :: 0 <= i < |r| ==> r[i] == Trim(parts[i])
  {
    seq(|parts|, i requires 0 <= i < |parts| => Trim(parts[i]))
  }

  predicate NonBlank(o: string)
  {
    o != ""
  }

  /** Trimming comma-free segments yields trimmed, comma-free entries. */
  lemma TrimAllClean(parts: seq<string>)
    requires forall i :: 0 <= i < |parts| ==> ',' !in parts[i]
    ensures forall o :: o in TrimAll(parts) ==> ',' !in o && IsTrimmed(o)
  {
    var t := TrimAll(parts);
    forall o | o in t ensures ',' !in o && IsTrimmed(o) {
      var k :| 0 <= k < |t| && t[k] == o;
      TrimKeepsCharacters(parts[k]);
    }
  }

  /**
   * `ALLOWED_ORIGINS` split on commas, trimmed, with the blank entries dropped.
   * The entries are exactly the non-blank trimmed segments, in order, each
   * non-empty, trimmed and free of commas.
   */
  function ParseAllowList(config: Option<string>): (allow: seq<string>)
    ensures forall o :: o in allow <==> o != "" && o in TrimAll(Segments(config))
    ensures IsSubsequence(allow, TrimAll(Segments(config)))
    ensures forall o :: o in allow ==> IsTrimmed(o) && ',' !in o
  {
    var segs := Segments(config);
    TrimAllClean(segs);
    Filter(TrimAll(segs), NonBlank)
  }

  /** `isAllowedOrigin`: an empty list admits everyone; otherwise a non-empty, listed origin. */
  function IsAllowedOrigin(allow: seq<string>, origin: Option<string>): (ok: bool)
    ensures |allow| == 0 ==> ok
    ensures (origin.None? || origin == Some("")) ==> (ok <==> |allow| == 0)
    ensures origin.Some? && origin.value != "" ==> (ok <==> |allow| == 0 || origin.value in allow)
  {
    if |allow| == 0 then true
    else origin.Some? && origin.value != "" && origin.value in allow
  }

  /** Some comma-separated segment of the configuration is non-blank. */
  predicate Configured(config: Option<string>)
  {
    exists o :: o in TrimAll(Segments(config)) && o != ""
  }

  /**
   * Admission stated against the raw configuration: when no segment of
   * `ALLOWED_ORIGINS` is non-blank every origin (absent included) is admitted;
   * otherwise exactly the non-empty origins equal to some trimmed segment are.
   */
  lemma AdmissionByConfig(config: Option<string>, origin: Option<string>)
    ensures !Configured(config) ==> IsAllowedOrigin(ParseAllowList(config), origin)
    ensures Configured(config) ==>
      (IsAllowedOrigin(ParseAllowList(config), origin) <==>
         origin.Some? && origin.value != "" && origin.value in TrimAll(Segments(config)))
  {
    var allow := ParseAllowList(config);
    if |allow| > 0 {
      assert allow[0] in allow;
    }
    if Configured(config) {
      var o :| o in TrimAll(Segments(config)) && o != "";
      assert o in allow;
    }
  }

  /** With no configuration the guard is open: every origin, including none, passes. */
  lemma UnsetConfigAdmitsAll(origin: Option<string>)
    ensures ParseAllowList(None) == []
    ensures IsAllowedOrigin(ParseAllowList(None), origin)
  {
    assert TrimAll(Segments(None)) == [""];
  }

  /**
   * `ALLOWED_ORIGINS` holding a single origin admits exactly that origin:
   * no other origin, and no request without one.
   */
  lemma SingleOrigin(o: string, origin: Option<string>)
    requires o != "" && ',' !in o && IsTrimmed(o)
    ensures ParseAllowList(Some(o)) == [o]
    ensures IsAllowedOrigin(ParseAllowList(Some(o)), origin) <==> origin == Some(o)
  {
    assert Segments(Some(o)) == [o];
    TrimOfTrimmed(o);
    assert TrimAll([o]) == [o];
    var allow := ParseAllowList(Some(o));
    assert Filter([o], NonBlank) == [o] + Filter([o][1..], NonBlank);
    assert [o][1..] == [];
    assert allow == [o];
  }
}
