/**
 * The repository's pre-commit security scan: which paths it skips, which
 * tracked files it reports as committed environment files, and the rule
 * that reports at most one pattern per scanned file. Listing the tree,
 * reading files, running `git ls-files` and the regular expressions
 * themselves are inputs.
 */
module SecurityScan {
  import opened Wrappers
  import opened Seqs
  import opened Text

  // ---------------------------------------------------------------------------
  // Paths
  // ---------------------------------------------------------------------------

  /** The part of `s` after its last `/` (all of `s` when it has none). */
  function AfterLastSlash(s: string): (r: string)
    ensures '/' !in r
    ensures |r| <= |s| && r == s[|s| - |r|..]
    ensures |r| == |s| || s[|s| - |r| - 1] == '/'
  {
    if |s| == 0 || s[|s| - 1] == '/' then []
    else
      var r := AfterLastSlash(s[..|s| - 1]) + [s[|s| - 1]];
      assert s[..|s| - 1][|s| - |r|..] + [s[|s| - 1]] == s[|s| - |r|..];
      r
  }

  /** `s` without its trailing slashes. */
  function DropTrailingSlashes(s: string): (r: string)
    ensures |r| <= |s| && r == s[..|r|]
    ensures forall i :: |r| <= i < |s| ==> s[i] == '/'
    ensures |r| == 0 || r[|r| - 1] != '/'
  {
    if |s| > 0 && s[|s| - 1] == '/' then DropTrailingSlashes(s[..|s| - 1]) else s
  }

  /**
   * `path.basename` with POSIX separators: the last segment of the path,
   * trailing slashes ignored. A backslash is an ordinary character.
   */
  function Basename(p: string): (r: string)
    ensures '/' !in r
  {
    AfterLastSlash(DropTrailingSlashes(p))
  }

  /** The last segment after a slash is taken whatever comes before it. */
  lemma {:induction false} AfterLastSlashOfJoin(dir: string, name: string)
    requires '/' !in name
    ensures AfterLastSlash(dir + ['/'] + name) == name
    ensures AfterLastSlash(name) == name
    decreases |name|
  {
    var s := dir + ['/'] + name;
    if |name| > 0 {
      var n := |name| - 1;
      var init := name[..n];
      assert name[n] in name;
      assert s[|s| - 1] == name[n] != '/';
      assert s[..|s| - 1] == dir + ['/'] + init;
      assert '/' !in init by {
        forall i | 0 <= i < n ensures init[i] != '/' { assert init[i] == name[i]; assert name[i] in name; }
      }
      AfterLastSlashOfJoin(dir, init);
      assert AfterLastSlash(s) == AfterLastSlash(dir + ['/'] + init) + [name[n]];
      assert name[..n] == init && name[|name| - 1] == name[n];
      assert AfterLastSlash(name) == AfterLastSlash(init) + [name[n]];
      assert init + [name[n]] == name;
    } else {
      assert s[|s| - 1] == '/';
    }
  }

  /** A file name is its own basename, and stays the basename under any directory. */
  lemma BasenameOfFile(dir: string, name: string)
    requires name != "" && '/' !in name
    ensures Basename(dir + "/" + name) == name
    ensures Basename(name) == name
  {
    var s := dir + "/" + name;
    assert name[|name| - 1] in name;
    assert s[|s| - 1] == name[|name| - 1];
    assert DropTrailingSlashes(s) == s;
    assert DropTrailingSlashes(name) == name;
    AfterLastSlashOfJoin(dir, name);
  }

  /** `relPath.replace(/\\/g, "/")`: every backslash becomes a slash. */
  function Normalize(p: string): (r: string)
    ensures |r| == |p|
    ensures forall i :: 0 <= i < |p| ==> r[i] == (if p[i] == '\\' then '/' else p[i])
  {
    seq(|p|, i requires 0 <= i < |p| => if p[i] == '\\' then '/' else p[i])
  }

  /** A local environment file: `.env`, or `.env.<anything>` except the committed `.env.example`. */
  predicate IsEnvName(name: string)
  {
    name == ".env" || (StartsWith(name, ".env.") && name != ".env.example")
  }

  const IgnoreFiles: set<string> := {"pnpm-lock.yaml", "package-lock.json", "resume-screenshot.jpg"}

  /** The top-level directories whose contents are never scanned. */
  const IgnoredPrefixes: set<string> := {"public/", "build/", "node_modules/", ".git/"}

  /** The normalised path lies under one of the skipped top-level directories. */
  predicate UnderIgnoredDir(normalized: string)
  {
    exists d :: d in IgnoredPrefixes && StartsWith(normalized, d)
  }

  /** The skipped directories, one at a time. */
  lemma UnderIgnoredDirCases(normalized: string)
    ensures UnderIgnoredDir(normalized) <==>
      StartsWith(normalized, "public/") || StartsWith(normalized, "build/")
      || StartsWith(normalized, "node_modules/") || StartsWith(normalized, ".git/")
  {
    if StartsWith(normalized, "public/") { assert "public/" in IgnoredPrefixes; }
    if StartsWith(normalized, "build/") { assert "build/" in IgnoredPrefixes; }
    if StartsWith(normalized, "node_modules/") { assert "node_modules/" in IgnoredPrefixes; }
    if StartsWith(normalized, ".git/") { assert ".git/" in IgnoredPrefixes; }
  }

  /**
   * `shouldIgnore(relPath)`: environment files and the fixed file names are
   * skipped by their basename wherever they sit; everything under the
   * generated and vendored top-level directories is skipped by its
   * normalised path; nothing else is.
   */
  function ShouldIgnore(rel: string): (ignored: bool)
    ensures ignored <==>
      IsEnvName(Basename(rel)) || Basename(rel) in IgnoreFiles
      || UnderIgnoredDir(Normalize(rel))
  {
    var normalized := Normalize(rel);
    var base := Basename(rel);
    UnderIgnoredDirCases(normalized);
    if base == ".env" || (StartsWith(base, ".env.") && base != ".env.example") then true
    else if base in IgnoreFiles then true
    else if StartsWith(normalized, "public/") then true
    else if StartsWith(normalized, "build/") then true
    else if StartsWith(normalized, "node_modules/") then true
    else if StartsWith(normalized, ".git/") then true
    else false
  }

  /** An environment file is skipped in the root and in every directory. */
  lemma EnvFileIgnoredAnywhere(dir: string, name: string)
    requires IsEnvName(name) && '/' !in name
    ensures ShouldIgnore(name) && ShouldIgnore(dir + "/" + name)
  {
    BasenameOfFile(dir, name);
  }

  /** A listed file name is skipped in the root and in every directory. */
  lemma IgnoredFileAnywhere(dir: string, name: string)
    requires name in IgnoreFiles
    ensures ShouldIgnore(name) && ShouldIgnore(dir + "/" + name)
  {
    assert '/' !in name;
    BasenameOfFile(dir, name);
  }

  /** `.env.example` is not an environment file, so it is scanned like any other file. */
  lemma EnvExampleIsNotEnvName()
    ensures !IsEnvName(".env.example")
    ensures IsEnvName(".env") && IsEnvName(".env.local")
  {
    assert ".env.local"[..5] == ".env.";
  }

  /** A Windows-style path under a skipped directory is skipped once its separators are normalised. */
  lemma BackslashPathsIgnored(rest: string)
    ensures ShouldIgnore("node_modules\\" + rest)
    ensures ShouldIgnore("build\\" + rest)
    ensures ShouldIgnore("public\\" + rest)
    ensures ShouldIgnore(".git\\" + rest)
  {
    var p := "node_modules\\" + rest;
    assert Normalize(p)[..13] == "node_modules/";
    assert "node_modules/" in IgnoredPrefixes;
    var q := "build\\" + rest;
    assert Normalize(q)[..6] == "build/";
    assert "build/" in IgnoredPrefixes;
    var u := "public\\" + rest;
    assert Normalize(u)[..7] == "public/";
    assert "public/" in IgnoredPrefixes;
    var g := ".git\\" + rest;
    assert Normalize(g)[..5] == ".git/";
    assert ".git/" in IgnoredPrefixes;
  }

  // ---------------------------------------------------------------------------
  // Tracked environment files
  // ---------------------------------------------------------------------------

  /** One carriage return at the end of `s` removed. */
  function ChompCR(s: string): (r: string)
    ensures |r| <= |s| && r == s[..|r|]
    ensures |r| == |s| || (|r| == |s| - 1 && s[|r|] == '\r')
    ensures forall c :: c in r ==> c in s
  {
    if |s| > 0 && s[|s| - 1] == '\r' then
      assert s == s[..|s| - 1] + [s[|s| - 1]];
      s[..|s| - 1]
    else s
  }

  /** Piece `i` of the line-feed split as a line: only the last keeps a trailing carriage return. */
  function LineAt(pieces: seq<string>, i: nat): (line: string)
    requires i < |pieces|
    ensures i < |pieces| - 1 ==> line == ChompCR(pieces[i])
    ensures i == |pieces| - 1 ==> line == pieces[i]
    ensures '\n' !in pieces[i] ==> '\n' !in line
  {
    if i < |pieces| - 1 then ChompCR(pieces[i]) else pieces[i]
  }

  /** `output.split(/\r?\n/)`: split at each line feed, dropping one carriage return before it. */
  function SplitLines(output: string): (lines: seq<string>)
    ensures |lines| == |Split(output, '\n')|
    ensures forall i :: 0 <= i < |lines| - 1 ==> lines[i] == ChompCR(Split(output, '\n')[i])
    ensures lines[|lines| - 1] == Split(output, '\n')[|lines| - 1]
    ensures forall i :: 0 <= i < |lines| ==> '\n' !in lines[i]
  {
    var pieces := Split(output, '\n');
    var lines := seq(|pieces|, i requires 0 <= i < |pieces| => LineAt(pieces, i));
    assert forall i :: 0 <= i < |lines| ==> lines[i] == LineAt(pieces, i);
    lines
  }

  /** Lines joined by line feeds come back as the same lines, as long as none ends in a carriage return. */
  lemma SplitLinesOfJoin(lines: seq<string>)
    requires |lines| >= 1
    requires forall i :: 0 <= i < |lines| ==> '\n' !in lines[i]
    requires forall i :: 0 <= i < |lines| - 1 ==> |lines[i]| == 0 || lines[i][|lines[i]| - 1] != '\r'
    ensures SplitLines(Join(lines, "\n")) == lines
  {
    SplitJoin(lines, '\n');
  }

  /**
   * `getTrackedEnvFiles()`: the lines of `git ls-files` that name an
   * environment file, in listing order and with their multiplicity; nothing
   * when git fails. The empty lines the listing drops are not environment
   * names, so `IsEnvName` alone is the filter.
   */
  function TrackedEnvFiles(gitOutput: Option<string>): (files: seq<string>)
    ensures gitOutput.None? ==> files == []
    ensures forall f :: f in files <==> gitOutput.Some? && f in SplitLines(gitOutput.value) && IsEnvName(f)
    ensures gitOutput.Some? ==>
      forall f :: multiset(files)[f] == if IsEnvName(f) then multiset(SplitLines(gitOutput.value))[f] else 0
    ensures gitOutput.Some? ==> IsSubsequence(files, SplitLines(gitOutput.value))
  {
    match gitOutput
    case None => []
    case Some(output) => Filter(SplitLines(output), IsEnvName)
  }

  // ---------------------------------------------------------------------------
  // Pattern reports
  // ---------------------------------------------------------------------------

  /** A content pattern: its report name and the extensions it applies to. */
  datatype Pattern = Pattern(name: string, fileTypes: set<string>)

  const Patterns: seq<Pattern> := [
    Pattern("env-fallback", {".js", ".jsx", ".ts", ".tsx"}),
    Pattern("hardcoded-secret", {".js", ".jsx", ".ts", ".tsx", ".json", ".yaml", ".yml", ".toml"})
  ]

  /** The pattern applies to a file of extension `ext` and its regular expression matches the content. */
  predicate Applies(p: Pattern, ext: string, content: string, test: (Pattern, string) -> bool)
  {
    ext in p.fileTypes && test(p, content)
  }

  /** The first pattern from position `k` on that applies, if any. */
  function FirstApplicable(patterns: seq<Pattern>, k: nat, ext: string, content: string,
                           test: (Pattern, string) -> bool): (hit: Option<nat>)
    requires k <= |patterns|
    ensures hit.Some? ==>
      k <= hit.value < |patterns| && Applies(patterns[hit.value], ext, content, test)
      && forall j :: k <= j < hit.value ==> !Applies(patterns[j], ext, content, test)
    ensures hit.None? ==> forall j :: k <= j < |patterns| ==> !Applies(patterns[j], ext, content, test)
    decreases |patterns| - k
  {
    if k == |patterns| then None
    else if Applies(patterns[k], ext, content, test) then Some(k)
    else FirstApplicable(patterns, k + 1, ext, content, test)
  }

  /**
   * The inner loop of the scan: patterns are tried in order, those for
   * other extensions skipped, and the loop stops at the first match.
   */
  method FirstMatch(patterns: seq<Pattern>, ext: string, content: string,
                    test: (Pattern, string) -> bool) returns (hit: Option<nat>)
    ensures hit.Some? ==>
      hit.value < |patterns| && Applies(patterns[hit.value], ext, content, test)
      && forall j :: 0 <= j < hit.value ==> !Applies(patterns[j], ext, content, test)
    ensures hit.None? ==> forall j :: 0 <= j < |patterns| ==> !Applies(patterns[j], ext, content, test)
    ensures hit == FirstApplicable(patterns, 0, ext, content, test)
  {
    var k := 0;
    while k < |patterns|
      invariant k <= |patterns|
      invariant forall j :: 0 <= j < k ==> !Applies(patterns[j], ext, content, test)
      invariant FirstApplicable(patterns, 0, ext, content, test) == FirstApplicable(patterns, k, ext, content, test)
    {
      if !(ext in patterns[k].fileTypes) {
        k := k + 1;
        continue;
      }
      if test(patterns[k], content) {
        return Some(k);
      }
      k := k + 1;
    }
    return None;
  }

  /** A walked file: its path relative to the root, its extension, and its text (none when unreadable). */
  datatype SourceFile = SourceFile(rel: string, ext: string, content: Option<string>)

  /**
   * The report for one file: none when the path is skipped or the content
   * is unreadable, else `<rel>: <name>` of the first applicable pattern,
   * the extension compared in lower case.
   */
  function FileIssue(f: SourceFile, patterns: seq<Pattern>, test: (Pattern, string) -> bool): (issue: Option<string>)
    ensures ShouldIgnore(f.rel) || f.content.None? ==> issue.None?
    ensures issue.Some? ==>
      var hit := FirstApplicable(patterns, 0, ToLower(f.ext), f.content.value, test);
      hit.Some? && issue.value == f.rel + ": " + patterns[hit.value].name
    ensures (!ShouldIgnore(f.rel) && f.content.Some?
      && FirstApplicable(patterns, 0, ToLower(f.ext), f.content.value, test).Some?) ==> issue.Some?
  {
    if ShouldIgnore(f.rel) || f.content.None? then None
    else
      match FirstApplicable(patterns, 0, ToLower(f.ext), f.content.value, test)
      case None => None
      case Some(i) => Some(f.rel + ": " + patterns[i].name)
  }

  /** `FileIssue` with the patterns and the matcher fixed. */
  function IssueOf(patterns: seq<Pattern>, test: (Pattern, string) -> bool): SourceFile -> Option<string>
  {
    f => FileIssue(f, patterns, test)
  }

  /** The files that produce a report. */
  function Reports(patterns: seq<Pattern>, test: (Pattern, string) -> bool): SourceFile -> bool
  {
    Defined(IssueOf(patterns, test))
  }

  /**
   * The reports for the walked files, in walk order: the `i`-th report is
   * the report of the `i`-th file that has one.
   */
  function FileIssues(files: seq<SourceFile>, patterns: seq<Pattern>, test: (Pattern, string) -> bool): (issues: seq<string>)
    ensures |issues| == |Filter(files, Reports(patterns, test))| <= |files|
    ensures forall i :: 0 <= i < |issues| ==>
      FileIssue(Filter(files, Reports(patterns, test))[i], patterns, test) == Some(issues[i])
  {
    Collect(files, IssueOf(patterns, test))
  }

  /**
   * The whole report: the committed environment files first (one line for
   * all of them), then the per-file reports. The scan passes exactly when
   * the report is empty.
   */
  function Scan(gitOutput: Option<string>, files: seq<SourceFile>, patterns: seq<Pattern>,
                test: (Pattern, string) -> bool): (issues: seq<string>)
    ensures |issues| <= |files| + 1
    ensures TrackedEnvFiles(gitOutput) != [] ==> |issues| > 0
    ensures issues == [] <==>
      (TrackedEnvFiles(gitOutput) == [] && forall f :: f in files ==> FileIssue(f, patterns, test).None?)
  {
    var tracked := TrackedEnvFiles(gitOutput);
    var reporting := Filter(files, Reports(patterns, test));
    assert reporting != [] ==> reporting[0] in files && FileIssue(reporting[0], patterns, test).Some?;
    var head := if |tracked| > 0 then ["Tracked env files: " + Join(tracked, ", ")] else [];
    head + FileIssues(files, patterns, test)
  }
}
