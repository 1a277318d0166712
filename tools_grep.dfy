/** The `grep_content` tool with a literal pattern: which files of the walk are searched,
    what a match records, and where the collection stops. */
module Grep {
  import opened Wrappers
  import opened Text
  import opened Paths
  import opened Disk
  import opened ServerConfig
  import Sandbox

  /** `max_results` of 0 means 50; anything else is capped at 200. */
  function ResultCap(maxResults: nat): (c: nat)
    ensures 1 <= c <= 200
    ensures maxResults == 0 ==> c == 50
    ensures 0 < maxResults <= 200 ==> c == maxResults
  {
    if maxResults == 0 then 50 else Min(maxResults, 200)
  }

  datatype Match = Match(path: string, lineNumber: nat, text: string)

  /** The pattern sits at index `i` of the line: equal, or equal up to ASCII case when
      `caseInsensitive`. */
  predicate MatchesAt(line: string, pattern: string, i: nat, caseInsensitive: bool) {
    i + |pattern| <= |line|
    && (if caseInsensitive then Lower(line[i..i + |pattern|]) == Lower(pattern)
        else line[i..i + |pattern|] == pattern)
  }

  /** The literal pattern occurs in the line; with `case_insensitive` both sides are
      compared lowercased. That is: the pattern sits at some index of the line. */
  predicate LineMatches(line: string, pattern: string, caseInsensitive: bool): (m: bool)
    ensures m <==> (exists i: nat :: MatchesAt(line, pattern, i, caseInsensitive))
  {
    MatchIsWindow(line, pattern, caseInsensitive);
    if caseInsensitive then Contains(Lower(line), Lower(pattern)) else Contains(line, pattern)
  }

  lemma MatchIsWindow(line: string, pattern: string, ci: bool)
    ensures (if ci then Contains(Lower(line), Lower(pattern)) else Contains(line, pattern))
      <==> (exists i: nat :: MatchesAt(line, pattern, i, ci))
  {
    var s, p := (if ci then Lower(line) else line), (if ci then Lower(pattern) else pattern);
    assert |s| == |line| && |p| == |pattern|;
    forall i: nat | i + |pattern| <= |line|
      ensures IsAt(s, p, i) <==> MatchesAt(line, pattern, i, ci)
    {
      if ci {
        assert Lower(line)[i..i + |pattern|] == Lower(line[i..i + |pattern|]);
      }
    }
    var f := FindFrom(s, p, 0);
    assert Contains(s, p) == f.Some?;
    if f.Some? {
      assert IsAt(s, p, f.value) && MatchesAt(line, pattern, f.value, ci);
    } else {
      forall i: nat ensures !MatchesAt(line, pattern, i, ci) {
        if i + |pattern| <= |line| {
          assert !IsAt(s, p, i);
        }
      }
    }
  }

  /** The first 200 characters. */
  function Shown(line: string): (t: string)
    ensures |t| == Min(|line|, 200) && t <= line
  {
    line[..Min(|line|, 200)]
  }

  /** The extension filter: some listed extension equals the file's (or "" when it has
      none), ignoring ASCII case. */
  predicate ExtensionAllowed(path: string, extensions: Option<seq<string>>) {
    match extensions
    case None => true
    case Some(exts) =>
      var ext := match Extension(path) case Some(e) => e case None => "";
      exists k :: 0 <= k < |exts| && Lower(exts[k]) == Lower(ext)
  }

  /** The files searched: regular files with a supported, non-binary name, allowed by the
      extension filter, granted by `validate_path`, not larger than the configured limit
      when their size is known, and readable. `sizes` holds known metadata lengths. */
  predicate Searched(path: string, extensions: Option<seq<string>>, config: AppConfig, host: Host, sizes: map<string, nat>) {
    && path in host.existing && path !in host.dirs
    && Sandbox.IsSupportedExtension(BaseName(path)) && !Sandbox.IsBinaryFile(BaseName(path))
    && ExtensionAllowed(path, extensions)
    && Sandbox.ValidatePath(path, config, host).Ok?
    && !(path in sizes && sizes[path] > config.maxFileSizeMb * 1024 * 1024)
    && path in host.files
  }

  /** The filter of one call, as a function of the path. */
  function Filter(extensions: Option<seq<string>>, config: AppConfig, host: Host, sizes: map<string, nat>): string -> bool {
    path => Searched(path, extensions, config, host, sizes)
  }

  /** The matches among the first `j` lines of one file, numbered from 1. */
  function FileHits(path: string, lines: seq<string>, j: nat, pattern: string, ci: bool): seq<Match>
    requires j <= |lines|
  {
    if j == 0 then []
    else
      FileHits(path, lines, j - 1, pattern, ci)
        + (if LineMatches(lines[j - 1], pattern, ci) then [Match(path, j, Shown(lines[j - 1]))] else [])
  }

  /** The lines of a readable file (none for any other path). */
  function FileLines(path: string, host: Host): seq<string> {
    if path in host.files then Lines(host.files[path]) else []
  }

  /** Every match of every searched file of the walk, in walk order; `searched` is the
      per-file filter (`Searched` with the call's settings). */
  function AllHits(walk: seq<string>, pattern: string, ci: bool, searched: string -> bool, host: Host): seq<Match> {
    if walk == [] then []
    else
      var path := walk[|walk| - 1];
      AllHits(walk[..|walk| - 1], pattern, ci, searched, host)
        + (if searched(path)
           then FileHits(path, FileLines(path, host), |FileLines(path, host)|, pattern, ci)
           else [])
  }

  lemma {:induction false} FileHitsGrow(path: string, lines: seq<string>, i: nat, j: nat, pattern: string, ci: bool)
    requires i <= j <= |lines|
    ensures FileHits(path, lines, i, pattern, ci) <= FileHits(path, lines, j, pattern, ci)
    decreases j - i
  {
    if i < j {
      FileHitsGrow(path, lines, i, j - 1, pattern, ci);
    }
  }

  lemma {:induction false} AllHitsGrow(walk: seq<string>, i: nat, pattern: string, ci: bool, searched: string -> bool, host: Host)
    requires i <= |walk|
    ensures AllHits(walk[..i], pattern, ci, searched, host) <= AllHits(walk, pattern, ci, searched, host)
    decreases |walk| - i
  {
    if i < |walk| {
      var w := walk[..|walk| - 1];
      assert walk[..i] == w[..i];
      AllHitsGrow(w, i, pattern, ci, searched, host);
      assert walk[..|walk|] == walk;
    } else {
      assert walk[..i] == walk;
    }
  }

  /** The inner loop over one file's lines: matches are appended until `cap` are held. */
  method ScanLines(path: string, lines: seq<string>, pattern: string, ci: bool, cap: nat, before: seq<Match>)
    returns (results: seq<Match>, full: bool)
    requires |before| < cap
    ensures full ==> |results| == cap && results <= before + FileHits(path, lines, |lines|, pattern, ci)
    ensures !full ==> |results| < cap && results == before + FileHits(path, lines, |lines|, pattern, ci)
  {
    results := before;
    for j := 0 to |lines|
      invariant results == before + FileHits(path, lines, j, pattern, ci)
      invariant |results| < cap
    {
      if LineMatches(lines[j], pattern, ci) {
        results := results + [Match(path, j + 1, Shown(lines[j]))];
        if |results| >= cap {
          FileHitsGrow(path, lines, j + 1, |lines|, pattern, ci);
          return results, true;
        }
      }
    }
    full := false;
  }

  /** The collection loop: files in walk order, lines in file order, stopping the whole
      walk as soon as `cap` matches are held. */
  method Collect(walk: seq<string>, pattern: string, ci: bool, searched: string -> bool, maxResults: nat, host: Host)
    returns (results: seq<Match>)
    ensures var all := AllHits(walk, pattern, ci, searched, host);
      results == all[..Min(ResultCap(maxResults), |all|)]
  {
    var cap := ResultCap(maxResults);
    ghost var all := AllHits(walk, pattern, ci, searched, host);
    results := [];
    var i := 0;
    while i < |walk|
      invariant 0 <= i <= |walk|
      invariant results == AllHits(walk[..i], pattern, ci, searched, host)
      invariant |results| < cap
    {
      AllHitsStep(walk, i, pattern, ci, searched, host);
      var path := walk[i];
      if searched(path) {
        var full;
        results, full := ScanLines(path, FileLines(path, host), pattern, ci, cap, results);
        if full {
          StopsFull(walk, i + 1, pattern, ci, searched, host, results, cap);
          return;
        }
      }
      i := i + 1;
    }
    assert walk[..|walk|] == walk;
    CappedPrefix(results, all, all, |all|);
  }

  /** Stopping with `cap` matches out of the first files of the walk is stopping with the
      first `cap` matches of the whole walk. */
  lemma StopsFull(walk: seq<string>, i: nat, pattern: string, ci: bool, searched: string -> bool, host: Host,
                  results: seq<Match>, cap: nat)
    requires i <= |walk|
    requires |results| == cap && results <= AllHits(walk[..i], pattern, ci, searched, host)
    ensures var all := AllHits(walk, pattern, ci, searched, host);
      results == all[..Min(cap, |all|)]
  {
    AllHitsGrow(walk, i, pattern, ci, searched, host);
    CappedPrefix(results, AllHits(walk[..i], pattern, ci, searched, host), AllHits(walk, pattern, ci, searched, host), cap);
  }

  /** A prefix of the matches that is exactly `cap` long, or all of them and under `cap`, is
      what the capped collection keeps. */
  lemma CappedPrefix(results: seq<Match>, mid: seq<Match>, all: seq<Match>, cap: nat)
    requires results <= mid <= all
    requires |results| == cap || (results == all && |all| < cap)
    ensures results == all[..Min(cap, |all|)]
  {
  }

  datatype GrepError = Denied(reason: Sandbox.SandboxError) | NotADirectory(path: string)

  datatype GrepOutcome = NoMatches | Found(matches: seq<Match>)

  /** `grep_content` with a literal pattern: the root must be granted and a directory; no
      match is a success that says so. `walk` lists the regular walk below the root, at
      most 20 levels deep, in the walk's order. */
  function GrepContent(rootPath: string, walk: seq<string>, pattern: string, ci: bool, extensions: Option<seq<string>>, maxResults: nat,
                       config: AppConfig, host: Host, sizes: map<string, nat>): Result<GrepOutcome, GrepError>
  {
    match Sandbox.ValidatePath(rootPath, config, host)
    case Err(e) => Err(Denied(e))
    case Ok(v) =>
      if v.canonicalPath !in host.dirs then Err(NotADirectory(rootPath))
      else
        var all := AllHits(walk, pattern, ci, Filter(extensions, config, host, sizes), host);
        var hits := all[..Min(ResultCap(maxResults), |all|)];
        if hits == [] then Ok(NoMatches) else Ok(Found(hits))
  }

  /** Every reported match is a line of a searched file that holds the pattern, with its
      1-based number and at most 200 characters of it. */
  lemma {:induction false} HitsAreMatches(walk: seq<string>, pattern: string, ci: bool, searched: string -> bool, host: Host)
    ensures var all := AllHits(walk, pattern, ci, searched, host);
      forall m :: m in all ==>
        && m.path in walk && searched(m.path)
        && 1 <= m.lineNumber <= |FileLines(m.path, host)|
        && LineMatches(FileLines(m.path, host)[m.lineNumber - 1], pattern, ci)
        && m.text == Shown(FileLines(m.path, host)[m.lineNumber - 1])
  {
    if walk != [] {
      var w, path := walk[..|walk| - 1], walk[|walk| - 1];
      HitsAreMatches(w, pattern, ci, searched, host);
      if searched(path) {
        var lines := FileLines(path, host);
        FileHitsAreMatches(path, lines, |lines|, pattern, ci);
      }
    }
  }

  lemma {:induction false} FileHitsAreMatches(path: string, lines: seq<string>, j: nat, pattern: string, ci: bool)
    requires j <= |lines|
    ensures forall m :: m in FileHits(path, lines, j, pattern, ci) ==>
      && m.path == path && 1 <= m.lineNumber <= j
      && LineMatches(lines[m.lineNumber - 1], pattern, ci) && m.text == Shown(lines[m.lineNumber - 1])
  {
    if j > 0 {
      FileHitsAreMatches(path, lines, j - 1, pattern, ci);
    }
  }

  /** One more file of the walk adds its own matches at the end. */
  lemma AllHitsStep(walk: seq<string>, i: nat, pattern: string, ci: bool, searched: string -> bool, host: Host)
    requires i < |walk|
    ensures AllHits(walk[..i + 1], pattern, ci, searched, host)
      == AllHits(walk[..i], pattern, ci, searched, host)
         + (if searched(walk[i]) then FileHits(walk[i], FileLines(walk[i], host), |FileLines(walk[i], host)|, pattern, ci) else [])
  {
    assert walk[..i + 1][..i] == walk[..i];
  }

  lemma PrefixMember<T>(x: T, a: seq<T>, b: seq<T>)
    requires x in a && a <= b
    ensures x in b
  {
    var k :| 0 <= k < |a| && a[k] == x;
    assert b[k] == x;
  }

  /** A matching line of a file is among that file's matches. */
  lemma MatchingLineInFile(path: string, lines: seq<string>, n: nat, pattern: string, ci: bool)
    requires 1 <= n <= |lines| && LineMatches(lines[n - 1], pattern, ci)
    ensures Match(path, n, Shown(lines[n - 1])) in FileHits(path, lines, |lines|, pattern, ci)
  {
    var m := Match(path, n, Shown(lines[n - 1]));
    assert FileHits(path, lines, n, pattern, ci) == FileHits(path, lines, n - 1, pattern, ci) + [m];
    FileHitsGrow(path, lines, n, |lines|, pattern, ci);
    PrefixMember(m, FileHits(path, lines, n, pattern, ci), FileHits(path, lines, |lines|, pattern, ci));
  }

  /** A match of a searched file of the walk is among all the matches. */
  lemma FileMatchInWalk(walk: seq<string>, k: nat, m: Match, pattern: string, ci: bool, searched: string -> bool, host: Host)
    requires k < |walk| && searched(walk[k])
    requires m in FileHits(walk[k], FileLines(walk[k], host), |FileLines(walk[k], host)|, pattern, ci)
    ensures m in AllHits(walk, pattern, ci, searched, host)
  {
    AllHitsStep(walk, k, pattern, ci, searched, host);
    var upTo := AllHits(walk[..k + 1], pattern, ci, searched, host);
    assert m in upTo;
    AllHitsGrow(walk, k + 1, pattern, ci, searched, host);
    PrefixMember(m, upTo, AllHits(walk, pattern, ci, searched, host));
  }

  /** Conversely, every matching line of a searched file is among all the matches; it is
      reported unless the cap was reached first. */
  lemma MatchingLineFound(walk: seq<string>, k: nat, n: nat, pattern: string, ci: bool, searched: string -> bool, host: Host)
    requires k < |walk| && searched(walk[k])
    requires 1 <= n <= |FileLines(walk[k], host)| && LineMatches(FileLines(walk[k], host)[n - 1], pattern, ci)
    ensures Match(walk[k], n, Shown(FileLines(walk[k], host)[n - 1])) in AllHits(walk, pattern, ci, searched, host)
  {
    MatchingLineInFile(walk[k], FileLines(walk[k], host), n, pattern, ci);
    FileMatchInWalk(walk, k, Match(walk[k], n, Shown(FileLines(walk[k], host)[n - 1])), pattern, ci, searched, host);
  }
}
