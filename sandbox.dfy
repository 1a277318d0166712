/** The MCP server's path sandbox: every path an agent names is checked against the
    enabled shared folders, the folders' `.mcpignore` rules and their permissions before any
    file is touched. Alongside sit the extension classifiers the tools use. */
module Sandbox {
  import opened Wrappers
  import opened Text
  import opened Paths
  import opened Disk
  import opened ServerConfig
  import FileFilter

  // ---------------------------------------------------------------- outcomes

  /** A granted path: the folder that let it through and the absolutised path (never
      resolved through symlinks). */
  datatype Validated = Validated(folder: SharedFolder, canonicalPath: string)

  datatype SandboxError =
    | Traversal(path: string)
    | Ignored(path: string)
    | Outside(path: string)
    | ReadOnlyFolder(path: string, folderPath: string)
    | NotFound(path: string)

  /** The text each refusal reports; every one quotes the path the caller gave. */
  function Message(e: SandboxError): (m: string)
    ensures exists i :: 0 <= i <= |m| && IsAt(m, e.path, i)
  {
    match e
    case Traversal(p) =>
      var pre := "Access denied: Path traversal characters '..' are not allowed: ";
      assert IsAt(pre + p, p, |pre|);
      pre + p
    case Ignored(p) =>
      var pre := "Access denied: '";
      assert IsAt(pre + p + "' is excluded by .mcpignore rules.", p, |pre|);
      pre + p + "' is excluded by .mcpignore rules."
    case Outside(p) =>
      var pre := "Access denied: Path '";
      assert IsAt(pre + p + "' is not within any shared folder.", p, |pre|);
      pre + p + "' is not within any shared folder."
    case ReadOnlyFolder(p, f) =>
      var pre := "Write access denied: '";
      var post := "' is in a read-only shared folder. The folder '" + f
        + "' must be set to Read/Write mode in OmniDrive.";
      assert IsAt(pre + p + post, p, |pre|);
      pre + p + post
    case NotFound(p) =>
      var pre := "Path not found: '";
      var post := "'. Cannot perform destructive operation on a non-existent path.";
      assert IsAt(pre + p + post, p, |pre|);
      pre + p + post
  }

  // ---------------------------------------------------------------- absolutising

  /** A relative path is joined onto the working directory; if that cannot be read the
      path is used as given. */
  function Absolutise(path: string, cwd: Option<string>): (r: string)
    ensures IsAbsolute(path) ==> r == path
    ensures !IsAbsolute(path) && cwd.Some? ==> r == JoinPath(cwd.value, path)
    ensures cwd.None? ==> r == path
  {
    if IsAbsolute(path) then path
    else if cwd.Some? then JoinPath(cwd.value, path)
    else path
  }

  // ---------------------------------------------------------------- folder boundary

  /** The boundary test on strings: `root` is a prefix of `target` and what follows is
      empty or starts with a separator. `backslash` says whether '\\' counts as one; the
      server as written passes true. */
  predicate Covers(root: string, target: string, backslash: bool) {
    root <= target
    && var rest := target[|root|..];
       rest == [] || rest[0] == '/' || (backslash && rest[0] == '\\')
  }

  /** The folder takes part and its canonical path covers the target. */
  predicate Qualifies(f: SharedFolder, target: string, host: Host, backslash: bool) {
    f.enabled && f.path in host.canonical && Covers(host.canonical[f.path], target, backslash)
  }

  /** The least index of a qualifying folder, if any. */
  function FirstQualifying(fs: seq<SharedFolder>, target: string, host: Host, backslash: bool): (r: Option<nat>)
    ensures r.Some? ==> r.value < |fs| && Qualifies(fs[r.value], target, host, backslash)
    ensures r.Some? ==> forall j :: 0 <= j < r.value ==> !Qualifies(fs[j], target, host, backslash)
    ensures r.None? <==> forall j :: 0 <= j < |fs| ==> !Qualifies(fs[j], target, host, backslash)
  {
    if fs == [] then None
    else if Qualifies(fs[0], target, host, backslash) then Some(0)
    else match FirstQualifying(fs[1..], target, host, backslash)
      case None =>
        assert forall j :: 1 <= j < |fs| ==> fs[j] == fs[1..][j - 1];
        None
      case Some(k) =>
        assert forall j :: 1 <= j < k + 1 ==> fs[j] == fs[1..][j - 1];
        Some(k + 1)
  }

  // ---------------------------------------------------------------- ignore rules

  /** One line of `.mcpignore` as a glob: trimmed; blank and '#' lines give nothing; a
      pattern without '/' is anchored anywhere in the tree by a leading "**" segment. */
  function IgnorePattern(line: string): (r: Option<string>)
    ensures r.None? <==> Trim(line) == [] || Trim(line)[0] == '#'
    ensures r.Some? && '/' in Trim(line) ==> r.value == Trim(line)
    ensures r.Some? && '/' !in Trim(line) ==> r.value == "**/" + Trim(line)
  {
    var p := Trim(line);
    if p == [] || p[0] == '#' then None
    else if IndexOf(p, '/').Some? then Some(p)
    else Some("**/" + p)
  }

  /** The pattern matches the relative path itself, or, with a trailing "**" segment
      added, something the path lies below. A pattern that does not compile matches nothing. */
  predicate PatternHits(g: Glob, pattern: string, relative: string) {
    g.compiles(pattern)
    && (g.matches(pattern, relative)
        || (g.compiles(pattern + "/**") && g.matches(pattern + "/**", relative)))
  }

  predicate LineHits(g: Glob, line: string, relative: string) {
    IgnorePattern(line).Some? && PatternHits(g, IgnorePattern(line).value, relative)
  }

  /** `LineHits` for one relative path, as a test on lines. */
  function HitsOf(g: Glob, relative: string): string -> bool {
    line => LineHits(g, line, relative)
  }

  /** The loop over the ignore file's lines from line `i` on, returning at the first line
      that `hits` (for `is_ignored`, `LineHits` on the relative path). */
  function FirstHitLine(hits: string -> bool, lines: seq<string>, i: nat): (r: Option<nat>)
    requires i <= |lines|
    ensures r.Some? ==> i <= r.value < |lines| && hits(lines[r.value])
    ensures r.Some? ==> forall j :: i <= j < r.value ==> !hits(lines[j])
    ensures r.None? ==> forall j :: i <= j < |lines| ==> !hits(lines[j])
    decreases |lines| - i
  {
    if i == |lines| then None
    else if hits(lines[i]) then Some(i)
    else FirstHitLine(hits, lines, i + 1)
  }

  /** `is_ignored`: no readable ignore file in the root, or a target the root is not a
      component prefix of, means not ignored; otherwise some line must hit the relative
      path. */
  predicate IsIgnored(host: Host, target: string, root: string) {
    var file := JoinPath(root, ".mcpignore");
    file in host.files
    && StripPrefix(target, root).Some?
    && FirstHitLine(HitsOf(host.glob, StripPrefix(target, root).value), Lines(host.files[file]), 0).Some?
  }

  /** Ignored exactly when some pattern line of the root's ignore file hits the path
      relative to the root. */
  lemma IgnoredIffSomeLineHits(host: Host, target: string, root: string)
    ensures IsIgnored(host, target, root) <==>
      var file := JoinPath(root, ".mcpignore");
      && file in host.files
      && StartsWithPath(target, root)
      && exists k :: 0 <= k < |Lines(host.files[file])|
           && LineHits(host.glob, Lines(host.files[file])[k], StripPrefix(target, root).value)
  {
    var file := JoinPath(root, ".mcpignore");
    if file in host.files && StripPrefix(target, root).Some? {
      var lines, rel := Lines(host.files[file]), StripPrefix(target, root).value;
      var hit := FirstHitLine(HitsOf(host.glob, rel), lines, 0);
      if hit.Some? {
        assert HitsOf(host.glob, rel)(lines[hit.value]);
        assert LineHits(host.glob, lines[hit.value], rel);
        assert IsIgnored(host, target, root);
      } else {
        forall k | 0 <= k < |lines| ensures !LineHits(host.glob, lines[k], rel) {
          assert !HitsOf(host.glob, rel)(lines[k]);
        }
      }
    }
  }

  // ---------------------------------------------------------------- validation

  /** The loop over the configured folders: the first qualifying folder decides, by its
      ignore rules, and later folders are never tried. */
  function SearchFolders(fs: seq<SharedFolder>, target: string, path: string, host: Host, backslash: bool): (r: Result<Validated, SandboxError>)
  {
    if fs == [] then Err(Outside(path))
    else if Qualifies(fs[0], target, host, backslash) then
      if IsIgnored(host, target, host.canonical[fs[0].path]) then Err(Ignored(path))
      else Ok(Validated(fs[0], target))
    else SearchFolders(fs[1..], target, path, host, backslash)
  }

  function ValidateWith(path: string, config: AppConfig, host: Host, backslash: bool): Result<Validated, SandboxError> {
    var target := Absolutise(path, host.cwd);
    if Contains(target, "..") then Err(Traversal(path))
    else SearchFolders(config.folders, target, path, host, backslash)
  }

  /** `validate_path` exactly as the server has it: after the folder prefix, '/' or '\\'
      ends the folder's name. */
  function ValidatePathAsWritten(path: string, config: AppConfig, host: Host): Result<Validated, SandboxError> {
    ValidateWith(path, config, host, true)
  }

  /** `validate_path` with '/' as the only separator after the folder prefix, as on a Unix
      file system; the writable and destructive checks and the tools build on this one. */
  function ValidatePath(path: string, config: AppConfig, host: Host): Result<Validated, SandboxError> {
    ValidateWith(path, config, host, false)
  }

  /** The search yields exactly what the first qualifying folder says. */
  lemma {:induction false} SearchIsFirstQualifying(fs: seq<SharedFolder>, target: string, path: string, host: Host, backslash: bool)
    ensures var r := SearchFolders(fs, target, path, host, backslash);
      match FirstQualifying(fs, target, host, backslash)
      case None => r == Err(Outside(path))
      case Some(k) =>
        if IsIgnored(host, target, host.canonical[fs[k].path]) then r == Err(Ignored(path))
        else r == Ok(Validated(fs[k], target))
  {
    if fs != [] && !Qualifies(fs[0], target, host, backslash) {
      SearchIsFirstQualifying(fs[1..], target, path, host, backslash);
    }
  }

  /** The whole decision of `validate_path`: ".." anywhere in the absolutised string
      refuses before any folder is looked at; otherwise the first enabled folder whose
      canonical path covers the target decides, refusing ignored paths and granting the
      rest with the absolutised path; with no such folder the path is outside. */
  lemma ValidatePathDecision(path: string, config: AppConfig, host: Host, backslash: bool)
    ensures var target := Absolutise(path, host.cwd);
      var r := ValidateWith(path, config, host, backslash);
      if Contains(target, "..") then r == Err(Traversal(path))
      else match FirstQualifying(config.folders, target, host, backslash)
        case None => r == Err(Outside(path))
        case Some(k) =>
          if IsIgnored(host, target, host.canonical[config.folders[k].path]) then r == Err(Ignored(path))
          else r == Ok(Validated(config.folders[k], target))
  {
    SearchIsFirstQualifying(config.folders, Absolutise(path, host.cwd), path, host, backslash);
  }

  /** A granted path came through an enabled folder of the configuration that covers it,
      is not ignored there, and is returned absolutised. */
  lemma Granted(path: string, config: AppConfig, host: Host, backslash: bool)
    requires ValidateWith(path, config, host, backslash).Ok?
    ensures var v := ValidateWith(path, config, host, backslash).value;
      var target := Absolutise(path, host.cwd);
      && v.canonicalPath == target
      && !Contains(target, "..")
      && v.folder in config.folders
      && v.folder.enabled
      && v.folder.path in host.canonical
      && Covers(host.canonical[v.folder.path], target, backslash)
      && !IsIgnored(host, target, host.canonical[v.folder.path])
  {
    ValidatePathDecision(path, config, host, backslash);
  }

  /** ".." inside a name ("a..b.txt") is refused just like a parent step. */
  lemma DotsInNameRefused(config: AppConfig, host: Host)
    ensures ValidatePath("/x/a..b.txt", config, host) == Err(Traversal("/x/a..b.txt"))
  {
    assert IsAt("/x/a..b.txt", "..", 4);
  }

  /** A folder's name followed by more characters is a different folder:
      "/x/Projects 2/f" is not inside "/x/Projects". */
  lemma SiblingWithCommonPrefix(backslash: bool)
    ensures !Covers("/x/Projects", "/x/Projects 2/f", backslash)
    ensures Covers("/x/Projects", "/x/Projects/f", backslash)
  {
    assert "/x/Projects 2/f"[11..] == " 2/f";
    assert "/x/Projects" <= "/x/Projects 2/f";
  }

  /** The `available` flag is never consulted: two configurations that differ only there
      give the same decision. */
  function WithoutAvailable(f: SharedFolder): SharedFolder {
    f.(available := true)
  }

  lemma {:induction false} AvailableNotConsulted(fs: seq<SharedFolder>, gs: seq<SharedFolder>, target: string, path: string, host: Host, backslash: bool)
    requires |fs| == |gs|
    requires forall k :: 0 <= k < |fs| ==> WithoutAvailable(fs[k]) == WithoutAvailable(gs[k])
    ensures var r, s := SearchFolders(fs, target, path, host, backslash), SearchFolders(gs, target, path, host, backslash);
      && r.Ok? == s.Ok?
      && (r.Err? ==> r == s)
      && (r.Ok? ==> r.value.canonicalPath == s.value.canonicalPath
                    && WithoutAvailable(r.value.folder) == WithoutAvailable(s.value.folder))
  {
    if fs != [] {
      assert WithoutAvailable(fs[0]) == WithoutAvailable(gs[0]);
      assert fs[0].path == gs[0].path && fs[0].enabled == gs[0].enabled;
      assert forall k :: 0 <= k < |fs[1..]| ==> fs[1..][k] == fs[k + 1] && gs[1..][k] == gs[k + 1];
      AvailableNotConsulted(fs[1..], gs[1..], target, path, host, backslash);
    }
  }

  /** `validate_writable`: granted and in a read-write folder, else the read-only refusal
      naming the folder as configured. */
  function ValidateWritable(path: string, config: AppConfig, host: Host): (r: Result<Validated, SandboxError>)
    ensures ValidatePath(path, config, host).Err? ==> r == ValidatePath(path, config, host)
    ensures r.Ok? <==> ValidatePath(path, config, host).Ok? && ValidatePath(path, config, host).value.folder.permission == ReadWrite
    ensures r.Ok? ==> r == ValidatePath(path, config, host)
    ensures ValidatePath(path, config, host).Ok? && !r.Ok? ==>
      r == Err(ReadOnlyFolder(path, ValidatePath(path, config, host).value.folder.path))
  {
    var v :- ValidatePath(path, config, host);
    if v.folder.permission != ReadWrite then Err(ReadOnlyFolder(path, v.folder.path))
    else Ok(v)
  }

  /** `validate_destructive`: writable and the path exists. */
  function ValidateDestructive(path: string, config: AppConfig, host: Host): (r: Result<Validated, SandboxError>)
    ensures ValidateWritable(path, config, host).Err? ==> r == ValidateWritable(path, config, host)
    ensures r.Ok? <==> ValidateWritable(path, config, host).Ok? && ValidateWritable(path, config, host).value.canonicalPath in host.existing
    ensures r.Ok? ==> r == ValidateWritable(path, config, host)
    ensures ValidateWritable(path, config, host).Ok? && !r.Ok? ==> r == Err(NotFound(path))
  {
    var v :- ValidateWritable(path, config, host);
    if v.canonicalPath !in host.existing then Err(NotFound(path))
    else Ok(v)
  }

  // ---------------------------------------------------------------- the backslash boundary

  /** With '/' as the only separator, a granted path really lies inside its folder,
      component by component. */
  lemma UnixGrantedIsInside(path: string, config: AppConfig, host: Host)
    requires ValidatePath(path, config, host).Ok?
    ensures var v := ValidatePath(path, config, host).value;
      v.folder.path in host.canonical && StartsWithPath(v.canonicalPath, host.canonical[v.folder.path])
  {
    Granted(path, config, host, false);
    var v := ValidatePath(path, config, host).value;
    var root, t := host.canonical[v.folder.path], v.canonicalPath;
    if t != root {
      assert t == root + "/" + t[|root| + 1..];
      ComponentsExtend(root, t[|root| + 1..]);
    }
  }

  /** The two boundaries decide alike for every target without '\\': the corrected gate,
      which the writable and destructive checks and the tools build on, differs from
      `validate_path` as written only where a '\\' follows a folder's canonical path. */
  lemma AsWrittenAgrees(path: string, config: AppConfig, host: Host)
    requires '\\' !in Absolutise(path, host.cwd)
    ensures ValidatePathAsWritten(path, config, host) == ValidatePath(path, config, host)
  {
    SearchAgrees(config.folders, Absolutise(path, host.cwd), path, host);
  }

  lemma {:induction false} SearchAgrees(fs: seq<SharedFolder>, target: string, path: string, host: Host)
    requires '\\' !in target
    ensures SearchFolders(fs, target, path, host, true) == SearchFolders(fs, target, path, host, false)
  {
    if fs != [] {
      if fs[0].path in host.canonical {
        var root := host.canonical[fs[0].path];
        if root <= target && |root| < |target| {
          assert target[|root|..][0] == target[|root|];
        }
      }
      SearchAgrees(fs[1..], target, path, host);
    }
  }

  const OneFolder: AppConfig := AppConfig([SharedFolder("/x/P", ReadWrite, true, true)], 50)

  /** As written, "/x/P\\s" is granted through the shared folder "/x/P" (on a host where
      that folder is its own canonical path and has no ignore file), while the '/'-only
      boundary refuses it. */
  lemma BackslashGranted(path: string, host: Host)
    requires path == "/x/P\\s"
    requires host.cwd == None && host.canonical == map["/x/P" := "/x/P"] && host.files == map[]
    ensures ValidatePathAsWritten(path, OneFolder, host).Ok?
    ensures ValidatePath(path, OneFolder, host) == Err(Outside(path))
  {
    NoDotNoDots(path);
    assert "/x/P" <= path && path[4..] == "\\s";
    ValidatePathDecision(path, OneFolder, host, true);
    ValidatePathDecision(path, OneFolder, host, false);
  }

  /** ... yet on a Unix file system "/x/P\\s" names the sibling file "P\\s" of "/x",
      which is not inside "/x/P". */
  lemma BackslashIsOutside(path: string, root: string)
    requires path == "/x/P\\s" && root == "/x/P"
    ensures !StartsWithPath(path, root)
  {
    ComponentsTwo(root, "x", "P");
    ComponentsTwo(path, "x", "P\\s");
    assert Components(root)[2] != Components(path)[2] by {
      assert |"P"| != |"P\\s"|;
    }
  }

  /** "/a/b" has the components "/", "a" and "b". */
  lemma ComponentsTwo(p: string, a: string, b: string)
    requires p == "/" + a + "/" + b
    requires '/' !in a && '/' !in b && a !in {"", "."} && b !in {"", "."}
    ensures Components(p) == ["/", a, b]
  {
    SplitThree(p, a, b);
    NamedTwo(a, b);
    assert IsAbsolute(p);
  }

  lemma SplitThree(p: string, a: string, b: string)
    requires p == "/" + a + "/" + b
    requires '/' !in a && '/' !in b
    ensures Split(p, '/') == ["", a, b]
  {
    SplitAround("", a + "/" + b, '/');
    assert p == "" + "/" + (a + "/" + b);
    SplitAround(a, b, '/');
    SplitLast("");
    SplitLast(a);
    SplitLast(b);
  }

  lemma NamedTwo(a: string, b: string)
    requires a !in {"", "."} && b !in {"", "."}
    ensures Named(["", a, b]) == [a, b]
  {
    assert ["", a, b][1..] == [a, b] && [a, b][1..] == [b] && [b][1..] == [];
    assert Named([b]) == [b] + Named([]);
    assert Named([a, b]) == [a] + Named([b]);
  }

  lemma SplitLast(s: string)
    requires '/' !in s
    ensures Split(s, '/') == [s]
  {
  }

  lemma NoDotNoDots(s: string)
    requires '.' !in s
    ensures !Contains(s, "..")
  {
    forall j | 0 <= j <= |s| ensures !IsAt(s, "..", j) {
      if j + 2 <= |s| {
        assert s[j..j + 2][0] == s[j] != '.';
      }
    }
  }

  // ---------------------------------------------------------------- classifiers

  /** The supported extensions, in the source's own groups. */
  const CodeGroup: seq<string> := [
    "rs", "py", "js", "ts", "tsx", "jsx", "go", "java", "c", "cpp", "h", "hpp",
    "rb", "php", "swift", "kt", "sh", "bat", "ps1", "r", "scala", "lua",
    "dart", "zig", "nim", "ex", "exs", "clj", "hs", "ml", "fs", "cs"]

  const TextGroup: seq<string> := ["txt", "md", "csv", "log", "env", "gitignore", "dockerignore"]

  const DataGroup: seq<string> := [
    "json", "yaml", "yml", "toml", "xml", "html", "htm", "css", "scss",
    "less", "sql", "graphql", "proto", "ini", "cfg", "conf"]

  const DocumentGroup: seq<string> := ["pdf"]

  const ImageGroup: seq<string> := ["png", "jpg", "jpeg", "gif", "webp", "svg", "bmp", "ico"]

  const SupportedExtensions: seq<string> := CodeGroup + TextGroup + DataGroup + DocumentGroup + ImageGroup

  const ExtensionlessSupported: seq<string> := [
    "Makefile", "Dockerfile", "Jenkinsfile", "Vagrantfile",
    "Gemfile", "Rakefile", "Procfile", "LICENSE", "README",
    "CHANGELOG", "CONTRIBUTING", "AUTHORS"]

  const BinaryExtensions: seq<string> := ["png", "jpg", "jpeg", "gif", "webp", "bmp", "ico", "pdf"]

  const ImageExtensions: seq<string> := ["png", "jpg", "jpeg", "gif", "webp", "bmp", "svg", "ico"]

  /** `is_supported_extension`: the lowercased extension decides when there is one;
      otherwise the exact base name (or "" when there is none) must be listed. */
  predicate IsSupportedExtension(filename: string) {
    match Extension(filename)
    case Some(ext) => Lower(ext) in SupportedExtensions
    case None =>
      (if FileName(filename).Some? then FileName(filename).value else "") in ExtensionlessSupported
  }

  predicate IsBinaryFile(filename: string) {
    Extension(filename).Some? && Lower(Extension(filename).value) in BinaryExtensions
  }

  predicate IsPdf(filename: string) {
    Extension(filename).Some? && Lower(Extension(filename).value) == "pdf"
  }

  predicate IsImage(filename: string) {
    Extension(filename).Some? && Lower(Extension(filename).value) in ImageExtensions
  }

  /** A PDF is binary, a binary file is supported, and so is an image. */
  lemma ClassifierChain(filename: string)
    ensures IsPdf(filename) ==> IsBinaryFile(filename)
    ensures IsBinaryFile(filename) ==> IsSupportedExtension(filename)
    ensures IsImage(filename) ==> IsSupportedExtension(filename)
    ensures IsBinaryFile(filename) && !IsPdf(filename) ==> IsImage(filename)
  {
    assert BinaryExtensions[7] == "pdf";
    assert forall e :: e in BinaryExtensions ==> e in SupportedExtensions;
    assert forall e :: e in ImageExtensions ==> e in SupportedExtensions;
  }

  /** The extension of a plain file name "stem.ext" is "ext". */
  lemma {:induction false} ExtensionOfName(stem: string, ext: string)
    requires stem != [] && '/' !in stem && '.' !in stem
    requires '/' !in ext && '.' !in ext
    ensures Extension(stem + "." + ext) == Some(ext)
  {
    var n := stem + "." + ext;
    assert n[0] == stem[0] != '.';
    assert forall k :: 0 <= k < |n| ==> n[k] == '.' || n[k] in stem || n[k] in ext;
    PlainName(n);
    assert n[|stem|] == '.' && n[|stem| + 1..] == ext;
    assert LastIndexOf(n, '.') == Some(|stem|);
  }

  /** A name without '/' other than "." and ".." is its own file name. */
  lemma PlainName(n: string)
    requires n != [] && '/' !in n && n != "." && n != ".."
    ensures Components(n) == [n]
    ensures FileName(n) == Some(n)
  {
    assert Split(n, '/') == [n];
    assert Named([n]) == [n];
  }

  lemma ExtensionlessName(n: string)
    requires n != [] && '/' !in n && '.' !in n
    ensures Extension(n) == None && FileName(n) == Some(n)
  {
    PlainName(n);
  }

  /** Lowercase letters and digits are left alone by lowercasing. */
  lemma LowerPlain(e: string)
    requires forall k :: 0 <= k < |e| ==> 'a' <= e[k] <= 'z' || '0' <= e[k] <= '9'
    ensures Lower(e) == e
  {
  }

  /** With an extension, the lowercased extension alone decides. */
  lemma ByExtension(filename: string, ext: string)
    requires Extension(filename) == Some(ext)
    ensures IsSupportedExtension(filename) <==> Lower(ext) in SupportedExtensions
    ensures IsBinaryFile(filename) <==> Lower(ext) in BinaryExtensions
  {
  }

  /** Without one, the base name alone decides. */
  lemma ByName(filename: string, name: string)
    requires Extension(filename) == None && FileName(filename) == Some(name)
    ensures IsSupportedExtension(filename) <==> name in ExtensionlessSupported
    ensures !IsBinaryFile(filename)
  {
  }

  /** `name.ext` with a plain lowercase extension is classified by that extension. */
  lemma PlainCase(name: string, stem: string, ext: string)
    requires name == stem + "." + ext
    requires stem != [] && '/' !in stem && '.' !in stem
    requires forall k :: 0 <= k < |ext| ==> 'a' <= ext[k] <= 'z' || '0' <= ext[k] <= '9'
    ensures IsSupportedExtension(name) <==> ext in SupportedExtensions
    ensures IsBinaryFile(name) <==> ext in BinaryExtensions
  {
    ExtensionOfName(stem, ext);
    LowerPlain(ext);
    ByExtension(name, ext);
  }

  /** The cases the server's own unit tests pin down. */
  lemma SupportedExamples(name: string)
    requires name == "test.rs" || name == "test.py" || name == "test.json" || name == "test.pdf" || name == "test.png"
    ensures IsSupportedExtension(name)
  {
    var ext := name[5..];
    assert name == "test" + "." + ext;
    PlainCase(name, "test", ext);
    Listed(ext);
  }

  lemma Listed(ext: string)
    requires ext == "rs" || ext == "py" || ext == "json" || ext == "pdf" || ext == "png"
    ensures ext in SupportedExtensions
  {
    assert SupportedExtensions[0] == "rs" && SupportedExtensions[1] == "py";
    assert SupportedExtensions[39] == "json" && SupportedExtensions[55] == "pdf" && SupportedExtensions[56] == "png";
  }

  lemma UnsupportedExamples(name: string)
    requires name == "test.exe" || name == "test.zip" || name == "test.pptx" || name == "test.mp4"
    ensures !IsSupportedExtension(name)
  {
    if name == "test.exe" { PlainCase(name, "test", "exe"); }
    else if name == "test.zip" { PlainCase(name, "test", "zip"); }
    else if name == "test.pptx" { PlainCase(name, "test", "pptx"); }
    else { PlainCase(name, "test", "mp4"); }
    NotListed(name[5..]);
  }

  lemma NotListed(e: string)
    requires e == "exe" || e == "zip" || e == "pptx" || e == "mp4"
    ensures e !in SupportedExtensions
  {
    NotInCodeGroup(e);
    assert e !in TextGroup + DataGroup + DocumentGroup + ImageGroup;
  }

  lemma NotInCodeGroup(e: string)
    requires e == "exe" || e == "zip" || e == "pptx" || e == "mp4"
    ensures e !in CodeGroup
  {
  }

  lemma BinaryExamples(name: string)
    requires name == "test.png" || name == "test.pdf" || name == "test.rs" || name == "test.md"
    ensures IsBinaryFile(name) <==> name == "test.png" || name == "test.pdf"
  {
    var ext := name[5..];
    assert name == "test" + "." + ext;
    assert ext == "png" || ext == "pdf" || ext == "rs" || ext == "md";
    ExamplePlain(ext);
    PlainCase(name, "test", ext);
    BinaryExampleExtensions(ext);
  }

  lemma ExamplePlain(ext: string)
    requires ext == "png" || ext == "pdf" || ext == "rs" || ext == "md"
    ensures forall k :: 0 <= k < |ext| ==> 'a' <= ext[k] <= 'z' || '0' <= ext[k] <= '9'
  {
  }

  lemma BinaryExampleExtensions(ext: string)
    requires ext == "png" || ext == "pdf" || ext == "rs" || ext == "md"
    ensures ext in BinaryExtensions <==> ext == "png" || ext == "pdf"
  {
    assert BinaryExtensions[0] == "png" && BinaryExtensions[7] == "pdf";
  }

  /** Extension-less names are compared exactly against the fixed list. */
  lemma ExtensionlessExamples(name: string)
    requires name == "Makefile" || name == "Dockerfile" || name == "randomname" || name == "makefile"
    ensures IsSupportedExtension(name) <==> name == "Makefile" || name == "Dockerfile"
  {
    ExtensionlessName(name);
    ByName(name, name);
  }

  // ---------------------------------------------------------------- against the app's filter

  /** Each of the sandbox's groups is one of the application's tables, or that table less
      one entry. */
  lemma GroupsInFilterTables()
    ensures CodeGroup == FileFilter.CodeExtensions
    ensures TextGroup == FileFilter.TextExtensions[..7]
    ensures DataGroup == FileFilter.DataExtensions[..9] + FileFilter.DataExtensions[10..]
    ensures DocumentGroup == FileFilter.DocumentExtensions
    ensures ImageGroup == FileFilter.ImageExtensions
    ensures ExtensionlessSupported == FileFilter.ExtensionlessSupported
  {
  }

  /** Whatever the sandbox lets an agent read, the application's filter also counts as
      supported. */
  lemma SandboxWithinFilter(filename: string)
    ensures IsSupportedExtension(filename) ==> FileFilter.IsFileSupported(filename)
  {
    GroupsInFilterTables();
    match Extension(filename)
    case None =>
    case Some(ext) =>
      var e := Lower(ext);
      assert '.' !in e by {
        forall k | 0 <= k < |e| ensures e[k] != '.' {
          assert ext[k] != '.';
        }
      }
      assert FileFilter.TrimLeadingDots(e) == e;
      FileFilter.SupportedIffInTable(ext);
      if e in SupportedExtensions {
        assert e in FileFilter.DataExtensions[..9] + FileFilter.DataExtensions[10..] ==> e in FileFilter.DataExtensions;
        assert e in FileFilter.TextExtensions[..7] ==> e in FileFilter.TextExtensions;
      }
  }

  /** The converse fails: the application lists "editorconfig" and "sass", the sandbox
      does not. */
  lemma FilterWiderThanSandbox(name: string)
    requires name == "a.editorconfig" || name == "a.sass"
    ensures FileFilter.IsFileSupported(name) && !IsSupportedExtension(name)
  {
    var ext := if name == "a.sass" then "sass" else "editorconfig";
    assert name == "a" + "." + ext;
    PlainCase(name, "a", ext);
    NotInSandbox(ext);
    ExtensionOfName("a", ext);
    FileFilter.FileByExtension(name, ext);
    InFilterTables(ext);
  }

  lemma InFilterTables(e: string)
    requires e == "editorconfig" || e == "sass"
    ensures FileFilter.InAnyTable(FileFilter.NormalizeExtension(e))
  {
    FileFilter.NormalizePlain(e);
    assert e == FileFilter.TextExtensions[7] || e == FileFilter.DataExtensions[9];
  }

  lemma NotInSandbox(e: string)
    requires e == "editorconfig" || e == "sass"
    ensures e !in SupportedExtensions
  {
    NotCodeLike(e);
    assert e !in TextGroup + DataGroup + DocumentGroup + ImageGroup;
  }

  lemma NotCodeLike(e: string)
    requires e == "editorconfig" || e == "sass"
    ensures e !in CodeGroup
  {
  }
}
