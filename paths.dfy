/** The parts of Rust's `std::path` (Unix flavour) that the modelled code uses:
    absolute test, `join`, component-wise `starts_with` / `strip_prefix`,
    `file_name` and `extension`. Paths are plain strings with '/' as separator. */
module Paths {
  import opened Wrappers
  import opened Text

  predicate IsAbsolute(p: string) {
    |p| > 0 && p[0] == '/'
  }

  /** `Path::join` / `PathBuf::push`: an absolute `rel` replaces `base`; otherwise a
      separator is inserted unless `base` is empty or already ends with one. */
  function JoinPath(base: string, rel: string): (r: string)
    ensures IsAbsolute(rel) ==> r == rel
    ensures !IsAbsolute(rel) ==> base <= r
  {
    if IsAbsolute(rel) then rel
    else if |base| == 0 || base[|base| - 1] == '/' then base + rel
    else base + "/" + rel
  }

  /** The non-empty pieces other than ".", in order. */
  function Named(pieces: seq<string>): (r: seq<string>)
    ensures forall k :: 0 <= k < |r| ==> r[k] != "" && r[k] != "."
    ensures |r| <= |pieces|
  {
    if pieces == [] then []
    else (if pieces[0] == "" || pieces[0] == "." then [] else [pieces[0]]) + Named(pieces[1..])
  }

  /** `Path::components`: "/" stands for the root; empty and "." pieces are dropped. */
  function Components(p: string): seq<string> {
    (if IsAbsolute(p) then ["/"] else []) + Named(Split(p, '/'))
  }

  /** `Path::starts_with`: whole components, not characters. */
  predicate StartsWithPath(p: string, base: string) {
    Components(base) <= Components(p)
  }

  /** `Path::strip_prefix`, rendered back to a string with '/' separators. */
  function StripPrefix(p: string, base: string): (r: Option<string>)
    ensures r.Some? <==> StartsWithPath(p, base)
  {
    var cb, cp := Components(base), Components(p);
    if cb <= cp then Some(Join(cp[|cb|..], "/")) else None
  }

  /** `Path::file_name`: the last component unless it is the root or "..". */
  function FileName(p: string): Option<string> {
    var c := Components(p);
    if c == [] || c[|c| - 1] == "/" || c[|c| - 1] == ".." then None
    else Some(c[|c| - 1])
  }

  /** `file_name()` as text, or "" when there is none. */
  function BaseName(p: string): string {
    match FileName(p)
    case Some(n) => n
    case None => ""
  }

  /** `Path::extension`: the text after the last '.' of the file name, unless that '.'
      is the first character of the name (".gitignore" has none) or there is none. */
  function Extension(p: string): (r: Option<string>)
    ensures r.Some? ==> FileName(p).Some? && '.' !in r.value
  {
    match FileName(p)
    case None => None
    case Some(name) =>
      match LastIndexOf(name, '.')
      case None => None
      case Some(i) => if i == 0 then None else Some(name[i + 1..])
  }

  // ---------------------------------------------------------------- component lemmas

  /** Splitting at a separator that was glued between two strings splits each side. */
  lemma {:induction false} SplitAround(a: string, b: string, c: char)
    ensures Split(a + [c] + b, c) == Split(a, c) + Split(b, c)
    decreases |a|
  {
    match IndexOf(a, c)
    case None =>
      GluedAt(a, b, c, |a|);
      assert a[..|a|] == a;
      SplitAt(a + [c] + b, c, |a|);
    case Some(i) =>
      SplitAround(a[i + 1..], b, c);
      SplitAroundStep(a, b, c, i);
  }

  /** Where `a` has its first `c` at `i`, so does `a + [c] + b`. */
  lemma SplitAroundStep(a: string, b: string, c: char, i: nat)
    requires i < |a| && a[i] == c && c !in a[..i]
    requires Split(a[i + 1..] + [c] + b, c) == Split(a[i + 1..], c) + Split(b, c)
    ensures Split(a + [c] + b, c) == Split(a, c) + Split(b, c)
  {
    GluedAt(a, b, c, i);
    SplitAt(a + [c] + b, c, i);
    SplitAt(a, c, i);
  }

  /** Position `i <= |a|` of `a + [c] + b`: what lies before it and after it. */
  lemma GluedAt(a: string, b: string, c: char, i: nat)
    requires i <= |a| && (i < |a| ==> a[i] == c)
    ensures var s := a + [c] + b;
      && i < |s| && s[i] == c && s[..i] == a[..i]
      && s[i + 1..] == if i == |a| then b else a[i + 1..] + [c] + b
  {
  }

  lemma {:induction false} NamedAppend(x: seq<string>, y: seq<string>)
    ensures Named(x + y) == Named(x) + Named(y)
  {
    if x == [] {
      assert x + y == y;
    } else {
      assert (x + y)[0] == x[0];
      assert (x + y)[1..] == x[1..] + y;
      NamedAppend(x[1..], y);
    }
  }

  /** Appending "/" and more never takes components away from the front. */
  lemma ComponentsExtend(a: string, b: string)
    ensures Components(a) <= Components(a + "/" + b)
  {
    SplitAround(a, b, '/');
    NamedAppend(Split(a, '/'), Split(b, '/'));
    if a == [] {
      assert Split(a, '/') == [""];
      assert Named([""]) == [];
    } else {
      assert IsAbsolute(a) == IsAbsolute(a + "/" + b);
    }
  }

  /** `base.join(rel)` starts with `base` whenever `rel` is relative. */
  lemma JoinStaysInside(base: string, rel: string)
    requires !IsAbsolute(rel)
    ensures StartsWithPath(JoinPath(base, rel), base)
  {
    if |base| == 0 {
      assert Split(base, '/') == [""];
      assert Named([""]) == [];
    } else if base[|base| - 1] == '/' {
      var a := base[..|base| - 1];
      assert base == a + "/" + "";
      assert JoinPath(base, rel) == a + "/" + rel;
      SplitAround(a, "", '/');
      assert Split("", '/') == [""];
      NamedAppend(Split(a, '/'), [""]);
      assert Named([""]) == [];
      if a == [] {
        assert Components(base) == ["/"];
        assert IsAbsolute(JoinPath(base, rel));
      } else {
        assert IsAbsolute(a) == IsAbsolute(base);
        assert Components(base) == Components(a);
        ComponentsExtend(a, rel);
      }
    } else {
      ComponentsExtend(base, rel);
    }
  }
}
