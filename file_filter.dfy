/** The application's file-type classification: five extension tables looked up in a fixed
    order after lowercasing and dropping leading dots. */
module FileFilter {
  import opened Wrappers
  import opened Text
  import opened Paths
  import opened AppTypes

  const CodeExtensions: seq<string> := [
    "rs", "py", "js", "ts", "tsx", "jsx", "go", "java", "c", "cpp", "h", "hpp",
    "rb", "php", "swift", "kt", "sh", "bat", "ps1", "r", "scala", "lua",
    "dart", "zig", "nim", "ex", "exs", "clj", "hs", "ml", "fs", "cs"]

  const TextExtensions: seq<string> := [
    "txt", "md", "csv", "log", "env", "gitignore", "dockerignore", "editorconfig"]

  const DataExtensions: seq<string> := [
    "json", "yaml", "yml", "toml", "xml", "html", "htm", "css", "scss", "sass",
    "less", "sql", "graphql", "proto", "ini", "cfg", "conf"]

  const DocumentExtensions: seq<string> := ["pdf"]

  const ImageExtensions: seq<string> := [
    "png", "jpg", "jpeg", "gif", "webp", "svg", "bmp", "ico"]

  const ExtensionlessSupported: seq<string> := [
    "Makefile", "Dockerfile", "Jenkinsfile", "Vagrantfile",
    "Gemfile", "Rakefile", "Procfile", "LICENSE", "README",
    "CHANGELOG", "CONTRIBUTING", "AUTHORS"]

  /** `trim_start_matches('.')`. */
  function TrimLeadingDots(s: string): (r: string)
    ensures r == [] || r[0] != '.'
  {
    if s != [] && s[0] == '.' then TrimLeadingDots(s[1..]) else s
  }

  /** The key actually looked up. */
  function NormalizeExtension(ext: string): string {
    TrimLeadingDots(Lower(ext))
  }

  function GetFileCategory(ext: string): FileCategory {
    var e := NormalizeExtension(ext);
    if e in CodeExtensions then Code
    else if e in TextExtensions then Text
    else if e in DataExtensions then Data
    else if e in DocumentExtensions then Document
    else if e in ImageExtensions then Image
    else Unsupported
  }

  predicate IsSupported(ext: string) {
    GetFileCategory(ext) != Unsupported
  }

  predicate InAnyTable(e: string) {
    e in CodeExtensions || e in TextExtensions || e in DataExtensions
    || e in DocumentExtensions || e in ImageExtensions
  }

  /** `is_file_supported`: the extension decides when there is one; otherwise the exact
      (case-sensitive) file name must be one of the known extension-less names. */
  predicate IsFileSupported(filename: string) {
    match Extension(filename)
    case Some(ext) => IsSupported(ext)
    case None => FileName(filename).Some? && FileName(filename).value in ExtensionlessSupported
  }

  /** A file name with an extension is judged by that extension alone. */
  lemma FileByExtension(filename: string, ext: string)
    requires Extension(filename) == Some(ext)
    ensures IsFileSupported(filename) <==> InAnyTable(NormalizeExtension(ext))
  {
    SupportedIffInTable(ext);
  }

  /** No extension sits in two tables, so "first hit decides" gives each table's own
      members its category. */
  lemma TablesDisjoint()
    ensures forall e :: e in CodeExtensions ==> OutsideLaterTables(e)
    ensures forall e :: e in TextExtensions ==> e !in DataExtensions && e !in DocumentExtensions && e !in ImageExtensions
    ensures forall e :: e in DataExtensions ==> e !in DocumentExtensions && e !in ImageExtensions
    ensures forall e :: e in DocumentExtensions ==> e !in ImageExtensions
  {
    forall e | e in CodeExtensions ensures OutsideLaterTables(e) {
      var i :| 0 <= i < |CodeExtensions| && CodeExtensions[i] == e;
      CodeApart(i);
    }
    LaterTablesApart();
  }

  predicate OutsideLaterTables(e: string) {
    e !in TextExtensions && e !in DataExtensions && e !in DocumentExtensions && e !in ImageExtensions
  }

  /** The code table one entry and one later table at a time keeps each proof small. */
  lemma CodeApart(i: nat)
    requires i < |CodeExtensions|
    ensures OutsideLaterTables(CodeExtensions[i])
  {
    CodeNotText(i);
    CodeNotData(i);
    CodeNotImage(i);
  }

  lemma CodeNotText(i: nat)
    requires i < |CodeExtensions|
    ensures CodeExtensions[i] !in TextExtensions && CodeExtensions[i] !in DocumentExtensions
  {
  }

  lemma CodeNotData(i: nat)
    requires i < |CodeExtensions|
    ensures CodeExtensions[i] !in DataExtensions
  {
  }

  lemma CodeNotImage(i: nat)
    requires i < |CodeExtensions|
    ensures CodeExtensions[i] !in ImageExtensions
  {
  }

  lemma LaterTablesApart()
    ensures forall e :: e in TextExtensions ==> e !in DataExtensions && e !in DocumentExtensions && e !in ImageExtensions
    ensures forall e :: e in DataExtensions ==> e !in DocumentExtensions && e !in ImageExtensions
    ensures forall e :: e in DocumentExtensions ==> e !in ImageExtensions
  {
    TextApart();
    DataApart();
  }

  lemma TextApart()
    ensures forall e :: e in TextExtensions ==> e !in DataExtensions && e !in DocumentExtensions && e !in ImageExtensions
  {
  }

  lemma DataApart()
    ensures forall e :: e in DataExtensions ==> e !in DocumentExtensions && e !in ImageExtensions
  {
  }

  /** The category is exactly the table that holds the normalised extension. */
  lemma CategoryIsTable(ext: string)
    ensures var e := NormalizeExtension(ext);
      && (GetFileCategory(ext) == Code <==> e in CodeExtensions)
      && (GetFileCategory(ext) == Text <==> e in TextExtensions)
      && (GetFileCategory(ext) == Data <==> e in DataExtensions)
      && (GetFileCategory(ext) == Document <==> e in DocumentExtensions)
      && (GetFileCategory(ext) == Image <==> e in ImageExtensions)
      && (GetFileCategory(ext) == Unsupported <==> !InAnyTable(e))
  {
    TablesDisjoint();
  }

  lemma SupportedIffInTable(ext: string)
    ensures IsSupported(ext) <==> InAnyTable(NormalizeExtension(ext))
  {
  }

  /** Case and leading dots do not matter: "RS", ".rs" and "..rs" are all code. */
  lemma {:induction false} CategoryIgnoresCaseAndDots(ext: string)
    ensures GetFileCategory(Lower(ext)) == GetFileCategory(ext)
    ensures GetFileCategory("." + ext) == GetFileCategory(ext)
  {
    LowerIdempotent(ext);
    var d := "." + ext;
    assert Lower(d) == "." + Lower(ext);
    assert TrimLeadingDots(Lower(d)) == TrimLeadingDots(Lower(d)[1..]);
    assert Lower(d)[1..] == Lower(ext);
  }

  /** An extension already in lowercase without a leading dot is looked up as it is. */
  lemma NormalizePlain(ext: string)
    requires forall k :: 0 <= k < |ext| ==> 'a' <= ext[k] <= 'z' || '0' <= ext[k] <= '9'
    ensures NormalizeExtension(ext) == ext
  {
    assert Lower(ext) == ext;
  }

  /** Case and leading dots are ignored: "rs", "RS", ".rs" and "..rs" are all code. */
  lemma RsExamples()
    ensures GetFileCategory("rs") == Code && GetFileCategory("RS") == Code
    ensures GetFileCategory(".rs") == Code && GetFileCategory("..rs") == Code
  {
    RsIsCode();
    RsUpper();
    RsDotted();
  }

  lemma RsUpper()
    requires GetFileCategory("rs") == Code
    ensures GetFileCategory("RS") == Code
  {
    CategoryIgnoresCaseAndDots("RS");
    assert Lower("RS") == "rs";
  }

  lemma RsDotted()
    requires GetFileCategory("rs") == Code
    ensures GetFileCategory(".rs") == Code && GetFileCategory("..rs") == Code
  {
    CategoryIgnoresCaseAndDots("rs");
    assert "." + "rs" == ".rs";
    CategoryIgnoresCaseAndDots(".rs");
    assert "." + ".rs" == "..rs";
  }

  /** One member of each of the other tables lands in that table's category. */
  lemma CategoryExamples(ext: string)
    requires ext in ["md", "json", "pdf", "png"]
    ensures ext == "md" ==> GetFileCategory(ext) == Text
    ensures ext == "json" ==> GetFileCategory(ext) == Data
    ensures ext == "pdf" ==> GetFileCategory(ext) == Document
    ensures ext == "png" ==> GetFileCategory(ext) == Image
  {
    if ext == "md" {
      NormalizePlain("md");
      CategoryIsTable("md");
      assert TextExtensions[1] == "md";
    } else if ext == "json" {
      NormalizePlain("json");
      CategoryIsTable("json");
      assert DataExtensions[0] == "json";
    } else if ext == "pdf" {
      NormalizePlain("pdf");
      CategoryIsTable("pdf");
    } else {
      NormalizePlain("png");
      CategoryIsTable("png");
      assert ImageExtensions[0] == "png";
    }
  }

  lemma RsIsCode()
    ensures GetFileCategory("rs") == Code
  {
    NormalizePlain("rs");
    assert CodeExtensions[0] == "rs";
  }

  /** Executables, libraries, archives, media and office formats are not supported. */
  lemma UnsupportedExamples(ext: string)
    requires ext in Foreign
    ensures !IsSupported(ext)
  {
    ForeignIsPlain(ext);
    NotInAnyTable(ext);
  }

  lemma ForeignIsPlain(ext: string)
    requires ext in Foreign
    ensures NormalizeExtension(ext) == ext
  {
    NormalizePlain(ext);
  }

  const Foreign: seq<string> := ["exe", "dll", "zip", "mp4", "pptx", "docx", "xlsx"]

  lemma NotInAnyTable(e: string)
    requires e in Foreign
    ensures !InAnyTable(e)
  {
    NotCode(e);
    NotTextOrData(e);
  }

  lemma NotCode(e: string)
    requires e in Foreign
    ensures e !in CodeExtensions
  {
  }

  lemma NotTextOrData(e: string)
    requires e in Foreign
    ensures e !in TextExtensions && e !in DataExtensions
  {
  }
}
