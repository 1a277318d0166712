/** The shape of `~/.omnidrive/config.json` as serde reads and writes it: field names and
    enum spellings are strings, fields with a serde default may be absent. */
module ConfigJson {
  import opened Wrappers

  datatype FolderRecord = FolderRecord(
    path: string,
    permission: string,
    enabled: bool,
    available: Option<bool>)

  datatype ConfigRecord = ConfigRecord(
    folders: seq<FolderRecord>,
    maxFileSizeMb: Option<int>)

  const U32Max: int := 0xFFFF_FFFF
}

/** The desktop application's configuration types. */
module AppTypes {
  import opened Wrappers
  import opened ConfigJson

  datatype Permission = ReadOnly | ReadWrite

  /** `impl Default for Permission`. */
  function DefaultPermission(): Permission { ReadOnly }

  /** serde's `rename_all = "lowercase"` spelling. */
  function PermissionName(p: Permission): string {
    match p
    case ReadOnly => "readonly"
    case ReadWrite => "readwrite"
  }

  function ParsePermission(s: string): Option<Permission> {
    if s == "readonly" then Some(ReadOnly)
    else if s == "readwrite" then Some(ReadWrite)
    else None
  }

  /** The two spellings are the only ones accepted, and each names its own variant. */
  lemma PermissionNames(p: Permission, s: string)
    ensures ParsePermission(PermissionName(p)) == Some(p)
    ensures ParsePermission(s).Some? <==> s == "readonly" || s == "readwrite"
    ensures PermissionName(ReadOnly) != PermissionName(ReadWrite)
    ensures DefaultPermission() == ReadOnly
  {
  }

  datatype SharedFolder = SharedFolder(
    path: string,
    permission: Permission,
    enabled: bool,
    available: bool)

  /** `max_file_size_mb` is a `u32`. */
  datatype AppConfig = AppConfig(folders: seq<SharedFolder>, maxFileSizeMb: nat)

  predicate ValidConfig(c: AppConfig) { c.maxFileSizeMb <= U32Max }

  function DefaultConfig(): AppConfig {
    AppConfig([], 50)
  }

  datatype FolderScanResult = FolderScanResult(
    totalFiles: nat,
    supportedFiles: nat,
    unsupportedFiles: nat,
    unsupportedList: seq<string>)

  datatype FileCategory = Code | Text | Data | Document | Image | Unsupported

  const AllCategories: seq<FileCategory> := [Code, Text, Data, Document, Image, Unsupported]

  function CategoryName(c: FileCategory): string {
    match c
    case Code => "code"
    case Text => "text"
    case Data => "data"
    case Document => "document"
    case Image => "image"
    case Unsupported => "unsupported"
  }

  /** The category enum has exactly six variants, with six distinct lowercase names. */
  lemma SixCategories(c: FileCategory)
    ensures c in AllCategories && |AllCategories| == 6
    ensures forall i, j :: 0 <= i < j < 6 ==> CategoryName(AllCategories[i]) != CategoryName(AllCategories[j])
  {
  }

  /** Deserialising one folder: the permission must be one of its two spellings and a
      missing `available` becomes true. */
  function DecodeFolder(r: FolderRecord): (f: Option<SharedFolder>)
    ensures f.Some? <==> ParsePermission(r.permission).Some?
    ensures f.Some? ==> f.value.path == r.path && f.value.enabled == r.enabled
    ensures f.Some? ==> f.value.available == (r.available.None? || r.available.value)
  {
    match ParsePermission(r.permission)
    case None => None
    case Some(p) => Some(SharedFolder(r.path, p, r.enabled, if r.available.Some? then r.available.value else true))
  }

  function DecodeFolders(rs: seq<FolderRecord>): (fs: Option<seq<SharedFolder>>)
    ensures fs.Some? <==> forall k :: 0 <= k < |rs| ==> DecodeFolder(rs[k]).Some?
    ensures fs.Some? ==> |fs.value| == |rs| && forall k :: 0 <= k < |rs| ==> Some(fs.value[k]) == DecodeFolder(rs[k])
  {
    if rs == [] then Some([])
    else match (DecodeFolder(rs[0]), DecodeFolders(rs[1..]))
      case (Some(f), Some(rest)) => Some([f] + rest)
      case _ => None
  }

  /** Deserialising the whole file: a missing `max_file_size_mb` becomes 50; a value outside
      the `u32` range or any bad folder fails the whole parse. */
  function DecodeConfig(r: ConfigRecord): (c: Option<AppConfig>)
    ensures c.Some? ==> ValidConfig(c.value)
    ensures c.Some? ==> c.value.maxFileSizeMb == (if r.maxFileSizeMb.None? then 50 else r.maxFileSizeMb.value)
    ensures c.Some? <==> DecodeFolders(r.folders).Some? && (r.maxFileSizeMb.None? || 0 <= r.maxFileSizeMb.value <= U32Max)
  {
    var max := if r.maxFileSizeMb.None? then 50 else r.maxFileSizeMb.value;
    match DecodeFolders(r.folders)
    case None => None
    case Some(fs) => if 0 <= max <= U32Max then Some(AppConfig(fs, max)) else None
  }

  function EncodeFolder(f: SharedFolder): FolderRecord {
    FolderRecord(f.path, PermissionName(f.permission), f.enabled, Some(f.available))
  }

  function EncodeConfig(c: AppConfig): ConfigRecord {
    ConfigRecord(seq(|c.folders|, k requires 0 <= k < |c.folders| => EncodeFolder(c.folders[k])), Some(c.maxFileSizeMb))
  }

  /** What the application writes, it reads back unchanged. */
  lemma {:induction false} ConfigRoundTrip(c: AppConfig)
    requires ValidConfig(c)
    ensures DecodeConfig(EncodeConfig(c)) == Some(c)
  {
    var rs := EncodeConfig(c).folders;
    forall k | 0 <= k < |rs| ensures DecodeFolder(rs[k]) == Some(c.folders[k]) {
      PermissionNames(c.folders[k].permission, "");
    }
    var fs := DecodeFolders(rs);
    assert fs.Some?;
    assert fs.value == c.folders;
  }

  /** A file that names no limit and whose folders all lack `available` decodes to the
      defaults: limit 50, every folder available. */
  lemma DecodeDefaults(r: ConfigRecord)
    requires r.maxFileSizeMb.None?
    requires forall k :: 0 <= k < |r.folders| ==> r.folders[k].available.None? && ParsePermission(r.folders[k].permission).Some?
    ensures DecodeConfig(r).Some?
    ensures DecodeConfig(r).value.maxFileSizeMb == 50 == DefaultConfig().maxFileSizeMb
    ensures forall k :: 0 <= k < |DecodeConfig(r).value.folders| ==> DecodeConfig(r).value.folders[k].available
  {
    var fs := DecodeFolders(r.folders);
    assert fs.Some?;
    forall k | 0 <= k < |fs.value| ensures fs.value[k].available {
      assert Some(fs.value[k]) == DecodeFolder(r.folders[k]);
    }
  }
}
