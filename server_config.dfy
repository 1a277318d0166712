/** The MCP server's own copy of the configuration types and its tolerant loader. */
module ServerConfig {
  import opened Wrappers
  import opened ConfigJson
  import AppTypes

  datatype Permission = ReadOnly | ReadWrite

  datatype SharedFolder = SharedFolder(
    path: string,
    permission: Permission,
    enabled: bool,
    available: bool)

  datatype AppConfig = AppConfig(folders: seq<SharedFolder>, maxFileSizeMb: nat)

  function DefaultConfig(): AppConfig {
    AppConfig([], 50)
  }

  function PermissionName(p: Permission): string {
    match p
    case ReadOnly => "readonly"
    case ReadWrite => "readwrite"
  }

  function ParsePermission(s: string): Option<Permission> {
    if s == "readonly" then Some(ReadOnly)
    else if s == "readwrite" then Some(ReadWrite)
    else None
  }

  function DecodeFolder(r: FolderRecord): Option<SharedFolder> {
    match ParsePermission(r.permission)
    case None => None
    case Some(p) => Some(SharedFolder(r.path, p, r.enabled, if r.available.Some? then r.available.value else true))
  }

  function DecodeFolders(rs: seq<FolderRecord>): Option<seq<SharedFolder>> {
    if rs == [] then Some([])
    else match (DecodeFolder(rs[0]), DecodeFolders(rs[1..]))
      case (Some(f), Some(rest)) => Some([f] + rest)
      case _ => None
  }

  function DecodeConfig(r: ConfigRecord): Option<AppConfig> {
    var max := if r.maxFileSizeMb.None? then 50 else r.maxFileSizeMb.value;
    match DecodeFolders(r.folders)
    case None => None
    case Some(fs) => if 0 <= max <= U32Max then Some(AppConfig(fs, max)) else None
  }

  /** What reading the config file produced: nothing, text serde rejects, or a document. */
  datatype ConfigFile = Missing | Unparseable | Parsed(record: ConfigRecord)

  /** `load_config`: any failure falls back to the default configuration; it never fails. */
  function LoadConfig(file: ConfigFile): (c: AppConfig)
    ensures file.Missing? || file.Unparseable? ==> c == DefaultConfig()
    ensures file.Parsed? && DecodeConfig(file.record).Some? ==> c == DecodeConfig(file.record).value
    ensures file.Parsed? && DecodeConfig(file.record).None? ==> c == DefaultConfig()
    ensures c.maxFileSizeMb <= U32Max
  {
    if file.Parsed? && DecodeConfig(file.record).Some? then DecodeConfig(file.record).value
    else DefaultConfig()
  }

  // ------------------------------------------------ agreement with the application's types

  function FromAppPermission(p: AppTypes.Permission): Permission {
    match p
    case ReadOnly => ReadOnly
    case ReadWrite => ReadWrite
  }

  function FromAppFolder(f: AppTypes.SharedFolder): SharedFolder {
    SharedFolder(f.path, FromAppPermission(f.permission), f.enabled, f.available)
  }

  function FromAppConfig(c: AppTypes.AppConfig): AppConfig {
    AppConfig(seq(|c.folders|, k requires 0 <= k < |c.folders| => FromAppFolder(c.folders[k])), c.maxFileSizeMb)
  }

  /** Both binaries read the same file the same way: same spellings, same defaults, same
      failures. */
  lemma {:induction false} SameDecoding(rs: seq<FolderRecord>)
    ensures DecodeFolders(rs).Some? <==> AppTypes.DecodeFolders(rs).Some?
    ensures DecodeFolders(rs).Some? ==> DecodeFolders(rs).value == FromAppConfig(AppTypes.AppConfig(AppTypes.DecodeFolders(rs).value, 0)).folders
  {
    if rs != [] {
      SameDecoding(rs[1..]);
    }
  }

  lemma SameConfig(r: ConfigRecord)
    ensures DecodeConfig(r).Some? <==> AppTypes.DecodeConfig(r).Some?
    ensures DecodeConfig(r).Some? ==> DecodeConfig(r).value == FromAppConfig(AppTypes.DecodeConfig(r).value)
    ensures DefaultConfig() == FromAppConfig(AppTypes.DefaultConfig())
  {
    SameDecoding(r.folders);
  }
}
