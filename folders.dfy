/** The desktop application's folder commands: the shared-folder list kept in the
    application state, changed by adding, removing and toggling folders, and the top-level
    scan that reports how many files of a folder the server can serve. */
module Folders {
  import opened Wrappers
  import opened Text
  import opened Paths
  import opened Disk
  import opened ConfigJson
  import opened AppTypes
  import FileFilter

  datatype FolderError =
    | AlreadyShared
    | PathMissing(path: string)
    | NotADirectory(path: string)
    | Overlaps(existing: string)
    | FolderNotFound
    | PersistFailed

  /** `Path::exists() && Path::is_dir()` on the path as given. */
  predicate IsDirectory(path: string, host: Host) {
    path in host.existing && path in host.dirs
  }

  /** `Path::is_file()`. */
  predicate IsRegularFile(path: string, host: Host) {
    path in host.existing && path !in host.dirs
  }

  // ---------------------------------------------------------------- scanning

  /** The top-level scan over the entries `read_dir` yields: every regular file counts,
      as supported or not by its file name, and the names of the first 50 unsupported
      files are listed. Sub-directories are not entered. */
  function Scan(entries: seq<string>, host: Host, supported: string -> bool): (r: FolderScanResult)
    ensures r.totalFiles == r.supportedFiles + r.unsupportedFiles
    ensures |r.unsupportedList| == Min(r.unsupportedFiles, 50)
  {
    if entries == [] then FolderScanResult(0, 0, 0, [])
    else
      var r := Scan(entries[..|entries| - 1], host, supported);
      var p := entries[|entries| - 1];
      var name := BaseName(p);
      if !IsRegularFile(p, host) then r
      else if supported(name) then r.(totalFiles := r.totalFiles + 1, supportedFiles := r.supportedFiles + 1)
      else
        r.(totalFiles := r.totalFiles + 1, unsupportedFiles := r.unsupportedFiles + 1,
           unsupportedList := if |r.unsupportedList| < 50 then r.unsupportedList + [name] else r.unsupportedList)
  }

  /** The names of all unsupported regular files, in directory order. */
  function UnsupportedNames(entries: seq<string>, host: Host, supported: string -> bool): seq<string> {
    if entries == [] then []
    else
      var p := entries[|entries| - 1];
      UnsupportedNames(entries[..|entries| - 1], host, supported)
        + (if IsRegularFile(p, host) && !supported(BaseName(p)) then [BaseName(p)] else [])
  }

  /** The unsupported count is the number of unsupported files, and the list is exactly the
      first 50 of their names. */
  lemma {:induction false} ScanListsFirstUnsupported(entries: seq<string>, host: Host, supported: string -> bool)
    ensures var r := Scan(entries, host, supported);
      var names := UnsupportedNames(entries, host, supported);
      r.unsupportedFiles == |names| && r.unsupportedList == names[..Min(|names|, 50)]
  {
    if entries != [] {
      var init := entries[..|entries| - 1];
      ScanListsFirstUnsupported(init, host, supported);
      var before := UnsupportedNames(init, host, supported);
      var p := entries[|entries| - 1];
      if IsRegularFile(p, host) && !supported(BaseName(p)) {
        var names := before + [BaseName(p)];
        assert UnsupportedNames(entries, host, supported) == names;
        if |before| < 50 {
          assert names[..|before| + 1] == before[..|before|] + [BaseName(p)];
        } else {
          assert names[..50] == before[..50];
        }
      } else {
        assert UnsupportedNames(entries, host, supported) == before + [];
        assert before + [] == before;
      }
    }
  }

  /** The names of the regular files among the entries whose name `keep` accepts, in
      directory order; directories and anything else that is not a regular file are
      skipped. */
  function RegularNames(entries: seq<string>, host: Host, keep: string -> bool): seq<string> {
    if entries == [] then []
    else
      var p := entries[|entries| - 1];
      RegularNames(entries[..|entries| - 1], host, keep)
        + (if IsRegularFile(p, host) && keep(BaseName(p)) then [BaseName(p)] else [])
  }

  function AnyName(name: string): bool { true }

  /** The total is the number of top-level regular files, and the supported count is the
      number of those whose name is supported. */
  lemma {:induction false} ScanCounts(entries: seq<string>, host: Host, supported: string -> bool)
    ensures var r := Scan(entries, host, supported);
      && r.totalFiles == |RegularNames(entries, host, AnyName)|
      && r.supportedFiles == |RegularNames(entries, host, supported)|
  {
    if entries != [] {
      ScanCounts(entries[..|entries| - 1], host, supported);
    }
  }

  /** `scan_folder`: a missing path or a non-directory is an error; a directory that
      cannot be read scans as empty. */
  function ScanOutcome(path: string, host: Host, listing: Option<seq<string>>): (r: Result<FolderScanResult, FolderError>)
    ensures r.Ok? <==> IsDirectory(path, host)
  {
    if path !in host.existing then Err(PathMissing(path))
    else if path !in host.dirs then Err(NotADirectory(path))
    else if listing.None? then Ok(FolderScanResult(0, 0, 0, []))
    else Ok(Scan(listing.value, host, FileFilter.IsFileSupported))
  }

  lemma ScanStep(entries: seq<string>, host: Host, supported: string -> bool, i: nat)
    requires i < |entries|
    ensures Scan(entries[..i + 1], host, supported)
      == var r := Scan(entries[..i], host, supported);
        var p := entries[i];
        var name := BaseName(p);
        if !IsRegularFile(p, host) then r
        else if supported(name) then r.(totalFiles := r.totalFiles + 1, supportedFiles := r.supportedFiles + 1)
        else
          r.(totalFiles := r.totalFiles + 1, unsupportedFiles := r.unsupportedFiles + 1,
             unsupportedList := if |r.unsupportedList| < 50 then r.unsupportedList + [name] else r.unsupportedList)
  {
    var prefix := entries[..i + 1];
    assert prefix[..|prefix| - 1] == entries[..i];
    assert prefix[|prefix| - 1] == entries[i];
  }

  method ScanFolder(path: string, host: Host, listing: Option<seq<string>>) returns (r: Result<FolderScanResult, FolderError>)
    ensures r == ScanOutcome(path, host, listing)
  {
    if path !in host.existing {
      return Err(PathMissing(path));
    }
    if path !in host.dirs {
      return Err(NotADirectory(path));
    }
    var total, supported, unsupported := 0, 0, 0;
    var unsupportedList := [];
    if listing.Some? {
      var entries := listing.value;
      for i := 0 to |entries|
        invariant FolderScanResult(total, supported, unsupported, unsupportedList)
          == Scan(entries[..i], host, FileFilter.IsFileSupported)
      {
        ScanStep(entries, host, FileFilter.IsFileSupported, i);
        var entryPath := entries[i];
        if IsRegularFile(entryPath, host) {
          total := total + 1;
          var filename := BaseName(entryPath);
          if FileFilter.IsFileSupported(filename) {
            supported := supported + 1;
          } else {
            unsupported := unsupported + 1;
            if |unsupportedList| < 50 {
              unsupportedList := unsupportedList + [filename];
            }
          }
        }
      }
      assert entries[..|entries|] == entries;
    }
    r := Ok(FolderScanResult(total, supported, unsupported, unsupportedList));
  }

  // ---------------------------------------------------------------- the folder list

  /** The position of the first folder with exactly this path. */
  function IndexOfPath(folders: seq<SharedFolder>, path: string): (r: Option<nat>)
    ensures r.Some? ==> r.value < |folders| && folders[r.value].path == path
    ensures r.Some? ==> forall j :: 0 <= j < r.value ==> folders[j].path != path
    ensures r.None? <==> forall j :: 0 <= j < |folders| ==> folders[j].path != path
  {
    if folders == [] then None
    else if folders[0].path == path then Some(0)
    else match IndexOfPath(folders[1..], path)
      case None => None
      case Some(i) => Some(i + 1)
  }

  /** Two canonical paths nest when either is a raw string prefix of the other; this
      is a character prefix, not a path-component prefix. */
  predicate Nested(a: string, b: string) {
    a <= b || b <= a
  }

  /** A folder clashes with a new canonical path when its own path canonicalises and the
      two nest. */
  predicate Clashes(folder: SharedFolder, newCanonical: string, canonical: map<string, string>) {
    folder.path in canonical && Nested(newCanonical, canonical[folder.path])
  }

  function FirstClash(folders: seq<SharedFolder>, newCanonical: string, canonical: map<string, string>): (r: Option<string>)
    ensures r.Some? ==> exists k :: 0 <= k < |folders| && folders[k].path == r.value && Clashes(folders[k], newCanonical, canonical)
    ensures r.None? <==> forall k :: 0 <= k < |folders| ==> !Clashes(folders[k], newCanonical, canonical)
  {
    if folders == [] then None
    else if Clashes(folders[0], newCanonical, canonical) then Some(folders[0].path)
    else
      var rest := FirstClash(folders[1..], newCanonical, canonical);
      assert forall k :: 1 <= k < |folders| ==> folders[k] == folders[1..][k - 1];
      rest
  }

  /** `check_folder_overlap`: a new path that cannot be canonicalised never overlaps;
      otherwise the first folder it nests with is reported. */
  function Overlap(folders: seq<SharedFolder>, newPath: string, canonical: map<string, string>): Option<string> {
    if newPath !in canonical then None else FirstClash(folders, canonical[newPath], canonical)
  }

  /** The entry `add_folder` appends. */
  function NewFolder(path: string): (f: SharedFolder)
    ensures f.permission == DefaultPermission() && f.enabled && f.available
  {
    SharedFolder(path, ReadOnly, true, true)
  }

  /** The checks `add_folder` makes before touching the list, in order: an exact
      duplicate, a missing path, a non-directory, an overlap. */
  function AddCheck(folders: seq<SharedFolder>, path: string, host: Host): (r: Option<FolderError>)
    ensures r == Some(AlreadyShared) <==> IndexOfPath(folders, path).Some?
    ensures r.None? <==>
      && (forall k :: 0 <= k < |folders| ==> folders[k].path != path)
      && IsDirectory(path, host)
      && (path !in host.canonical || forall k :: 0 <= k < |folders| ==> !Clashes(folders[k], host.canonical[path], host.canonical))
  {
    if IndexOfPath(folders, path).Some? then Some(AlreadyShared)
    else if path !in host.existing then Some(PathMissing(path))
    else if path !in host.dirs then Some(NotADirectory(path))
    else match Overlap(folders, path, host.canonical)
      case Some(other) => Some(Overlaps(other))
      case None => None
  }

  /** Every folder path occurs once. */
  predicate UniquePaths(folders: seq<SharedFolder>) {
    forall i, j :: 0 <= i < j < |folders| ==> folders[i].path != folders[j].path
  }

  /** No two canonicalisable folders nest. */
  predicate Apart(folders: seq<SharedFolder>, canonical: map<string, string>) {
    forall i, j :: 0 <= i < j < |folders| && folders[j].path in canonical ==>
      !Clashes(folders[i], canonical[folders[j].path], canonical)
  }

  /** An accepted addition keeps the paths unique and the folders apart. */
  lemma AddKeepsInvariants(folders: seq<SharedFolder>, path: string, host: Host)
    requires AddCheck(folders, path, host).None?
    ensures UniquePaths(folders) ==> UniquePaths(folders + [NewFolder(path)])
    ensures Apart(folders, host.canonical) ==> Apart(folders + [NewFolder(path)], host.canonical)
  {
    var after := folders + [NewFolder(path)];
    assert forall k :: 0 <= k < |folders| ==> after[k] == folders[k];
  }

  /** The overlap test is textual: "/a/Projects 2" is refused next to "/a/Projects", which
      the server's own path check keeps apart. */
  lemma SiblingWithCommonPrefixOverlaps(host: Host)
    requires host.canonical == map["/a/Projects" := "/a/Projects", "/a/Projects 2" := "/a/Projects 2"]
    requires IsDirectory("/a/Projects 2", host)
    ensures AddCheck([NewFolder("/a/Projects")], "/a/Projects 2", host) == Some(Overlaps("/a/Projects"))
  {
    var existing := [NewFolder("/a/Projects")];
    assert "/a/Projects" <= "/a/Projects 2";
    assert Clashes(existing[0], "/a/Projects 2", host.canonical);
    assert existing[1..] == [];
  }

  /** `remove_folder`'s `retain`: every folder with another path, in order. */
  function Removed(folders: seq<SharedFolder>, path: string): (r: seq<SharedFolder>)
    ensures |r| <= |folders|
    ensures forall k :: 0 <= k < |r| ==> r[k].path != path
  {
    if folders == [] then []
    else
      var last := folders[|folders| - 1];
      Removed(folders[..|folders| - 1], path) + (if last.path != path then [last] else [])
  }

  /** Every folder with another path survives the removal. */
  lemma {:induction false} RemovedKeepsOthers(folders: seq<SharedFolder>, path: string, k: nat)
    requires k < |folders| && folders[k].path != path
    ensures folders[k] in Removed(folders, path)
  {
    var n := |folders|;
    var init := folders[..n - 1];
    if k < n - 1 {
      assert init[k] == folders[k];
      RemovedKeepsOthers(init, path, k);
    }
  }

  /** Nothing is removed exactly when no folder has the path: that is when
      `remove_folder` reports "Folder not found". */
  lemma RemovedNothingIffAbsent(folders: seq<SharedFolder>, path: string)
    ensures |Removed(folders, path)| == |folders| <==> IndexOfPath(folders, path).None?
    ensures IndexOfPath(folders, path).None? ==> Removed(folders, path) == folders
  {
    RemovedLength(folders, path);
    if IndexOfPath(folders, path).None? {
      RemovedAbsent(folders, path);
    }
  }

  lemma {:induction false} RemovedLength(folders: seq<SharedFolder>, path: string)
    ensures |Removed(folders, path)| == |folders| <==> forall j :: 0 <= j < |folders| ==> folders[j].path != path
  {
    if folders != [] {
      var n := |folders|;
      var init := folders[..n - 1];
      var last := folders[n - 1];
      RemovedLength(init, path);
      assert forall j :: 0 <= j < n - 1 ==> init[j] == folders[j];
      if last.path == path {
        assert Removed(folders, path) == Removed(init, path) + [];
      } else {
        assert Removed(folders, path) == Removed(init, path) + [last];
      }
    }
  }

  lemma {:induction false} RemovedAbsent(folders: seq<SharedFolder>, path: string)
    requires forall j :: 0 <= j < |folders| ==> folders[j].path != path
    ensures Removed(folders, path) == folders
  {
    if folders != [] {
      var n := |folders|;
      var init := folders[..n - 1];
      assert forall j :: 0 <= j < n - 1 ==> init[j] == folders[j];
      RemovedAbsent(init, path);
      assert folders == init + [folders[n - 1]];
    }
  }

  /** With unique paths, removing a folder drops exactly its own entry. */
  lemma {:induction false} RemoveOne(folders: seq<SharedFolder>, i: nat)
    requires UniquePaths(folders) && i < |folders|
    ensures Removed(folders, folders[i].path) == folders[..i] + folders[i + 1..]
  {
    var path := folders[i].path;
    var n := |folders|;
    var init := folders[..n - 1];
    assert UniquePaths(init);
    if i == n - 1 {
      RemovedNothingIffAbsent(init, path);
      assert folders[..i] + folders[i + 1..] == init + [];
    } else {
      RemoveOne(init, i);
      assert init[i] == folders[i];
      assert init[..i] + init[i + 1..] + [folders[n - 1]] == folders[..i] + folders[i + 1..];
    }
  }

  /** `iter_mut().find(..)` and one field write: the first folder with the path is
      replaced by `update` of it; nothing else changes. */
  function UpdateFirst(folders: seq<SharedFolder>, path: string, update: SharedFolder -> SharedFolder): (r: seq<SharedFolder>)
    ensures |r| == |folders|
  {
    match IndexOfPath(folders, path)
    case None => folders
    case Some(i) => folders[i := update(folders[i])]
  }

  /** `toggle_permission`'s update: the first folder with the path gets the permission. */
  function WithPermission(folders: seq<SharedFolder>, path: string, permission: Permission): seq<SharedFolder> {
    UpdateFirst(folders, path, (f: SharedFolder) => f.(permission := permission))
  }

  /** `toggle_folder_enabled`'s update: the first folder with the path gets the flag. */
  function WithEnabled(folders: seq<SharedFolder>, path: string, enabled: bool): seq<SharedFolder> {
    UpdateFirst(folders, path, (f: SharedFolder) => f.(enabled := enabled))
  }

  /** Setting a permission touches one field of the first matching folder, leaves the
      paths alone, and setting it twice is setting it once. */
  lemma PermissionChangesOneField(folders: seq<SharedFolder>, path: string, permission: Permission)
    ensures var r := WithPermission(folders, path, permission);
      && (forall k :: 0 <= k < |folders| ==> r[k].path == folders[k].path && r[k].enabled == folders[k].enabled && r[k].available == folders[k].available)
      && (forall k :: 0 <= k < |folders| && Some(k) != IndexOfPath(folders, path) ==> r[k] == folders[k])
      && (IndexOfPath(folders, path).Some? ==> r[IndexOfPath(folders, path).value].permission == permission)
      && WithPermission(r, path, permission) == r
  {
    var r := WithPermission(folders, path, permission);
    assert forall k :: 0 <= k < |folders| ==> r[k].path == folders[k].path;
    assert IndexOfPath(r, path) == IndexOfPath(folders, path) by {
      SamePathsSameIndex(folders, r, path);
    }
  }

  lemma EnabledChangesOneField(folders: seq<SharedFolder>, path: string, enabled: bool)
    ensures var r := WithEnabled(folders, path, enabled);
      && (forall k :: 0 <= k < |folders| ==> r[k].path == folders[k].path && r[k].permission == folders[k].permission && r[k].available == folders[k].available)
      && (forall k :: 0 <= k < |folders| && Some(k) != IndexOfPath(folders, path) ==> r[k] == folders[k])
      && (IndexOfPath(folders, path).Some? ==> r[IndexOfPath(folders, path).value].enabled == enabled)
      && WithEnabled(r, path, enabled) == r
  {
    var r := WithEnabled(folders, path, enabled);
    assert forall k :: 0 <= k < |folders| ==> r[k].path == folders[k].path;
    assert IndexOfPath(r, path) == IndexOfPath(folders, path) by {
      SamePathsSameIndex(folders, r, path);
    }
  }

  lemma {:induction false} SamePathsSameIndex(a: seq<SharedFolder>, b: seq<SharedFolder>, path: string)
    requires |a| == |b| && forall k :: 0 <= k < |a| ==> a[k].path == b[k].path
    ensures IndexOfPath(a, path) == IndexOfPath(b, path)
  {
    if a != [] && a[0].path != path {
      SamePathsSameIndex(a[1..], b[1..], path);
    }
  }

  /** `list_folders`' refresh: each folder's `available` becomes whether its path is an
      existing directory now. */
  function Refreshed(folders: seq<SharedFolder>, host: Host): (r: seq<SharedFolder>)
    ensures |r| == |folders|
    ensures forall k :: 0 <= k < |r| ==> r[k] == folders[k].(available := IsDirectory(folders[k].path, host))
  {
    seq(|folders|, k requires 0 <= k < |folders| => folders[k].(available := IsDirectory(folders[k].path, host)))
  }

  /** Refreshing twice against the same disk is refreshing once, and it never changes a
      path, a permission or an enabled flag. */
  lemma RefreshStable(folders: seq<SharedFolder>, host: Host)
    ensures Refreshed(Refreshed(folders, host), host) == Refreshed(folders, host)
    ensures forall k :: 0 <= k < |folders| ==>
      var f := Refreshed(folders, host)[k];
      f.path == folders[k].path && f.permission == folders[k].permission && f.enabled == folders[k].enabled
  {
  }

  // ---------------------------------------------------------------- the application state

  /** The configuration behind the application's mutex. `persistOk` says whether
      writing the shared configuration file succeeds. */
  class FolderStore {
    var folders: seq<SharedFolder>
    var maxFileSizeMb: nat

    constructor(config: AppConfig)
      ensures folders == config.folders && maxFileSizeMb == config.maxFileSizeMb
    {
      folders := config.folders;
      maxFileSizeMb := config.maxFileSizeMb;
    }

    function Config(): AppConfig
      reads this
    {
      AppConfig(folders, maxFileSizeMb)
    }

    /** `iter().any(..)` / `iter_mut().find(..)`: the first folder with the path. */
    method Position(path: string) returns (r: Option<nat>)
      ensures r == IndexOfPath(folders, path)
    {
      var i := 0;
      while i < |folders|
        invariant i <= |folders|
        invariant forall j :: 0 <= j < i ==> folders[j].path != path
      {
        if folders[i].path == path {
          var found := IndexOfPath(folders, path);
          assert found.Some? && found.value == i;
          return Some(i);
        }
        i := i + 1;
      }
      return None;
    }

    /** `add_folder`: after the checks pass the scan is taken, the entry appended, and
        only then is the file written, so a failed write leaves the entry in memory. */
    method AddFolder(path: string, host: Host, listing: Option<seq<string>>, persistOk: bool)
      returns (r: Result<FolderScanResult, FolderError>)
      modifies this
      ensures maxFileSizeMb == old(maxFileSizeMb)
      ensures AddCheck(old(folders), path, host).Some? ==>
        r == Err(AddCheck(old(folders), path, host).value) && folders == old(folders)
      ensures AddCheck(old(folders), path, host).None? ==>
        && folders == old(folders) + [NewFolder(path)]
        && r == (if persistOk then ScanOutcome(path, host, listing) else Err(PersistFailed))
    {
      var shared := Position(path);
      if shared.Some? {
        return Err(AlreadyShared);
      }
      if path !in host.existing {
        return Err(PathMissing(path));
      }
      if path !in host.dirs {
        return Err(NotADirectory(path));
      }
      var overlapping := Overlap(folders, path, host.canonical);
      if overlapping.Some? {
        return Err(Overlaps(overlapping.value));
      }
      var scan := ScanFolder(path, host, listing);
      folders := folders + [NewFolder(path)];
      if !persistOk {
        return Err(PersistFailed);
      }
      r := scan;
    }

    /** `remove_folder`: `retain` drops every entry with the path; "Folder not found"
        when none did. */
    method RemoveFolder(path: string, persistOk: bool) returns (r: Result<(), FolderError>)
      modifies this
      ensures maxFileSizeMb == old(maxFileSizeMb)
      ensures folders == Removed(old(folders), path)
      ensures r == (if |folders| == |old(folders)| then Err(FolderNotFound) else if persistOk then Ok(()) else Err(PersistFailed))
    {
      var initialLen := |folders|;
      var kept := [];
      for i := 0 to |folders|
        invariant kept == Removed(folders[..i], path)
      {
        var prefix := folders[..i + 1];
        assert prefix[..|prefix| - 1] == folders[..i];
        if folders[i].path != path {
          kept := kept + [folders[i]];
        }
      }
      assert folders[..|folders|] == folders;
      folders := kept;
      if |folders| == initialLen {
        return Err(FolderNotFound);
      }
      if !persistOk {
        return Err(PersistFailed);
      }
      r := Ok(());
    }

    /** `list_folders`: refresh `available` in place and return the list. */
    method ListFolders(host: Host) returns (r: seq<SharedFolder>)
      modifies this
      ensures maxFileSizeMb == old(maxFileSizeMb)
      ensures folders == Refreshed(old(folders), host) && r == folders
    {
      var i := 0;
      while i < |folders|
        invariant maxFileSizeMb == old(maxFileSizeMb)
        invariant |folders| == |old(folders)| && i <= |folders|
        invariant forall k :: 0 <= k < i ==> folders[k] == old(folders)[k].(available := IsDirectory(old(folders)[k].path, host))
        invariant forall k :: i <= k < |folders| ==> folders[k] == old(folders)[k]
      {
        var f := folders[i];
        folders := folders[i := f.(available := f.path in host.existing && f.path in host.dirs)];
        i := i + 1;
      }
      r := folders;
    }

    /** `toggle_permission`. */
    method TogglePermission(path: string, permission: Permission, persistOk: bool) returns (r: Result<(), FolderError>)
      modifies this
      ensures maxFileSizeMb == old(maxFileSizeMb)
      ensures folders == WithPermission(old(folders), path, permission)
      ensures r == (if IndexOfPath(old(folders), path).None? then Err(FolderNotFound) else if persistOk then Ok(()) else Err(PersistFailed))
    {
      var found := Position(path);
      if found.None? {
        return Err(FolderNotFound);
      }
      var i := found.value;
      folders := folders[i := folders[i].(permission := permission)];
      if !persistOk {
        return Err(PersistFailed);
      }
      r := Ok(());
    }

    /** `toggle_folder_enabled`. */
    method ToggleEnabled(path: string, enabled: bool, persistOk: bool) returns (r: Result<(), FolderError>)
      modifies this
      ensures maxFileSizeMb == old(maxFileSizeMb)
      ensures folders == WithEnabled(old(folders), path, enabled)
      ensures r == (if IndexOfPath(old(folders), path).None? then Err(FolderNotFound) else if persistOk then Ok(()) else Err(PersistFailed))
    {
      var found := Position(path);
      if found.None? {
        return Err(FolderNotFound);
      }
      var i := found.value;
      folders := folders[i := folders[i].(enabled := enabled)];
      if !persistOk {
        return Err(PersistFailed);
      }
      r := Ok(());
    }

    /** `update_max_file_size`: the limit is set whether or not the write succeeds. */
    method UpdateMaxFileSize(maxSizeMb: nat, persistOk: bool) returns (r: Result<(), FolderError>)
      requires maxSizeMb <= U32Max
      modifies this
      ensures folders == old(folders) && maxFileSizeMb == maxSizeMb
      ensures r == (if persistOk then Ok(()) else Err(PersistFailed))
    {
      maxFileSizeMb := maxSizeMb;
      r := if persistOk then Ok(()) else Err(PersistFailed);
    }
  }
}
