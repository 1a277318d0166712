/** The guards of `move_file` and `copy_file`, and the per-entry containment check of
    `unzip_files`. */
module FileOps {
  import opened Wrappers
  import opened Text
  import opened Paths
  import opened Disk
  import opened ServerConfig
  import Sandbox

  datatype OpError =
    | Denied(reason: Sandbox.SandboxError)
    | DestinationExists(destination: string)
    | SourceNotAFile(source: string)

  /** The resolved source and destination an operation goes on to use. */
  datatype Route = Route(source: string, destination: string)

  /** `move_file`: the source must pass `validate_destructive` (so it exists), the
      destination `validate_writable`, and the destination must not exist yet. */
  function MoveGuard(source: string, destination: string, config: AppConfig, host: Host): Result<Route, OpError> {
    match Sandbox.ValidateDestructive(source, config, host)
    case Err(e) => Err(Denied(e))
    case Ok(s) =>
      match Sandbox.ValidateWritable(destination, config, host)
      case Err(e) => Err(Denied(e))
      case Ok(d) =>
        if d.canonicalPath in host.existing then Err(DestinationExists(destination))
        else Ok(Route(s.canonicalPath, d.canonicalPath))
  }

  /** `copy_file`: the source only needs `validate_path` and must be a regular file; an
      existing destination is overwritten. */
  function CopyGuard(source: string, destination: string, config: AppConfig, host: Host): Result<Route, OpError> {
    match Sandbox.ValidatePath(source, config, host)
    case Err(e) => Err(Denied(e))
    case Ok(s) =>
      match Sandbox.ValidateWritable(destination, config, host)
      case Err(e) => Err(Denied(e))
      case Ok(d) =>
        if s.canonicalPath !in host.existing || s.canonicalPath in host.dirs then Err(SourceNotAFile(source))
        else Ok(Route(s.canonicalPath, d.canonicalPath))
  }

  /** A move goes ahead only from an existing source in a read-write folder to a
      destination in a read-write folder that does not exist yet. */
  lemma MoveGuardSound(source: string, destination: string, config: AppConfig, host: Host)
    ensures var r := MoveGuard(source, destination, config, host);
      r.Ok? <==>
        && Sandbox.ValidatePath(source, config, host).Ok?
        && Sandbox.ValidatePath(source, config, host).value.folder.permission == ReadWrite
        && Sandbox.ValidatePath(source, config, host).value.canonicalPath in host.existing
        && Sandbox.ValidatePath(destination, config, host).Ok?
        && Sandbox.ValidatePath(destination, config, host).value.folder.permission == ReadWrite
        && Sandbox.ValidatePath(destination, config, host).value.canonicalPath !in host.existing
  {
  }

  /** The two guards differ on an existing destination: with a source file in a
      read-write folder and a destination that exists, the move is refused and the copy
      goes ahead. */
  lemma MoveRefusesCopyOverwrites(source: string, destination: string, config: AppConfig, host: Host)
    requires Sandbox.ValidateDestructive(source, config, host).Ok?
    requires Sandbox.ValidateWritable(destination, config, host).Ok?
    requires Sandbox.ValidateWritable(destination, config, host).value.canonicalPath in host.existing
    requires Sandbox.ValidatePath(source, config, host).value.canonicalPath !in host.dirs
    ensures MoveGuard(source, destination, config, host) == Err(DestinationExists(destination))
    ensures CopyGuard(source, destination, config, host).Ok?
  {
  }

  /** A copy reads through a read-only folder; a move from there is refused. */
  lemma CopyFromReadOnly(source: string, destination: string, config: AppConfig, host: Host)
    requires Sandbox.ValidatePath(source, config, host).Ok?
    requires Sandbox.ValidatePath(source, config, host).value.folder.permission == ReadOnly
    ensures MoveGuard(source, destination, config, host).Err?
    ensures Sandbox.ValidateWritable(destination, config, host).Ok?
      && Sandbox.ValidatePath(source, config, host).value.canonicalPath in host.existing
      && Sandbox.ValidatePath(source, config, host).value.canonicalPath !in host.dirs
      ==> CopyGuard(source, destination, config, host).Ok?
  {
  }

  // ---------------------------------------------------------------- unzip

  /** An archive entry: its (already sanitised) name and whether it is a directory. */
  datatype ZipEntry = ZipEntry(name: string, isDir: bool)

  /** The entry's output path is the destination joined with its name, and the entry is
      extracted only if that path still starts with the destination, component-wise. */
  predicate Contained(dest: string, name: string) {
    StartsWithPath(JoinPath(dest, name), dest)
  }

  /** The entries extracted, in archive order; `kept` is the containment test for the
      destination at hand (`Kept(dest)`). */
  function Extracted(kept: string -> bool, entries: seq<ZipEntry>): (r: seq<ZipEntry>)
    ensures |r| <= |entries|
    ensures forall k :: 0 <= k < |r| ==> r[k] in entries && kept(r[k].name)
  {
    if entries == [] then []
    else
      var last := entries[|entries| - 1];
      Extracted(kept, entries[..|entries| - 1]) + (if kept(last.name) then [last] else [])
  }

  function Kept(dest: string): string -> bool {
    name => Contained(dest, name)
  }

  /** The number of files extracted (directories are created but not counted). */
  function FileCount(entries: seq<ZipEntry>): nat {
    if entries == [] then 0
    else FileCount(entries[..|entries| - 1]) + (if entries[|entries| - 1].isDir then 0 else 1)
  }

  /** One more archive entry adds one to the count exactly when it is a file that passes
      the containment check. */
  lemma CountStep(kept: string -> bool, entries: seq<ZipEntry>, i: nat)
    requires i < |entries|
    ensures FileCount(Extracted(kept, entries[..i + 1]))
      == FileCount(Extracted(kept, entries[..i])) + (if kept(entries[i].name) && !entries[i].isDir then 1 else 0)
  {
    var prefix := entries[..i + 1];
    assert prefix[..|prefix| - 1] == entries[..i];
    assert prefix[|prefix| - 1] == entries[i];
    var before := Extracted(kept, entries[..i]);
    if kept(entries[i].name) {
      var after := before + [entries[i]];
      assert Extracted(kept, prefix) == after;
      assert after[..|after| - 1] == before;
      assert after[|after| - 1] == entries[i];
      assert FileCount(after) == FileCount(before) + (if entries[i].isDir then 0 else 1);
    } else {
      assert Extracted(kept, prefix) == before + [];
      assert before + [] == before;
    }
  }

  /** The extraction loop's count: every entry whose joined path passes the check, and
      that is not a directory, adds one. */
  method CountExtracted(dest: string, entries: seq<ZipEntry>) returns (extracted: nat)
    ensures extracted == FileCount(Extracted(Kept(dest), entries))
  {
    extracted := 0;
    for i := 0 to |entries|
      invariant extracted == FileCount(Extracted(Kept(dest), entries[..i]))
    {
      CountStep(Kept(dest), entries, i);
      var e := entries[i];
      var outPath := JoinPath(dest, e.name);
      if !StartsWithPath(outPath, dest) {
        continue;
      }
      if !e.isDir {
        extracted := extracted + 1;
      }
    }
    assert entries[..|entries|] == entries;
  }

  /** Every relative name stays inside the destination. */
  lemma RelativeNamesKept(dest: string, name: string)
    requires !IsAbsolute(name)
    ensures Contained(dest, name)
  {
    JoinStaysInside(dest, name);
  }

  /** An absolute name replaces the destination under `join`, and is dropped unless it
      lies inside the destination anyway. The tool's own names come from `mangled_name`,
      which keeps only normal components, so no absolute name reaches this check there. */
  lemma AbsoluteNameDropped(dest: string, name: string)
    requires IsAbsolute(name)
    ensures Contained(dest, name) <==> StartsWithPath(name, dest)
  {
  }

  /** The check is lexical: a name climbing out with ".." passes it, because the ".."
      is a component of the joined path like any other. This is a property of the check
      alone, not an escape from the tool: `mangled_name` has already removed every ".."
      component before a name reaches it. */
  lemma ParentNamePasses()
    ensures Contained("/d", "../x")
  {
    RelativeNamesKept("/d", "../x");
  }

  /** The archive is opened after both paths are granted; a failure to open or read it
      as a zip archive is an error. */
  datatype UnzipError = UnzipDenied(reason: Sandbox.SandboxError) | BadArchive

  function Unzip(archivePath: string, destination: string, config: AppConfig, host: Host, archive: Option<seq<ZipEntry>>): Result<(string, seq<ZipEntry>), UnzipError> {
    match Sandbox.ValidatePath(archivePath, config, host)
    case Err(e) => Err(UnzipDenied(e))
    case Ok(_) =>
      match Sandbox.ValidateWritable(destination, config, host)
      case Err(e) => Err(UnzipDenied(e))
      case Ok(d) =>
        match archive
        case None => Err(BadArchive)
        case Some(entries) => Ok((d.canonicalPath, Extracted(Kept(d.canonicalPath), entries)))
  }

  /** Only a read-write destination receives files, and every relative entry of a
      readable archive is extracted there. */
  lemma UnzipOutcome(archivePath: string, destination: string, config: AppConfig, host: Host, archive: Option<seq<ZipEntry>>)
    ensures var r := Unzip(archivePath, destination, config, host, archive);
      && (r.Ok? ==> Sandbox.ValidateWritable(destination, config, host).Ok? && archive.Some?)
      && (r.Ok? ==> forall e :: e in archive.value && !IsAbsolute(e.name) ==> e in r.value.1)
  {
    var r := Unzip(archivePath, destination, config, host, archive);
    if r.Ok? {
      forall e | e in archive.value && !IsAbsolute(e.name) ensures e in r.value.1 {
        RelativeNamesKept(r.value.0, e.name);
        ExtractedKeeps(Kept(r.value.0), archive.value, e);
      }
    }
  }

  /** Every entry that passes the check is extracted. */
  lemma {:induction false} ExtractedKeeps(kept: string -> bool, entries: seq<ZipEntry>, e: ZipEntry)
    requires e in entries && kept(e.name)
    ensures e in Extracted(kept, entries)
  {
    var init := entries[..|entries| - 1];
    if e != entries[|entries| - 1] {
      assert entries == init + [entries[|entries| - 1]];
      ExtractedKeeps(kept, init, e);
    }
  }
}
