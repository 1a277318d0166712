/** The `patch_file` tool: the literal operations, then the line operations, then one
    write, each step refusing before anything is written. */
module Patch {
  import opened Wrappers
  import opened Text
  import opened Disk
  import opened ServerConfig
  import opened PatchText
  import Sandbox

  // ---------------------------------------------------------------- the tool

  datatype PatchError =
    | Denied(reason: Sandbox.SandboxError)
    | FileNotFound
    | NoOperations
    | CannotRead
    | InvalidRange(startLine: nat, endLine: nat)
    | WriteFailed

  /** What the tool writes, where, and the per-operation counts. */
  datatype Patched = Patched(file: string, content: string, counts: seq<nat>)

  /** `patch_file`: permission, a regular file, at least one operation and a readable text
      come first; then the literal operations and the line operations; the single write at
      the end is the only change to the file, so any error leaves it as it was. */
  function PatchFile(path: string, config: AppConfig, host: Host, searchOps: seq<SearchOp>, lineOps: seq<LineOp>, writeOk: bool): Result<Patched, PatchError>
    requires forall k :: 0 <= k < |searchOps| ==> Stops(searchOps[k])
  {
    match Sandbox.ValidateWritable(path, config, host)
    case Err(e) => Err(Denied(e))
    case Ok(v) =>
      var file := v.canonicalPath;
      if file !in host.existing || file in host.dirs then Err(FileNotFound)
      else if searchOps == [] && lineOps == [] then Err(NoOperations)
      else if file !in host.files then Err(CannotRead)
      else
        var (afterSearch, counts) := ApplySearchOps(host.files[file], searchOps);
        var result := if lineOps == [] then Ok(afterSearch) else ApplyLineOps(afterSearch, lineOps);
        match result
        case Err(op) => Err(InvalidRange(op.startLine, op.endLine))
        case Ok(text) => if writeOk then Ok(Patched(file, text, counts)) else Err(WriteFailed)
  }

  /** The file on disk afterwards: the patched text on success, untouched otherwise. */
  function FilesAfter(host: Host, r: Result<Patched, PatchError>): map<string, string> {
    if r.Ok? then host.files[r.value.file := r.value.content] else host.files
  }

  /** A successful patch went through a read-write folder, wrote a regular file that was
      readable, and with line operations the new text ends in a newline. */
  lemma PatchFileOutcome(path: string, config: AppConfig, host: Host, searchOps: seq<SearchOp>, lineOps: seq<LineOp>, writeOk: bool)
    requires forall k :: 0 <= k < |searchOps| ==> Stops(searchOps[k])
    ensures var r := PatchFile(path, config, host, searchOps, lineOps, writeOk);
      && ((searchOps == [] && lineOps == [] && Sandbox.ValidateWritable(path, config, host).Ok?
           && Sandbox.ValidateWritable(path, config, host).value.canonicalPath in host.existing
           && Sandbox.ValidateWritable(path, config, host).value.canonicalPath !in host.dirs) ==> r == Err(NoOperations))
      && (r.Ok? ==> (Sandbox.ValidateWritable(path, config, host).Ok?
                     && r.value.file == Sandbox.ValidateWritable(path, config, host).value.canonicalPath
                     && r.value.file in host.files && r.value.file !in host.dirs
                     && |r.value.counts| == |searchOps| && writeOk))
      && (r.Ok? && lineOps != [] ==> r.value.content != [] && r.value.content[|r.value.content| - 1] == '\n')
      && (r.Err? ==> FilesAfter(host, r) == host.files)
  {
  }
}
