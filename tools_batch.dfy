/** The `batch_read` tool: one report block per requested path, in order, with a
    running byte budget shared by the files actually read. */
module BatchRead {
  import opened Wrappers
  import opened Text
  import opened Paths
  import opened Disk
  import opened ServerConfig
  import Sandbox

  const MaxPaths: nat := 50

  /** What one block reports. */
  datatype Outcome =
    | Denied(reason: Sandbox.SandboxError)
    | NotAFile
    | MetadataFailed
    | Skipped
    | Binary
    | ReadFailed
    | Text(content: string)

  datatype Block = Block(path: string, outcome: Outcome)

  datatype BatchError = NoPaths | TooManyPaths

  /** One path: permission, a regular file, readable metadata; then the budget check
      (before the binary check), the binary check, and the read. Only a read adds to the
      total, and by the UTF-8 length of what was read. `sizes` holds the metadata length
      of every path whose metadata can be read. */
  function Step(path: string, config: AppConfig, host: Host, sizes: map<string, nat>, maxBytes: nat, total: nat): (r: (Block, nat))
    ensures r.0.path == path
    ensures r.0.outcome.Text? ==> r.1 == total + Utf8Len(r.0.outcome.content)
    ensures !r.0.outcome.Text? ==> r.1 == total
  {
    match Sandbox.ValidatePath(path, config, host)
    case Err(e) => (Block(path, Denied(e)), total)
    case Ok(v) =>
      var file := v.canonicalPath;
      if file !in host.existing || file in host.dirs then (Block(path, NotAFile), total)
      else if file !in sizes then (Block(path, MetadataFailed), total)
      else if total + sizes[file] > maxBytes then (Block(path, Skipped), total)
      else if Sandbox.IsBinaryFile(BaseName(file)) then (Block(path, Binary), total)
      else if file !in host.files then (Block(path, ReadFailed), total)
      else (Block(path, Text(host.files[file])), total + Utf8Len(host.files[file]))
  }

  /** All blocks and the final total, folding `Step` over the paths in order. */
  function Blocks(paths: seq<string>, config: AppConfig, host: Host, sizes: map<string, nat>, maxBytes: nat): (r: (seq<Block>, nat))
    ensures |r.0| == |paths|
    ensures forall i :: 0 <= i < |paths| ==> r.0[i].path == paths[i]
  {
    if paths == [] then ([], 0)
    else
      var before := Blocks(paths[..|paths| - 1], config, host, sizes, maxBytes);
      var step := Step(paths[|paths| - 1], config, host, sizes, maxBytes, before.1);
      (before.0 + [step.0], step.1)
  }

  function BatchReport(paths: seq<string>, config: AppConfig, host: Host, sizes: map<string, nat>, maxBytes: nat): Result<(seq<Block>, nat), BatchError> {
    if paths == [] then Err(NoPaths)
    else if |paths| > MaxPaths then Err(TooManyPaths)
    else Ok(Blocks(paths, config, host, sizes, maxBytes))
  }

  method Batch(paths: seq<string>, config: AppConfig, host: Host, sizes: map<string, nat>, maxBytes: nat) returns (r: Result<(seq<Block>, nat), BatchError>)
    ensures r == BatchReport(paths, config, host, sizes, maxBytes)
  {
    if |paths| == 0 {
      return Err(NoPaths);
    }
    if |paths| > MaxPaths {
      return Err(TooManyPaths);
    }
    var results, totalBytes := ReadAll(paths, config, host, sizes, maxBytes);
    r := Ok((results, totalBytes));
  }

  /** The loop over the paths, in order, carrying the running total. */
  method ReadAll(paths: seq<string>, config: AppConfig, host: Host, sizes: map<string, nat>, maxBytes: nat)
    returns (results: seq<Block>, totalBytes: nat)
    ensures (results, totalBytes) == Blocks(paths, config, host, sizes, maxBytes)
  {
    totalBytes := 0;
    results := [];
    for i := 0 to |paths|
      invariant (results, totalBytes) == Blocks(paths[..i], config, host, sizes, maxBytes)
    {
      BlocksPrefix(paths, i, config, host, sizes, maxBytes);
      var block;
      block, totalBytes := ReadOne(paths[i], config, host, sizes, maxBytes, totalBytes);
      results := results + [block];
    }
    assert paths[..|paths|] == paths;
  }

  /** One more path extends the fold by one step. */
  lemma BlocksPrefix(paths: seq<string>, i: nat, config: AppConfig, host: Host, sizes: map<string, nat>, maxBytes: nat)
    requires i < |paths|
    ensures var before := Blocks(paths[..i], config, host, sizes, maxBytes);
      var step := Step(paths[i], config, host, sizes, maxBytes, before.1);
      Blocks(paths[..i + 1], config, host, sizes, maxBytes) == (before.0 + [step.0], step.1)
  {
    assert paths[..i + 1][..i] == paths[..i];
  }

  /** The body of the loop for one path. */
  method ReadOne(path: string, config: AppConfig, host: Host, sizes: map<string, nat>, maxBytes: nat, total: nat)
    returns (block: Block, newTotal: nat)
    ensures (block, newTotal) == Step(path, config, host, sizes, maxBytes, total)
  {
    newTotal := total;
    match Sandbox.ValidatePath(path, config, host) {
      case Err(e) =>
        block := Block(path, Denied(e));
      case Ok(v) =>
        var file := v.canonicalPath;
        if file !in host.existing || file in host.dirs {
          block := Block(path, NotAFile);
        } else if file !in sizes {
          block := Block(path, MetadataFailed);
        } else if total + sizes[file] > maxBytes {
          block := Block(path, Skipped);
        } else if Sandbox.IsBinaryFile(BaseName(file)) {
          block := Block(path, Binary);
        } else if file !in host.files {
          block := Block(path, ReadFailed);
        } else {
          newTotal := total + Utf8Len(host.files[file]);
          block := Block(path, Text(host.files[file]));
        }
    }
  }

  /** The bytes of text actually read, block by block. */
  function TextBytes(blocks: seq<Block>): nat {
    if blocks == [] then 0
    else TextBytes(blocks[..|blocks| - 1]) + (match blocks[|blocks| - 1].outcome case Text(c) => Utf8Len(c) case _ => 0)
  }

  /** The reported total is the size of the text read and nothing else. */
  lemma {:induction false} TotalIsTextRead(paths: seq<string>, config: AppConfig, host: Host, sizes: map<string, nat>, maxBytes: nat)
    ensures var r := Blocks(paths, config, host, sizes, maxBytes);
      r.1 == TextBytes(r.0)
  {
    if paths != [] {
      var r := Blocks(paths, config, host, sizes, maxBytes);
      TotalIsTextRead(paths[..|paths| - 1], config, host, sizes, maxBytes);
      assert r.0[..|r.0| - 1] == Blocks(paths[..|paths| - 1], config, host, sizes, maxBytes).0;
    }
  }

  /** The metadata length agrees with the text read for every readable file. */
  predicate SizesExact(host: Host, sizes: map<string, nat>) {
    forall f :: f in sizes && f in host.files ==> sizes[f] == Utf8Len(host.files[f])
  }

  /** When the metadata is exact the budget is never overrun. */
  lemma {:induction false} WithinBudget(paths: seq<string>, config: AppConfig, host: Host, sizes: map<string, nat>, maxBytes: nat)
    requires SizesExact(host, sizes)
    ensures Blocks(paths, config, host, sizes, maxBytes).1 <= maxBytes
  {
    if paths != [] {
      WithinBudget(paths[..|paths| - 1], config, host, sizes, maxBytes);
    }
  }

  /** A file too large for what is left of the budget is skipped even when it is also
      binary: the size check comes first. */
  lemma SizeBeforeBinary(path: string, config: AppConfig, host: Host, sizes: map<string, nat>, maxBytes: nat, total: nat)
    requires Sandbox.ValidatePath(path, config, host).Ok?
    requires var file := Sandbox.ValidatePath(path, config, host).value.canonicalPath;
      file in host.existing && file !in host.dirs && file in sizes && total + sizes[file] > maxBytes
    ensures Step(path, config, host, sizes, maxBytes, total).0.outcome == Skipped
  {
  }

  /** A skipped path does not end the batch: the next path is still read when it fits. */
  lemma SkipThenRead(big: string, small: string, config: AppConfig, host: Host, sizes: map<string, nat>, maxBytes: nat)
    requires Sandbox.ValidatePath(big, config, host).Ok? && Sandbox.ValidatePath(small, config, host).Ok?
    requires var b := Sandbox.ValidatePath(big, config, host).value.canonicalPath;
      b in host.existing && b !in host.dirs && b in sizes && sizes[b] > maxBytes
    requires var s := Sandbox.ValidatePath(small, config, host).value.canonicalPath;
      && s in host.existing && s !in host.dirs && s in sizes && sizes[s] <= maxBytes
      && !Sandbox.IsBinaryFile(BaseName(s)) && s in host.files
    ensures var r := Blocks([big, small], config, host, sizes, maxBytes).0;
      r[0].outcome == Skipped && r[1].outcome == Text(host.files[Sandbox.ValidatePath(small, config, host).value.canonicalPath])
  {
    assert [big, small][..1] == [big];
    assert [big][..0] == [];
    assert Blocks([], config, host, sizes, maxBytes) == ([], 0);
    assert Step(big, config, host, sizes, maxBytes, 0) == (Block(big, Skipped), 0);
    var one := [big];
    assert one[..|one| - 1] == [] && one[|one| - 1] == big;
    assert Blocks(one, config, host, sizes, maxBytes) == ([] + [Block(big, Skipped)], 0);
  }
}
