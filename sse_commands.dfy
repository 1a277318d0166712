/** The desktop application's side of the SSE transport: the list of browser origins the
    user has paired (kept in `~/.omnidrive/pairings.json`), and starting and stopping the
    server sidecar that serves MCP over HTTP. */
module SseCommands {
  import opened Wrappers
  import opened Text

  // ---------------------------------------------------------------- pairings

  /** The pairings file: absent, present but not readable as `{ approved_origins: [..] }`,
      or holding the approved origins. */
  datatype PairingsFile = Missing | Unreadable | Origins(approved: seq<string>)

  datatype PairingError = ReadFailed | WriteFailed

  /** `approve_origin`'s list: the origin is appended unless it is already there. */
  function Approved(origins: seq<string>, origin: string): (r: seq<string>)
    ensures origin in r
    ensures forall o :: o in origins ==> o in r
    ensures forall o :: o in r ==> o in origins || o == origin
  {
    if origin in origins then origins else origins + [origin]
  }

  /** `revoke_origin`'s `retain`: every other origin, in order. */
  function Revoked(origins: seq<string>, origin: string): (r: seq<string>)
    ensures origin !in r
    ensures forall o :: o in origins && o != origin ==> o in r
    ensures forall o :: o in r ==> o in origins
  {
    if origins == [] then []
    else
      var last := origins[|origins| - 1];
      var init := origins[..|origins| - 1];
      var r := Revoked(init, origin) + (if last != origin then [last] else []);
      assert forall o :: o in origins ==> o in init || o == last;
      r
  }

  /** `retain` keeps order: revoking from a concatenation revokes from each part, and a
      single origin survives exactly when it is not the one revoked. */
  lemma RevokedKeepsOrder(a: seq<string>, b: seq<string>, origin: string)
    ensures Revoked(a + b, origin) == Revoked(a, origin) + Revoked(b, origin)
    ensures forall o :: Revoked([o], origin) == if o == origin then [] else [o]
  {
    RevokedAppend(a, b, origin);
    forall o ensures Revoked([o], origin) == if o == origin then [] else [o] {
      assert [o][..0] == [];
    }
  }

  lemma {:induction false} RevokedAppend(a: seq<string>, b: seq<string>, origin: string)
    ensures Revoked(a + b, origin) == Revoked(a, origin) + Revoked(b, origin)
    decreases |b|
  {
    if b == [] {
      assert a + b == a;
    } else {
      var ab, init, last := a + b, b[..|b| - 1], b[|b| - 1];
      var tail := if last != origin then [last] else [];
      assert ab[..|ab| - 1] == a + init && ab[|ab| - 1] == last;
      assert Revoked(ab, origin) == Revoked(a + init, origin) + tail;
      assert Revoked(b, origin) == Revoked(init, origin) + tail;
      RevokedAppend(a, init, origin);
    }
  }

  predicate NoDuplicates(origins: seq<string>) {
    forall i, j :: 0 <= i < j < |origins| ==> origins[i] != origins[j]
  }

  /** Approving is idempotent and never creates a duplicate. */
  lemma ApproveIdempotent(origins: seq<string>, origin: string)
    ensures Approved(Approved(origins, origin), origin) == Approved(origins, origin)
    ensures NoDuplicates(origins) ==> NoDuplicates(Approved(origins, origin))
  {
  }

  /** Revoking is idempotent, and revoking an origin just approved for the first time
      gives the list back. */
  lemma {:induction false} RevokeUndoesApprove(origins: seq<string>, origin: string)
    ensures Revoked(Revoked(origins, origin), origin) == Revoked(origins, origin)
    ensures origin !in origins ==> Revoked(Approved(origins, origin), origin) == origins
  {
    RevokeAbsent(Revoked(origins, origin), origin);
    if origin !in origins {
      var longer := origins + [origin];
      assert longer[..|longer| - 1] == origins;
      RevokeAbsent(origins, origin);
    }
  }

  lemma {:induction false} RevokeAbsent(origins: seq<string>, origin: string)
    requires origin !in origins
    ensures Revoked(origins, origin) == origins
  {
    if origins != [] {
      var init := origins[..|origins| - 1];
      RevokeAbsent(init, origin);
      assert origins == init + [origins[|origins| - 1]];
    }
  }

  /** The pairings file behind the three commands; `writeOk` says whether writing it
      succeeds. */
  class PairingStore {
    var file: PairingsFile

    constructor(initial: PairingsFile)
      ensures file == initial
    {
      file := initial;
    }

    /** `get_approved_origins`. */
    function ApprovedOrigins(): (r: Result<seq<string>, PairingError>)
      reads this
      ensures file.Missing? ==> r == Ok([])
      ensures file.Unreadable? <==> r.Err?
    {
      match file
      case Missing => Ok([])
      case Unreadable => Err(ReadFailed)
      case Origins(list) => Ok(list)
    }

    /** `approve_origin`: a missing file counts as an empty list; the file is rewritten
        only when the origin is new. */
    method ApproveOrigin(origin: string, writeOk: bool) returns (r: Result<(), PairingError>)
      modifies this
      ensures old(file).Unreadable? ==> r == Err(ReadFailed) && file == old(file)
      ensures !old(file).Unreadable? ==>
        var list := if old(file).Origins? then old(file).approved else [];
        if origin in list then r == Ok(()) && file == old(file)
        else if writeOk then r == Ok(()) && file == Origins(Approved(list, origin))
        else r == Err(WriteFailed) && file == old(file)
    {
      var list: seq<string>;
      match file {
        case Unreadable => return Err(ReadFailed);
        case Missing => list := [];
        case Origins(l) => list := l;
      }
      if origin !in list {
        if !writeOk {
          return Err(WriteFailed);
        }
        file := Origins(list + [origin]);
      }
      r := Ok(());
    }

    /** `revoke_origin`: nothing to do without a file; otherwise the filtered list is
        written back, whether or not the origin was in it. */
    method RevokeOrigin(origin: string, writeOk: bool) returns (r: Result<(), PairingError>)
      modifies this
      ensures old(file).Missing? ==> r == Ok(()) && file == old(file)
      ensures old(file).Unreadable? ==> r == Err(ReadFailed) && file == old(file)
      ensures old(file).Origins? ==>
        if writeOk then r == Ok(()) && file == Origins(Revoked(old(file).approved, origin))
        else r == Err(WriteFailed) && file == old(file)
    {
      match file {
        case Missing => return Ok(());
        case Unreadable => return Err(ReadFailed);
        case Origins(list) =>
          var kept := [];
          for i := 0 to |list|
            invariant kept == Revoked(list[..i], origin)
          {
            var prefix := list[..i + 1];
            assert prefix[..|prefix| - 1] == list[..i];
            if list[i] != origin {
              kept := kept + [list[i]];
            }
          }
          assert list[..|list|] == list;
          if !writeOk {
            return Err(WriteFailed);
          }
          file := Origins(kept);
          r := Ok(());
      }
    }
  }

  // ---------------------------------------------------------------- the sidecar

  /** The arguments `start_sse_mode` gives the server: SSE transport on the port, and the
      comma-joined origins when there are any. */
  function BuildArgs(port: nat, origins: seq<string>): (args: seq<string>)
    ensures |args| == if origins == [] then 4 else 6
    ensures args[..4] == ["--transport", "sse", "--port", NatToString(port)]
    ensures origins != [] ==> args[4] == "--allowed-origins" && args[5] == Join(origins, ",")
  {
    ["--transport", "sse", "--port", NatToString(port)]
      + (if origins != [] then ["--allowed-origins", Join(origins, ",")] else [])
  }

  function SseUrl(port: nat): string {
    "http://127.0.0.1:" + NatToString(port) + "/sse"
  }

  datatype SseStatus = SseStatus(running: bool, port: nat, url: Option<string>)

  /** The recorded sidecar process and its port. `spawned` is the argument list of every
      process started, the last one last. */
  class SseProcess {
    var running: bool
    var port: nat
    ghost var spawned: seq<seq<string>>

    /** No process, port 0. */
    ghost predicate Valid()
      reads this
    {
      !running ==> port == 0
    }

    constructor()
      ensures Valid() && !running && spawned == []
    {
      running := false;
      port := 0;
      spawned := [];
    }

    /** `get_sse_status`: running, with the URL, exactly when a process is recorded. */
    function Status(): (s: SseStatus)
      reads this
      ensures s.running == running
      ensures s.url.Some? <==> running
      ensures running ==> s.port == port && s.url == Some(SseUrl(port))
      ensures !running ==> s.port == 0
    {
      if running then SseStatus(true, port, Some(SseUrl(port))) else SseStatus(false, 0, None)
    }

    /** `start_sse_mode`: with a process recorded, report it and start nothing; otherwise
        spawn with `BuildArgs` and record the process and port. */
    method Start(newPort: nat, origins: seq<string>, spawnOk: bool) returns (r: Result<SseStatus, string>)
      requires Valid()
      modifies this
      ensures Valid()
      ensures old(running) ==> r == Ok(old(Status())) && running && port == old(port) && spawned == old(spawned)
      ensures !old(running) && spawnOk ==>
        && running && port == newPort && spawned == old(spawned) + [BuildArgs(newPort, origins)]
        && r == Ok(Status())
      ensures !old(running) && !spawnOk ==> r.Err? && !running && port == old(port) && spawned == old(spawned)
    {
      if running {
        return Ok(SseStatus(true, port, Some(SseUrl(port))));
      }
      var args := BuildArgs(newPort, origins);
      if !spawnOk {
        return Err("failed to spawn the server");
      }
      spawned := spawned + [args];
      running := true;
      port := newPort;
      r := Ok(SseStatus(true, newPort, Some(SseUrl(newPort))));
    }

    /** `stop_sse_mode`: kill any process, clear it and the port. */
    method Stop() returns (s: SseStatus)
      modifies this
      ensures Valid() && !running && port == 0 && spawned == old(spawned)
      ensures s == Status() && s == SseStatus(false, 0, None)
    {
      running := false;
      port := 0;
      s := SseStatus(false, 0, None);
    }
  }
}
