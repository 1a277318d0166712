/** The server's HTTP transport: the pairing gate in front of every request, the
    pairings file it creates at start-up, and the CORS policy built from
    `--allowed-origins`. The gate reads the pairings file afresh on every request; here
    the file's current state is a parameter. */
module SseServer {
  import opened Wrappers
  import opened Text
  import opened SseCommands
  import ActivityServer

  // ---------------------------------------------------------------- the pairing gate

  /** `is_origin_approved`: the origin is listed in a readable pairings file. A missing or
      unreadable file approves nothing. */
  predicate IsOriginApproved(origin: string, pairings: PairingsFile): (b: bool)
    ensures !pairings.Origins? ==> !b
    ensures pairings.Origins? ==>
      (b <==> exists k :: 0 <= k < |pairings.approved| && pairings.approved[k] == origin)
  {
    pairings.Origins? && origin in pairings.approved
  }

  /** `HeaderValue::to_str` succeeds when every byte is visible ASCII or a tab. */
  predicate VisibleAscii(value: string) {
    forall k :: 0 <= k < |value| ==> (' ' <= value[k] <= '~') || value[k] == '\t'
  }

  datatype Decision = Pass | Forbidden(origin: string)

  /** `pairing_middleware`'s decision: a request without an `Origin` header, or with one
      that is not visible ASCII, goes through; any other origin must be approved. */
  function Gate(header: Option<string>, pairings: PairingsFile): (d: Decision)
    ensures d.Forbidden? ==> header == Some(d.origin)
  {
    match header
    case None => Pass
    case Some(origin) =>
      if !VisibleAscii(origin) then Pass
      else if IsOriginApproved(origin, pairings) then Pass
      else Forbidden(origin)
  }

  /** A request is refused exactly when it names, in readable form, an origin the
      pairings file does not approve. */
  lemma GateForbidsExactly(header: Option<string>, pairings: PairingsFile)
    ensures Gate(header, pairings).Forbidden? <==>
      header.Some? && VisibleAscii(header.value) && !IsOriginApproved(header.value, pairings)
  {
  }

  /** Without a readable pairings file every browser origin is refused. */
  lemma NoFileRefusesEveryOrigin(origin: string, pairings: PairingsFile)
    requires !pairings.Origins? && VisibleAscii(origin)
    ensures Gate(Some(origin), pairings) == Forbidden(origin)
  {
  }

  /** Approving an origin in the application opens the gate to it; revoking it closes the
      gate again. */
  lemma ApproveOpensRevokeCloses(list: seq<string>, origin: string)
    requires VisibleAscii(origin)
    ensures Gate(Some(origin), Origins(Approved(list, origin))) == Pass
    ensures Gate(Some(origin), Origins(Revoked(list, origin))) == Forbidden(origin)
  {
  }

  /** The summary recorded for a refused origin. */
  function BlockedSummary(origin: string): string {
    "Blocked connection attempt from unapproved origin: " + origin
  }

  /** The middleware: a refused request is answered 403 and leaves one "security" entry
      in the activity log; an admitted one leaves the log alone. */
  method PairingMiddleware(header: Option<string>, pairings: PairingsFile, log: ActivityServer.ActivityLog,
                           id: string, timestamp: string, encode: ActivityServer.ActivityEntry -> string,
                           io: ActivityServer.LogIo)
    returns (d: Decision)
    modifies log
    ensures d == Gate(header, pairings)
    ensures log.agent == old(log.agent)
    ensures d.Pass? ==> log.content == old(log.content)
    ensures d.Forbidden? ==>
      log.content == ActivityServer.Logged(old(log.content),
        encode(ActivityServer.EntryFor(id, timestamp, "system", "security", None, old(log.agent), BlockedSummary(d.origin))), io).1
  {
    d := Pass;
    if header.Some? {
      var origin := header.value;
      if VisibleAscii(origin) {
        var approved := pairings.Origins? && origin in pairings.approved;
        if !approved {
          log.LogActivity("system", "security", None, BlockedSummary(origin), id, timestamp, encode, io);
          d := Forbidden(origin);
        }
      }
    }
  }

  // ---------------------------------------------------------------- start-up

  /** At start-up a missing pairings file is written as an empty list (when the write
      succeeds); a file that exists, even an unreadable one, is left as it is. */
  function EnsurePairingsFile(file: PairingsFile, writeOk: bool): (r: PairingsFile)
    ensures !file.Missing? ==> r == file
    ensures file.Missing? && writeOk ==> r == Origins([])
  {
    if file.Missing? && writeOk then Origins([]) else file
  }

  /** Whatever the start-up write does, a server started without pairings approves no
      origin. */
  lemma FreshServerApprovesNothing(writeOk: bool, origin: string)
    ensures !IsOriginApproved(origin, EnsurePairingsFile(Missing, writeOk))
  {
  }

  // ---------------------------------------------------------------- CORS

  /** `HeaderValue::from_str` accepts every byte from 32 up except DEL, and the tab. */
  predicate ParsesAsHeader(origin: string) {
    forall k :: 0 <= k < |origin| ==> (' ' <= origin[k] && origin[k] != '\U{7F}') || origin[k] == '\t'
  }

  datatype CorsPolicy = AnyOrigin | OriginList(origins: seq<string>)

  /** The origins that parse as header values, in order. */
  function Parseable(origins: seq<string>): (r: seq<string>)
    ensures forall o :: o in r <==> o in origins && ParsesAsHeader(o)
  {
    if origins == [] then []
    else (if ParsesAsHeader(origins[0]) then [origins[0]] else []) + Parseable(origins[1..])
  }

  /** No origins means any origin; otherwise the list of those that parse. */
  function Cors(allowedOrigins: seq<string>): (p: CorsPolicy)
    ensures p.AnyOrigin? <==> allowedOrigins == []
  {
    if allowedOrigins == [] then AnyOrigin else OriginList(Parseable(allowedOrigins))
  }

  predicate CorsAllows(p: CorsPolicy, origin: string) {
    p.AnyOrigin? || origin in p.origins
  }

  /** An empty list lets every origin through CORS; a non-empty one exactly the listed
      origins that parse. A listed origin that does not parse is dropped silently, so a
      list made only of such origins allows none. */
  lemma CorsAllowsExactly(allowedOrigins: seq<string>, origin: string)
    ensures CorsAllows(Cors(allowedOrigins), origin) <==>
      allowedOrigins == [] || (origin in allowedOrigins && ParsesAsHeader(origin))
  {
  }
}
