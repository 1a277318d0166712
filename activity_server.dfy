/** The server's activity log: one JSON object per line in `~/.omnidrive/activity.jsonl`,
    appended after every tool call, cut back to its last 500 lines once the file grows
    past 2 MiB. The JSON encoding is a parameter (`encode`); the clock and the id
    generator supply `timestamp` and `id`. */
module ActivityServer {
  import opened Wrappers
  import opened Text

  const MaxLogSizeBytes: nat := 2 * 1024 * 1024
  const KeepCount: nat := 500
  const DefaultAgent: string := "Generic MCP Client"

  datatype ActivityEntry = ActivityEntry(
    id: string,
    timestamp: string,
    tool: string,
    category: string,
    path: Option<string>,
    agent: string,
    summary: string)

  /** A log file written only by whole lines: empty, or ending in a newline. */
  predicate Terminated(s: string) {
    s == [] || s[|s| - 1] == '\n'
  }

  /** A line `str::lines` gives back unchanged when it is written with a newline after it. */
  predicate CleanLine(line: string) {
    line != [] && '\n' !in line && StripCR(line) == line
  }

  /** Every line of the file is clean (serialised JSON objects are). */
  predicate CleanLog(content: string) {
    forall k :: 0 <= k < |Lines(content)| ==> CleanLine(Lines(content)[k])
  }

  // ---------------------------------------------------------------- rotation

  /** The size check: the file's length in bytes exceeds 2 MiB. */
  predicate NeedsRotation(content: string) {
    Utf8Len(content) > MaxLogSizeBytes
  }

  /** The last `n` elements, or all of them when there are fewer. */
  function LastN<T>(s: seq<T>, n: nat): (r: seq<T>)
    ensures |r| == Min(n, |s|) && r == s[|s| - |r|..]
  {
    if |s| > n then s[|s| - n..] else s
  }

  /** `rotate_log` when its write succeeds: more than 500 lines are rewritten as the last
      500, newline-joined and newline-terminated; otherwise the file is left alone. */
  function Rotated(content: string): string {
    var lines := Lines(content);
    if |lines| > KeepCount then Join(LastN(lines, KeepCount), "\n") + "\n" else content
  }

  /** Rotation keeps exactly the last 500 lines, in order. */
  lemma RotationKeepsLastLines(content: string)
    requires CleanLog(content)
    ensures Lines(Rotated(content)) == LastN(Lines(content), KeepCount)
  {
    var lines := Lines(content);
    if |lines| > KeepCount {
      var kept := LastN(lines, KeepCount);
      assert forall k :: 0 <= k < |kept| ==> kept[k] == lines[|lines| - KeepCount + k];
      LinesJoin(kept);
    }
  }

  /** A rotated file is still made of whole, clean lines. */
  lemma RotationKeepsLogClean(content: string)
    requires CleanLog(content) && Terminated(content)
    ensures CleanLog(Rotated(content)) && Terminated(Rotated(content))
  {
    RotationKeepsLastLines(content);
  }

  // ---------------------------------------------------------------- one call

  /** What the file system does at each step that can fail: creating the log directory,
      rewriting the file during rotation, opening it and appending the line. */
  datatype LogIo = LogIo(dirOk: bool, rotateWriteOk: bool, appendOk: bool)

  datatype LogError = CreateDirFailed | RotateFailed | AppendFailed

  /** The size check and `rotate_log`, before anything is appended. */
  function BeforeAppend(content: string, io: LogIo): (r: Result<string, LogError>)
    ensures !NeedsRotation(content) ==> r == Ok(content)
    ensures r.Ok? ==> r.value == content || r.value == Rotated(content)
  {
    if !NeedsRotation(content) then Ok(content)
    else if |Lines(content)| <= KeepCount then Ok(content)
    else if !io.rotateWriteOk then Err(RotateFailed)
    else Ok(Rotated(content))
  }

  /** `try_log_activity`: the file after the call, and whether the call succeeded. */
  function Logged(content: string, line: string, io: LogIo): (Result<(), LogError>, string) {
    if !io.dirOk then (Err(CreateDirFailed), content)
    else match BeforeAppend(content, io)
      case Err(e) => (Err(e), content)
      case Ok(base) => if io.appendOk then (Ok(()), base + line + "\n") else (Err(AppendFailed), base)
  }

  /** The entry recorded for one call: the caller's fields plus the current agent name. */
  function EntryFor(id: string, timestamp: string, tool: string, category: string, path: Option<string>, agent: string, summary: string): (e: ActivityEntry)
    ensures e.tool == tool && e.category == category && e.path == path && e.summary == summary && e.agent == agent
  {
    ActivityEntry(id, timestamp, tool, category, path, agent, summary)
  }

  /** Appending a clean line to a file of whole lines adds exactly that line at the end. */
  lemma {:induction false} LinesAppend(s: string, line: string)
    requires Terminated(s) && CleanLine(line)
    ensures Lines(s + line + "\n") == Lines(s) + [line]
    decreases |s|
  {
    if s == [] {
      assert s + line + "\n" == line + "\n" + "";
      LinesCons(line, "");
    } else {
      var i := IndexOf(s, '\n').value;
      var head, rest := s[..i], s[i + 1..];
      assert s == head + "\n" + rest;
      assert Terminated(rest);
      LinesAppend(rest, line);
      LinesAppendStep(head, rest, line);
    }
  }

  /** The first line of the file stays first when a line is appended at the end. */
  lemma LinesAppendStep(head: string, rest: string, line: string)
    requires '\n' !in head
    requires Lines(rest + line + "\n") == Lines(rest) + [line]
    ensures Lines(head + "\n" + rest + line + "\n") == Lines(head + "\n" + rest) + [line]
  {
    Regroup(head, rest, line);
    LinesCons(head, rest + line + "\n");
    LinesCons(head, rest);
    AppendLast(StripCR(head), Lines(rest), line);
  }

  lemma Regroup(head: string, rest: string, line: string)
    ensures head + "\n" + rest + line + "\n" == head + "\n" + (rest + line + "\n")
  {
  }

  lemma AppendLast(first: string, lines: seq<string>, line: string)
    ensures [first] + (lines + [line]) == [first] + lines + [line]
  {
  }

  /** One successful call appends exactly one line, the new entry, after the file as the
      size check left it; a file under the limit is not rotated at all. */
  lemma SuccessfulLogAppendsOneLine(content: string, line: string, io: LogIo)
    requires Terminated(content) && CleanLog(content) && CleanLine(line)
    requires Logged(content, line, io).0.Ok?
    ensures var base := BeforeAppend(content, io).value;
      && Lines(Logged(content, line, io).1) == Lines(base) + [line]
      && (NeedsRotation(content) ==> Lines(base) == LastN(Lines(content), KeepCount))
      && (!NeedsRotation(content) ==> Lines(Logged(content, line, io).1) == Lines(content) + [line])
  {
    var base := BeforeAppend(content, io).value;
    RotationKeepsLogClean(content);
    LinesAppend(base, line);
    if NeedsRotation(content) {
      RotationKeepsLastLines(content);
      if |Lines(content)| <= KeepCount {
        assert LastN(Lines(content), KeepCount) == Lines(content);
      }
    }
  }

  /** Every call, successful or not, leaves a file of whole, clean lines. */
  lemma LogKeepsLogClean(content: string, line: string, io: LogIo)
    requires Terminated(content) && CleanLog(content) && CleanLine(line)
    ensures var after := Logged(content, line, io).1;
      Terminated(after) && CleanLog(after)
  {
    var after := Logged(content, line, io).1;
    RotationKeepsLogClean(content);
    if Logged(content, line, io).0.Ok? {
      var base := BeforeAppend(content, io).value;
      LinesAppend(base, line);
      var w := base + line + "\n";
      assert after == w && w[|w| - 1] == '\n';
      assert forall k :: 0 <= k < |Lines(w)| ==> Lines(w)[k] == (Lines(base) + [line])[k];
    }
  }

  /** The summary `log_connect` records. */
  function ConnectSummary(agent: string): string {
    agent + " linked via MCP"
  }

  // ---------------------------------------------------------------- the process state

  /** The process-wide agent name and the log file it appends to. */
  class ActivityLog {
    var agent: string
    var content: string

    /** At start-up the agent name is the generic one; the file holds what earlier runs
        wrote. */
    constructor(existing: string)
      ensures agent == DefaultAgent && content == existing
    {
      agent := DefaultAgent;
      content := existing;
    }

    /** `set_agent_name`, from the client's `initialize` request. */
    method SetAgentName(name: string)
      modifies this
      ensures agent == name && content == old(content)
    {
      agent := name;
    }

    /** `try_log_activity`. */
    method TryLogActivity(tool: string, category: string, path: Option<string>, summary: string,
                          id: string, timestamp: string, encode: ActivityEntry -> string, io: LogIo)
      returns (r: Result<(), LogError>)
      modifies this
      ensures agent == old(agent)
      ensures var line := encode(EntryFor(id, timestamp, tool, category, path, old(agent), summary));
        (r, content) == Logged(old(content), line, io)
    {
      if !io.dirOk {
        return Err(CreateDirFailed);
      }
      if NeedsRotation(content) {
        var lines := Lines(content);
        if |lines| > KeepCount {
          if !io.rotateWriteOk {
            return Err(RotateFailed);
          }
          content := Join(lines[|lines| - KeepCount..], "\n") + "\n";
        }
      }
      assert BeforeAppend(old(content), io) == Ok(content);
      var entry := ActivityEntry(id, timestamp, tool, category, path, agent, summary);
      var json := encode(entry);
      if !io.appendOk {
        return Err(AppendFailed);
      }
      content := content + json + "\n";
      r := Ok(());
    }

    /** `log_activity`: the same, with any failure dropped. */
    method LogActivity(tool: string, category: string, path: Option<string>, summary: string,
                       id: string, timestamp: string, encode: ActivityEntry -> string, io: LogIo)
      modifies this
      ensures agent == old(agent)
      ensures content == Logged(old(content), encode(EntryFor(id, timestamp, tool, category, path, old(agent), summary)), io).1
    {
      var _ := TryLogActivity(tool, category, path, summary, id, timestamp, encode, io);
    }

    /** `log_connect`: a "system" entry without a path, naming the current agent. */
    method LogConnect(id: string, timestamp: string, encode: ActivityEntry -> string, io: LogIo)
      modifies this
      ensures agent == old(agent)
      ensures content == Logged(old(content), encode(ActivityEntry(id, timestamp, "system", "system", None, old(agent), ConnectSummary(old(agent)))), io).1
    {
      LogActivity("system", "system", None, agent + " linked via MCP", id, timestamp, encode, io);
    }
  }
}
