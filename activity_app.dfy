/** The desktop application's view of the activity log: it reads the whole file, keeps the
    lines that parse, orders them newest first, and answers the activity page (filter by
    category, then one page) and the connected-agents summary. JSON parsing (`decode`) and
    timestamp parsing (`parse`, to nanoseconds) are parameters; `now` is the clock. */
module ActivityApp {
  import opened Wrappers
  import opened Text
  import opened Sorting
  import opened ActivityServer

  // ---------------------------------------------------------------- reading the file

  /** A file that cannot be read reads as empty. */
  function Contents(file: Option<string>): string {
    if file.Some? then file.value else ""
  }

  /** `filter_map(|line| serde_json::from_str(line).ok())`. */
  function Parsed(lines: seq<string>, decode: string -> Option<ActivityEntry>): (r: seq<ActivityEntry>)
    ensures |r| <= |lines|
  {
    if lines == [] then []
    else
      var last := decode(lines[|lines| - 1]);
      Parsed(lines[..|lines| - 1], decode) + (if last.Some? then [last.value] else [])
  }

  predicate FromSomeLine(lines: seq<string>, decode: string -> Option<ActivityEntry>, e: ActivityEntry) {
    exists j :: 0 <= j < |lines| && decode(lines[j]) == Some(e)
  }

  /** Every entry comes from a line that parses to it. */
  lemma {:induction false} ParsedFromLines(lines: seq<string>, decode: string -> Option<ActivityEntry>)
    ensures forall k :: 0 <= k < |Parsed(lines, decode)| ==> FromSomeLine(lines, decode, Parsed(lines, decode)[k])
  {
    if lines != [] {
      var n := |lines|;
      var init := lines[..n - 1];
      ParsedFromLines(init, decode);
      var before := Parsed(init, decode);
      var r := Parsed(lines, decode);
      var last := decode(lines[n - 1]);
      assert r == before + (if last.Some? then [last.value] else []);
      forall k | 0 <= k < |r| ensures FromSomeLine(lines, decode, r[k]) {
        if k < |before| {
          assert r[k] == before[k];
          assert FromSomeLine(init, decode, before[k]);
          var j :| 0 <= j < |init| && decode(init[j]) == Some(before[k]);
          assert lines[j] == init[j];
        } else {
          assert last.Some? && r[k] == last.value;
          assert decode(lines[n - 1]) == Some(r[k]);
        }
      }
    }
  }

  /** Every line that parses gives an entry. */
  lemma {:induction false} ParsedKeepsLines(lines: seq<string>, decode: string -> Option<ActivityEntry>, j: nat)
    requires j < |lines| && decode(lines[j]).Some?
    ensures decode(lines[j]).value in Parsed(lines, decode)
  {
    var n := |lines|;
    var init := lines[..n - 1];
    if j < n - 1 {
      assert init[j] == lines[j];
      ParsedKeepsLines(init, decode, j);
    }
  }

  /** `b.timestamp.cmp(&a.timestamp)`: `a` may come first when its timestamp is not older. */
  predicate NewerFirst(a: ActivityEntry, b: ActivityEntry) {
    StrLe(b.timestamp, a.timestamp)
  }

  /** `read_all_logs`. */
  function ReadAllLogs(file: Option<string>, decode: string -> Option<ActivityEntry>): seq<ActivityEntry> {
    SortBy(Parsed(Lines(Contents(file)), decode), NewerFirst)
  }

  lemma NewerFirstTotal()
    ensures Total(NewerFirst)
  {
    forall a: ActivityEntry, b: ActivityEntry ensures NewerFirst(a, b) || NewerFirst(b, a) {
      StrLeTotal(a.timestamp, b.timestamp);
    }
  }

  /** The log is every parsed entry, newest first. */
  lemma ReadAllLogsNewestFirst(file: Option<string>, decode: string -> Option<ActivityEntry>)
    ensures multiset(ReadAllLogs(file, decode)) == multiset(Parsed(Lines(Contents(file)), decode))
    ensures SortedBy(ReadAllLogs(file, decode), NewerFirst)
  {
    NewerFirstTotal();
    SortBySorted(Parsed(Lines(Contents(file)), decode), NewerFirst);
  }

  function AtTime(t: string): ActivityEntry -> bool {
    (e: ActivityEntry) => e.timestamp == t
  }

  /** Entries with the same timestamp stay in the order of the file's lines. */
  lemma SameTimestampKeepsFileOrder(file: Option<string>, decode: string -> Option<ActivityEntry>, t: string)
    ensures Filter(ReadAllLogs(file, decode), AtTime(t)) == Filter(Parsed(Lines(Contents(file)), decode), AtTime(t))
  {
    StrLeReflexive(t);
    SortByStable(Parsed(Lines(Contents(file)), decode), NewerFirst, AtTime(t));
  }

  /** Ordered adjacent pairs order every pair: no entry is newer than one before it. */
  lemma {:induction false} NewestFirstEverywhere(s: seq<ActivityEntry>, i: nat, j: nat)
    requires SortedBy(s, NewerFirst) && i <= j < |s|
    ensures StrLe(s[j].timestamp, s[i].timestamp)
    decreases j - i
  {
    if i == j {
      StrLeTotal(s[i].timestamp, s[i].timestamp);
    } else {
      NewestFirstEverywhere(s, i + 1, j);
      assert NewerFirst(s[i], s[i + 1]);
      StrLeTransitive(s[j].timestamp, s[i + 1].timestamp, s[i].timestamp);
    }
  }

  // ---------------------------------------------------------------- the activity page

  /** No category, "all" and "" all mean every entry. */
  predicate AllCategories(category: Option<string>) {
    category.None? || category.value == "all" || category.value == ""
  }

  function ByCategory(entries: seq<ActivityEntry>, category: string): (r: seq<ActivityEntry>)
    ensures |r| <= |entries|
    ensures forall k :: 0 <= k < |r| ==> r[k].category == category
  {
    if entries == [] then []
    else
      var last := entries[|entries| - 1];
      ByCategory(entries[..|entries| - 1], category) + (if last.category == category then [last] else [])
  }

  /** Every entry of the category is kept. */
  lemma {:induction false} ByCategoryKeeps(entries: seq<ActivityEntry>, category: string, k: nat)
    requires k < |entries| && entries[k].category == category
    ensures entries[k] in ByCategory(entries, category)
  {
    var init := entries[..|entries| - 1];
    if k < |entries| - 1 {
      assert init[k] == entries[k];
      ByCategoryKeeps(init, category, k);
    }
  }

  /** The category dispatch of `get_activity_log`: None, "all" and "" keep everything, any
      other category keeps only its own entries. */
  function Filtered(entries: seq<ActivityEntry>, category: Option<string>): (r: seq<ActivityEntry>)
    ensures |r| <= |entries|
    ensures AllCategories(category) ==> r == entries
    ensures !AllCategories(category) ==> forall k :: 0 <= k < |r| ==> r[k].category == category.value
  {
    if AllCategories(category) then entries else ByCategory(entries, category.value)
  }

  /** `skip(offset).take(limit)`. */
  function Paged<T>(s: seq<T>, offset: nat, limit: nat): (r: seq<T>)
    ensures |r| == Min(limit, Max(0, |s| - offset))
    ensures forall k :: 0 <= k < |r| ==> r[k] == s[offset + k]
  {
    if offset >= |s| then [] else s[offset..Min(offset + limit, |s|)]
  }

  /** Two consecutive pages are the page that spans both. */
  lemma PagesAdjoin<T>(s: seq<T>, offset: nat, first: nat, second: nat)
    ensures Paged(s, offset, first) + Paged(s, offset + first, second) == Paged(s, offset, first + second)
  {
    var a := Paged(s, offset, first);
    var b := Paged(s, offset + first, second);
    var c := Paged(s, offset, first + second);
    assert |a + b| == |c|;
    forall k | 0 <= k < |c| ensures (a + b)[k] == c[k] {
      if k >= |a| {
        assert (a + b)[k] == b[k - |a|];
      }
    }
  }

  /** `get_activity_log`. */
  function GetActivityLog(file: Option<string>, decode: string -> Option<ActivityEntry>, limit: nat, offset: nat, category: Option<string>): seq<ActivityEntry> {
    Paged(Filtered(ReadAllLogs(file, decode), category), offset, limit)
  }

  /** A page holds `limit` entries of the category from position `offset` on, in
      newest-first order, or fewer at the end; a specific category admits nothing else. */
  lemma ActivityPage(file: Option<string>, decode: string -> Option<ActivityEntry>, limit: nat, offset: nat, category: Option<string>)
    ensures var all := ReadAllLogs(file, decode);
      var filtered := Filtered(all, category);
      var page := GetActivityLog(file, decode, limit, offset, category);
      && |page| == Min(limit, Max(0, |filtered| - offset))
      && (forall k :: 0 <= k < |page| ==> page[k] == filtered[offset + k])
      && (AllCategories(category) ==> filtered == all)
      && (!AllCategories(category) ==> forall k :: 0 <= k < |page| ==> page[k].category == category.value)
      && (!AllCategories(category) ==> forall k :: 0 <= k < |all| && all[k].category == category.value ==> all[k] in filtered)
  {
    var all := ReadAllLogs(file, decode);
    if !AllCategories(category) {
      forall k | 0 <= k < |all| && all[k].category == category.value ensures all[k] in Filtered(all, category) {
        ByCategoryKeeps(all, category.value, k);
      }
    }
  }

  // ---------------------------------------------------------------- connected agents

  const FiveMinutesNanos: int := 5 * 60 * 1_000_000_000

  predicate Known(seen: seq<(string, string)>, name: string) {
    exists k :: 0 <= k < |seen| && seen[k].0 == name
  }

  /** `agents_map.entry(agent).or_insert_with(timestamp)` over the entries in order, as an
      association list in insertion order: the first timestamp seen for each agent. */
  function Seen(entries: seq<ActivityEntry>): (r: seq<(string, string)>)
    ensures |r| <= |entries|
  {
    if entries == [] then []
    else
      var before := Seen(entries[..|entries| - 1]);
      var e := entries[|entries| - 1];
      if Known(before, e.agent) then before else before + [(e.agent, e.timestamp)]
  }

  /** The map fill loop. */
  method FirstSeen(entries: seq<ActivityEntry>) returns (seen: seq<(string, string)>)
    ensures seen == Seen(entries)
  {
    seen := [];
    for i := 0 to |entries|
      invariant seen == Seen(entries[..i])
    {
      var prefix := entries[..i + 1];
      assert prefix[..|prefix| - 1] == entries[..i];
      var entry := entries[i];
      var present := false;
      for k := 0 to |seen|
        invariant present <==> exists j :: 0 <= j < k && seen[j].0 == entry.agent
      {
        if seen[k].0 == entry.agent {
          present := true;
        }
      }
      if !present {
        seen := seen + [(entry.agent, entry.timestamp)];
      }
    }
    assert entries[..|entries|] == entries;
  }

  predicate DistinctNames(seen: seq<(string, string)>) {
    forall i, j :: 0 <= i < j < |seen| ==> seen[i].0 != seen[j].0
  }

  /** One record per agent. */
  lemma {:induction false} SeenDistinct(entries: seq<ActivityEntry>)
    ensures DistinctNames(Seen(entries))
  {
    if entries != [] {
      var init := entries[..|entries| - 1];
      var e := entries[|entries| - 1];
      SeenDistinct(init);
      var before := Seen(init);
      if !Known(before, e.agent) {
        var r := before + [(e.agent, e.timestamp)];
        forall i, j | 0 <= i < j < |r| ensures r[i].0 != r[j].0 {
          if j == |before| {
            assert r[i] == before[i];
            assert before[i].0 != e.agent;
          } else {
            assert r[i] == before[i] && r[j] == before[j];
          }
        }
      }
    }
  }

  /** Every agent of the log has a record. */
  lemma {:induction false} SeenCoversAgents(entries: seq<ActivityEntry>, k: nat)
    requires k < |entries|
    ensures Known(Seen(entries), entries[k].agent)
  {
    var n := |entries|;
    var init := entries[..n - 1];
    var before := Seen(init);
    var r := Seen(entries);
    assert forall i :: 0 <= i < |before| ==> r[i] == before[i];
    if k < n - 1 {
      assert init[k] == entries[k];
      SeenCoversAgents(init, k);
      var i :| 0 <= i < |before| && before[i].0 == init[k].agent;
      assert r[i].0 == entries[k].agent;
    } else if !Known(before, entries[k].agent) {
      assert r[|before|].0 == entries[k].agent;
    }
  }

  /** Each record holds the timestamp of its agent's first entry. */
  lemma {:induction false} SeenIsFirstTimestamp(entries: seq<ActivityEntry>, i: nat)
    requires i < |Seen(entries)|
    ensures exists k :: (0 <= k < |entries| && FirstOf(entries, k) &&
      entries[k].agent == Seen(entries)[i].0 && entries[k].timestamp == Seen(entries)[i].1)
  {
    var n := |entries|;
    var init := entries[..n - 1];
    var e := entries[n - 1];
    var before := Seen(init);
    var r := Seen(entries);
    if i < |before| {
      assert r[i] == before[i];
      SeenIsFirstTimestamp(init, i);
      var k :| 0 <= k < |init| && FirstOf(init, k) && init[k].agent == before[i].0 && init[k].timestamp == before[i].1;
      assert init[k] == entries[k];
      assert FirstOf(entries, k) by {
        forall j | 0 <= j < k ensures entries[j].agent != entries[k].agent {
          assert init[j] == entries[j];
        }
      }
    } else {
      assert !Known(before, e.agent) && r[i] == (e.agent, e.timestamp);
      assert FirstOf(entries, n - 1) by {
        forall j | 0 <= j < n - 1 ensures entries[j].agent != e.agent {
          assert init[j] == entries[j];
          SeenCoversAgents(init, j);
        }
      }
    }
  }

  /** Entry `k` is its agent's first. */
  predicate FirstOf(entries: seq<ActivityEntry>, k: nat)
    requires k < |entries|
  {
    forall j :: 0 <= j < k ==> entries[j].agent != entries[k].agent
  }

  /** Read newest first, an agent's first entry is its newest: `last_seen` is not older
      than any entry of that agent. */
  lemma LastSeenIsNewest(entries: seq<ActivityEntry>, i: nat, k: nat)
    requires SortedBy(entries, NewerFirst)
    requires i < |Seen(entries)| && k < |entries| && entries[k].agent == Seen(entries)[i].0
    ensures StrLe(entries[k].timestamp, Seen(entries)[i].1)
  {
    SeenIsFirstTimestamp(entries, i);
    var r := Seen(entries);
    var f :| 0 <= f < |entries| && FirstOf(entries, f) && entries[f].agent == r[i].0 && entries[f].timestamp == r[i].1;
    assert f <= k;
    NewestFirstEverywhere(entries, f, k);
  }

  datatype ConnectedAgent = ConnectedAgent(name: string, lastSeen: string, status: string)

  /** "connected" iff the timestamp parses and lies less than five minutes before now. */
  function Status(lastSeen: string, parse: string -> Option<int>, now: int): (s: string)
    ensures s == "connected" <==> parse(lastSeen).Some? && now - parse(lastSeen).value < FiveMinutesNanos
  {
    match parse(lastSeen)
    case Some(t) => if now - t < FiveMinutesNanos then "connected" else "disconnected"
    case None => "disconnected"
  }

  function Records(seen: seq<(string, string)>, parse: string -> Option<int>, now: int): (r: seq<ConnectedAgent>)
    ensures |r| == |seen|
    ensures forall k :: 0 <= k < |r| ==> r[k] == ConnectedAgent(seen[k].0, seen[k].1, Status(seen[k].1, parse, now))
  {
    seq(|seen|, k requires 0 <= k < |seen| => ConnectedAgent(seen[k].0, seen[k].1, Status(seen[k].1, parse, now)))
  }

  predicate ByName(a: ConnectedAgent, b: ConnectedAgent) {
    StrLe(a.name, b.name)
  }

  /** `get_connected_agents`. The map's iteration order is taken as insertion order; the
      sort by (distinct) names fixes the result whatever that order is. */
  function ConnectedAgents(file: Option<string>, decode: string -> Option<ActivityEntry>, parse: string -> Option<int>, now: int): seq<ConnectedAgent> {
    SortBy(Records(Seen(ReadAllLogs(file, decode)), parse, now), ByName)
  }

  /** The summary is the per-agent records, sorted by name. */
  lemma ConnectedAgentsSorted(file: Option<string>, decode: string -> Option<ActivityEntry>, parse: string -> Option<int>, now: int)
    ensures var agents := ConnectedAgents(file, decode, parse, now);
      && SortedBy(agents, ByName)
      && multiset(agents) == multiset(Records(Seen(ReadAllLogs(file, decode)), parse, now))
  {
    assert Total(ByName) by {
      forall a: ConnectedAgent, b: ConnectedAgent ensures ByName(a, b) || ByName(b, a) {
        StrLeTotal(a.name, b.name);
      }
    }
    SortBySorted(Records(Seen(ReadAllLogs(file, decode)), parse, now), ByName);
  }

  predicate HasRecord(records: seq<ConnectedAgent>, name: string) {
    exists i :: 0 <= i < |records| && records[i].name == name
  }

  /** There is exactly one record for each agent of the log. */
  lemma OneRecordPerAgent(file: Option<string>, decode: string -> Option<ActivityEntry>, parse: string -> Option<int>, now: int)
    ensures var all := ReadAllLogs(file, decode);
      var records := Records(Seen(all), parse, now);
      && (forall i, j :: 0 <= i < j < |records| ==> records[i].name != records[j].name)
      && (forall k :: 0 <= k < |all| ==> HasRecord(records, all[k].agent))
  {
    var all := ReadAllLogs(file, decode);
    var seen := Seen(all);
    var records := Records(seen, parse, now);
    SeenDistinct(all);
    forall k | 0 <= k < |all| ensures HasRecord(records, all[k].agent) {
      SeenCoversAgents(all, k);
      var i :| 0 <= i < |seen| && seen[i].0 == all[k].agent;
      assert records[i].name == all[k].agent;
    }
  }

  /** Each record's `last_seen` is its agent's newest timestamp. */
  lemma AgentRecordsAreNewest(file: Option<string>, decode: string -> Option<ActivityEntry>, parse: string -> Option<int>, now: int)
    ensures var all := ReadAllLogs(file, decode);
      var records := Records(Seen(all), parse, now);
      forall i, k :: 0 <= i < |records| && 0 <= k < |all| && all[k].agent == records[i].name ==> StrLe(all[k].timestamp, records[i].lastSeen)
  {
    var all := ReadAllLogs(file, decode);
    var records := Records(Seen(all), parse, now);
    ReadAllLogsNewestFirst(file, decode);
    forall i, k | 0 <= i < |records| && 0 <= k < |all| && all[k].agent == records[i].name
      ensures StrLe(all[k].timestamp, records[i].lastSeen)
    {
      LastSeenIsNewest(all, i, k);
    }
  }

  // ---------------------------------------------------------------- clearing

  /** The log file as the application sees it (`None` when it cannot be read). */
  class LogFile {
    var file: Option<string>

    constructor(initial: Option<string>)
      ensures file == initial
    {
      file := initial;
    }

    /** `clear_activity_log`: the file is overwritten with nothing. */
    method Clear(writeOk: bool) returns (r: Result<(), string>)
      modifies this
      ensures writeOk ==> r.Ok? && file == Some("")
      ensures !writeOk ==> r.Err? && file == old(file)
    {
      if !writeOk {
        return Err("write failed");
      }
      file := Some("");
      r := Ok(());
    }
  }

  /** After clearing, every query is empty. */
  lemma ClearedLogIsEmpty(decode: string -> Option<ActivityEntry>, parse: string -> Option<int>, now: int, limit: nat, offset: nat, category: Option<string>)
    ensures ReadAllLogs(Some(""), decode) == []
    ensures GetActivityLog(Some(""), decode, limit, offset, category) == []
    ensures ConnectedAgents(Some(""), decode, parse, now) == []
  {
  }

  // ---------------------------------------------------------------- both sides

  /** What the server logs, the application shows: when the decoder reads the encoder's
      line back, an entry logged successfully appears in the next `read_all_logs`. */
  lemma LoggedEntryIsShown(content: string, e: ActivityEntry, encode: ActivityEntry -> string, decode: string -> Option<ActivityEntry>, io: LogIo)
    requires decode(encode(e)) == Some(e)
    requires Terminated(content) && CleanLog(content) && CleanLine(encode(e))
    requires Logged(content, encode(e), io).0.Ok?
    ensures e in ReadAllLogs(Some(Logged(content, encode(e), io).1), decode)
  {
    var after := Logged(content, encode(e), io).1;
    SuccessfulLogAppendsOneLine(content, encode(e), io);
    var lines := Lines(after);
    assert lines[|lines| - 1] == encode(e);
    ParsedKeepsLines(lines, decode, |lines| - 1);
    var parsed := Parsed(lines, decode);
    assert e in parsed;
    assert e in multiset(parsed);
    ReadAllLogsNewestFirst(Some(after), decode);
    assert e in multiset(ReadAllLogs(Some(after), decode));
  }
}
