/** The server's command line: `--transport sse`, `--port N` and `--allowed-origins a,b`,
    read left to right from the second argument on; anything else is skipped, and a flag
    whose value is missing or unusable leaves its default. */
module ServerCli {
  import opened Wrappers
  import opened Text
  import SseCommands

  const DefaultPort: nat := 3199
  const U16Max: nat := 65535
  const DefaultOrigins: seq<string> :=
    ["https://chatgpt.com", "https://gemini.google.com", "https://claude.ai", "https://aistudio.google.com"]

  datatype CliOptions = CliOptions(useSse: bool, port: nat, allowedOrigins: seq<string>)

  /** stdio transport, port 3199, the four assistant web origins. */
  function Defaults(): CliOptions {
    CliOptions(false, DefaultPort, DefaultOrigins)
  }

  predicate AllDigits(s: string) {
    forall k :: 0 <= k < |s| ==> IsDigit(s[k])
  }

  /** `str::parse::<u16>`: an optional leading '+', then one or more decimal digits
      (leading zeros allowed) whose value fits in 16 bits. */
  function ParseU16(s: string): (r: Option<nat>)
    ensures r.Some? ==> r.value <= U16Max
    ensures r.Some? ==> s != [] && (IsDigit(s[0]) || s[0] == '+')
  {
    var digits := if s != [] && s[0] == '+' then s[1..] else s;
    if digits == [] || !AllDigits(digits) then None
    else if DigitsValue(digits) > U16Max then None
    else Some(DigitsValue(digits))
  }

  /** Every port the application passes is read back unchanged. */
  lemma ParseU16OfNatToString(port: nat)
    requires port <= U16Max
    ensures ParseU16(NatToString(port)) == Some(port)
  {
    DigitsValueOfNatToString(port);
  }

  /** A leading '+' is accepted; a lone sign, a minus sign and an empty value are not. */
  lemma ParseU16Signs(port: nat)
    requires port <= U16Max
    ensures ParseU16("+" + NatToString(port)) == Some(port)
    ensures ParseU16("") == None && ParseU16("+") == None
    ensures ParseU16("-" + NatToString(port)) == None
  {
    var plus := "+" + NatToString(port);
    assert plus[1..] == NatToString(port);
    DigitsValueOfNatToString(port);
    var minus := "-" + NatToString(port);
    assert !IsDigit(minus[0]);
  }

  function TrimAll(parts: seq<string>): seq<string> {
    seq(|parts|, k requires 0 <= k < |parts| => Trim(parts[k]))
  }

  predicate IsFlag(arg: string) {
    arg == "--transport" || arg == "--port" || arg == "--allowed-origins"
  }

  /** One turn of the loop at argument `i`: a flag looks at the argument after it. */
  function Step(args: seq<string>, i: nat, o: CliOptions): CliOptions
    requires i < |args|
  {
    var j := i + 1;
    if args[i] == "--transport" then
      if j < |args| && args[j] == "sse" then o.(useSse := true) else o
    else if args[i] == "--port" then
      if j < |args| && ParseU16(args[j]).Some? then o.(port := ParseU16(args[j]).value) else o
    else if args[i] == "--allowed-origins" then
      if j < |args| && Trim(args[j]) != "" then o.(allowedOrigins := TrimAll(Split(args[j], ','))) else o
    else o
  }

  /** Where the next turn starts: a flag consumes its value too. */
  function Next(args: seq<string>, i: nat): nat
    requires i < |args|
  {
    if IsFlag(args[i]) then i + 2 else i + 1
  }

  function ParseFrom(args: seq<string>, i: nat, o: CliOptions): CliOptions
    decreases |args| - i
  {
    if i >= |args| then o else ParseFrom(args, Next(args, i), Step(args, i, o))
  }

  /** The options the command line `args` (program name first) selects. */
  function Parsed(args: seq<string>): CliOptions {
    ParseFrom(args, 1, Defaults())
  }

  /** The argument loop as the server runs it. */
  method ParseArgs(args: seq<string>) returns (opts: CliOptions)
    ensures opts == Parsed(args)
  {
    var useSse := false;
    var port := DefaultPort;
    var allowedOrigins := DefaultOrigins;
    var i := 1;
    while i < |args|
      invariant ParseFrom(args, i, CliOptions(useSse, port, allowedOrigins)) == Parsed(args)
      decreases |args| - i
    {
      if args[i] == "--transport" {
        i := i + 1;
        if i < |args| && args[i] == "sse" {
          useSse := true;
        }
      } else if args[i] == "--port" {
        i := i + 1;
        if i < |args| {
          var p := ParseU16(args[i]);
          if p.Some? {
            port := p.value;
          }
        }
      } else if args[i] == "--allowed-origins" {
        i := i + 1;
        if i < |args| {
          var arg := args[i];
          if Trim(arg) != "" {
            allowedOrigins := TrimAll(Split(arg, ','));
          }
        }
      }
      i := i + 1;
    }
    opts := CliOptions(useSse, port, allowedOrigins);
  }

  // ---------------------------------------------------------------- properties

  /** Where the loop stops when started at `i`. */
  function StopsAt(args: seq<string>, i: nat): nat
    decreases |args| - i
  {
    if i >= |args| then i else StopsAt(args, Next(args, i))
  }

  /** A command line without any flag selects the defaults. */
  lemma {:induction false} NoFlagsNoChange(args: seq<string>, i: nat, o: CliOptions)
    requires forall k :: i <= k < |args| ==> !IsFlag(args[k])
    ensures ParseFrom(args, i, o) == o
    decreases |args| - i
  {
    if i < |args| {
      NoFlagsNoChange(args, i + 1, o);
    }
  }

  /** The loop over `a + b` first runs over `a` as if `b` were not there, when that run
      ends exactly at the end of `a`. */
  lemma {:induction false} ParseAppend(a: seq<string>, b: seq<string>, i: nat, o: CliOptions)
    requires i <= |a| && StopsAt(a, i) == |a|
    ensures ParseFrom(a + b, i, o) == ParseFrom(a + b, |a|, ParseFrom(a, i, o))
    decreases |a| - i
  {
    if i < |a| {
      var ab := a + b;
      assert ab[i] == a[i];
      if IsFlag(a[i]) {
        assert ab[i + 1] == a[i + 1];
      }
      assert Step(ab, i, o) == Step(a, i, o);
      ParseAppend(a, b, Next(a, i), Step(a, i, o));
    }
  }

  /** A later `--port` overrides an earlier one, and leaves the other options as they
      were. */
  lemma LaterPortWins(args: seq<string>, value: string)
    requires 1 <= |args| && StopsAt(args, 1) == |args|
    requires ParseU16(value).Some?
    ensures Parsed(args + ["--port", value]) == Parsed(args).(port := ParseU16(value).value)
  {
    ParseAppend(args, ["--port", value], 1, Defaults());
    var ab := args + ["--port", value];
    assert ab[|args|] == "--port" && ab[|args| + 1] == value;
  }

  /** A flag at the very end, with no value after it, changes nothing. */
  lemma TrailingFlagIgnored(args: seq<string>, flag: string)
    requires 1 <= |args| && StopsAt(args, 1) == |args|
    requires IsFlag(flag)
    ensures Parsed(args + [flag]) == Parsed(args)
  {
    ParseAppend(args, [flag], 1, Defaults());
    var ab := args + [flag];
    assert ab[|args|] == flag;
  }

  /** The server runs SSE only when `--transport` is followed by exactly "sse". */
  lemma TransportNeedsSse(prog: string, value: string)
    ensures Parsed([prog, "--transport", value]).useSse <==> value == "sse"
  {
    var args := [prog, "--transport", value];
    assert args[1] == "--transport" && args[2] == value;
    var o := Step(args, 1, Defaults());
    assert o.useSse <==> value == "sse";
    assert Parsed(args) == ParseFrom(args, 3, o) == o;
  }

  /** A character that is not white space survives trimming. */
  lemma {:induction false} TrimStartKeeps(s: string, k: nat)
    requires k < |s| && !IsWhitespace(s[k])
    ensures |s| - |TrimStart(s)| <= k
    decreases |s|
  {
    if IsWhitespace(s[0]) {
      TrimStartKeeps(s[1..], k - 1);
    }
  }

  lemma {:induction false} TrimEndKeeps(s: string, k: nat)
    requires k < |s| && !IsWhitespace(s[k])
    ensures k < |TrimEnd(s)|
    decreases |s|
  {
    if IsWhitespace(s[|s| - 1]) {
      TrimEndKeeps(s[..|s| - 1], k);
    }
  }

  lemma NotBlank(s: string, k: nat)
    requires k < |s| && !IsWhitespace(s[k])
    ensures Trim(s) != ""
  {
    TrimStartKeeps(s, k);
    var t := TrimStart(s);
    var off := |s| - |t|;
    assert t[k - off] == s[k];
    TrimEndKeeps(t, k - off);
  }

  /** The comma-joined origins are not blank unless they are a single empty origin. */
  lemma JoinedNotBlank(origins: seq<string>)
    requires origins != [] && origins != [""]
    requires forall k :: 0 <= k < |origins| ==> NoSurroundingSpace(origins[k])
    ensures Trim(Join(origins, ",")) != ""
  {
    var joined := Join(origins, ",");
    if |origins| == 1 {
      assert joined == origins[0] && origins[0] != "";
      NotBlank(joined, 0);
    } else {
      var first := origins[0];
      assert joined == first + "," + Join(origins[1..], ",");
      assert joined[|first|] == ',';
      NotBlank(joined, |first|);
    }
  }

  /** Splitting the comma-joined origins and trimming the pieces gives the origins back. */
  lemma SplitTrimJoin(origins: seq<string>)
    requires origins != []
    requires forall k :: 0 <= k < |origins| ==> ',' !in origins[k] && NoSurroundingSpace(origins[k])
    ensures TrimAll(Split(Join(origins, ","), ',')) == origins
  {
    SplitJoin(origins, ',');
    TrimAllNoop(origins);
  }

  lemma TrimAllNoop(parts: seq<string>)
    requires forall k :: 0 <= k < |parts| ==> NoSurroundingSpace(parts[k])
    ensures TrimAll(parts) == parts
  {
    forall k | 0 <= k < |parts| ensures Trim(parts[k]) == parts[k] {
      TrimNoop(parts[k]);
    }
  }

  /** The command line the application builds for the sidecar is read back as SSE on the
      same port with the same origins, when no origin holds a comma or surrounding white
      space. A single empty origin is the exception: it joins to a blank value, which the
      server ignores in favour of its defaults. */
  lemma BuildArgsRoundTrip(prog: string, port: nat, origins: seq<string>)
    requires port <= U16Max
    requires forall k :: 0 <= k < |origins| ==> ',' !in origins[k] && NoSurroundingSpace(origins[k])
    requires origins != [""]
    ensures Parsed([prog] + SseCommands.BuildArgs(port, origins))
      == CliOptions(true, port, if origins == [] then DefaultOrigins else origins)
  {
    var args := [prog] + SseCommands.BuildArgs(port, origins);
    ParseU16OfNatToString(port);
    assert args[1] == "--transport" && args[2] == "sse" && args[3] == "--port" && args[4] == NatToString(port);
    var o1 := Defaults().(useSse := true);
    assert Step(args, 1, Defaults()) == o1;
    var o3 := o1.(port := port);
    assert Step(args, 3, o1) == o3;
    assert Parsed(args) == ParseFrom(args, 3, o1) == ParseFrom(args, 5, o3);
    if origins != [] {
      assert args[5] == "--allowed-origins" && args[6] == Join(origins, ",");
      JoinedNotBlank(origins);
      SplitTrimJoin(origins);
      var o5 := o3.(allowedOrigins := origins);
      assert Step(args, 5, o3) == o5;
      assert ParseFrom(args, 5, o3) == ParseFrom(args, 7, o5) == o5;
    }
  }
}
