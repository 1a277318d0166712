/** The text kernels of the `patch_file` tool: literal search-and-replace with an
    optional count, and line-range splices applied from the bottom of the file up. */
module PatchText {
  import opened Wrappers
  import opened Text
  import Sorting

  // ---------------------------------------------------------------- literal replacement

  /** `count` of 0 or absent means "all"; otherwise at most that many. */
  function Cap(limit: nat): Option<nat> {
    if limit > 0 then Some(limit) else None
  }

  function CapMeasure(cap: Option<nat>): nat {
    if cap.Some? then cap.value else 0
  }

  /** The text before a match, the replacement, and what follows, rewritten. */
  function Spliced(before: string, rep: string, after: string): string {
    before + rep + after
  }

  /** The cap after one more replacement. */
  function Next(cap: Option<nat>): Option<nat> {
    if cap.Some? && cap.value > 0 then Some(cap.value - 1) else cap
  }

  /** Replace the leftmost occurrence of `pat`, then continue after it, until there is
      none or `cap` replacements have been made; the count made comes with the text.
      An empty pattern with no cap would never stop, which is why it is excluded. */
  function Rewrite(s: string, pat: string, rep: string, cap: Option<nat>): (r: (string, nat))
    requires pat != [] || cap.Some?
    ensures cap.Some? ==> r.1 <= cap.value
    decreases CapMeasure(cap), |s|
  {
    if cap == Some(0) then (s, 0)
    else match Find(s, pat)
      case None => (s, 0)
      case Some(pos) =>
        assert IsAt(s, pat, pos);
        var rest := Rewrite(s[pos + |pat|..], pat, rep, Next(cap));
        (Spliced(s[..pos], rep, rest.0), rest.1 + 1)
  }

  /** One step of `Rewrite` at the leftmost occurrence. */
  lemma {:induction false} RewriteStep(s: string, pat: string, rep: string, cap: Option<nat>, pos: nat)
    requires pat != [] || cap.Some?
    requires cap != Some(0) && Find(s, pat) == Some(pos)
    ensures pos + |pat| <= |s|
    ensures var rest := Rewrite(s[pos + |pat|..], pat, rep, Next(cap));
      Rewrite(s, pat, rep, cap) == (Spliced(s[..pos], rep, rest.0), rest.1 + 1)
  {
    FoundFits(s, pat, pos);
  }

  lemma FoundFits(s: string, pat: string, pos: nat)
    requires Find(s, pat) == Some(pos)
    ensures pos + |pat| <= |s|
  {
  }

  /** `Rewrite` stops when the cap is used up or the pattern is absent. */
  lemma RewriteStops(s: string, pat: string, rep: string, cap: Option<nat>)
    requires pat != [] || cap.Some?
    requires cap == Some(0) || Find(s, pat).None?
    ensures Rewrite(s, pat, rep, cap) == (s, 0)
  {
  }

  /** What is left of the cap after `count` replacements. */
  function Left(limit: nat, count: nat): Option<nat>
    requires limit > 0 ==> count <= limit
  {
    if limit > 0 then Some(limit - count) else None
  }

  /** The loop's invariant: the text built so far followed by the rewrite of what remains
      is the rewrite of the whole, and likewise for the counts. */
  predicate OnTrack(whole: (string, nat), built: string, count: nat, remaining: string, search: string, replace: string, limit: nat)
    requires search != [] || limit > 0
  {
    && (limit > 0 ==> count <= limit)
    && built + Rewrite(remaining, search, replace, Left(limit, count)).0 == whole.0
    && count + Rewrite(remaining, search, replace, Left(limit, count)).1 == whole.1
  }

  /** One turn of the loop keeps it on track. */
  lemma OnTrackStep(whole: (string, nat), built: string, count: nat, remaining: string, search: string, replace: string, limit: nat, pos: nat)
    requires search != [] || limit > 0
    requires OnTrack(whole, built, count, remaining, search, replace, limit)
    requires Find(remaining, search) == Some(pos) && !(limit > 0 && count >= limit)
    ensures pos + |search| <= |remaining|
    ensures OnTrack(whole, built + remaining[..pos] + replace, count + 1, remaining[pos + |search|..], search, replace, limit)
  {
    var cap := Left(limit, count);
    RewriteStep(remaining, search, replace, cap, pos);
    assert Next(cap) == Left(limit, count + 1);
    var rest := Rewrite(remaining[pos + |search|..], search, replace, Next(cap));
    assert built + Spliced(remaining[..pos], replace, rest.0) == (built + remaining[..pos] + replace) + rest.0;
  }

  /** The loop of one literal operation. */
  method ReplaceLiteral(content: string, search: string, replace: string, limit: nat) returns (out: string, count: nat)
    requires search != [] || limit > 0
    ensures (out, count) == Rewrite(content, search, replace, Cap(limit))
  {
    count := 0;
    var newContent := "";
    var remaining := content;
    ghost var whole := Rewrite(content, search, replace, Cap(limit));
    assert Left(limit, 0) == Cap(limit);
    while true
      invariant OnTrack(whole, newContent, count, remaining, search, replace, limit)
      decreases CapMeasure(Left(limit, count)), |remaining|
    {
      var found := Find(remaining, search);
      if found.None? {
        break;
      }
      if limit > 0 && count >= limit {
        break;
      }
      var pos := found.value;
      OnTrackStep(whole, newContent, count, remaining, search, replace, limit, pos);
      newContent := newContent + remaining[..pos] + replace;
      remaining := remaining[pos + |search|..];
      count := count + 1;
    }
    RewriteStops(remaining, search, replace, Left(limit, count));
    out := newContent + remaining;
  }

  /** Each replacement changes the length by |rep| - |pat|. */
  lemma {:induction false} RewriteLength(s: string, pat: string, rep: string, cap: Option<nat>)
    requires pat != [] || cap.Some?
    ensures var r := Rewrite(s, pat, rep, cap);
      |r.0| == |s| + r.1 * (|rep| - |pat|)
    decreases CapMeasure(cap), |s|
  {
    if cap == Some(0) || Find(s, pat).None? {
      RewriteStops(s, pat, rep, cap);
    } else {
      var pos := Find(s, pat).value;
      var tail := s[pos + |pat|..];
      RewriteStep(s, pat, rep, cap, pos);
      RewriteLength(tail, pat, rep, Next(cap));
      var k := Rewrite(tail, pat, rep, Next(cap)).1;
      LengthStep(|s|, pos, |pat|, |rep|, k);
    }
  }

  lemma LengthStep(n: int, pos: int, p: int, q: int, k: int)
    ensures pos + q + (n - pos - p) + k * (q - p) == n + (k + 1) * (q - p)
  {
  }

  /** Replacing a pattern by itself changes nothing. */
  lemma {:induction false} RewriteSelf(s: string, pat: string, cap: Option<nat>)
    requires pat != [] || cap.Some?
    ensures Rewrite(s, pat, pat, cap).0 == s
    decreases CapMeasure(cap), |s|
  {
    if cap != Some(0) && Find(s, pat).Some? {
      var pos := Find(s, pat).value;
      RewriteStep(s, pat, pat, cap, pos);
      RewriteSelf(s[pos + |pat|..], pat, Next(cap));
      Reassembled(s, pat, pos);
    }
  }

  /** The text before a match, the match, and what follows make up the text. */
  lemma Reassembled(s: string, pat: string, pos: nat)
    requires IsAt(s, pat, pos)
    ensures s[..pos] + pat + s[pos + |pat|..] == s
  {
    assert s == s[..pos] + s[pos..pos + |pat|] + s[pos + |pat|..];
  }

  /** A text without the pattern comes back unchanged, with a count of 0. */
  lemma RewriteAbsent(s: string, pat: string, rep: string, cap: Option<nat>)
    requires pat != [] || cap.Some?
    requires !Contains(s, pat)
    ensures Rewrite(s, pat, rep, cap) == (s, 0)
  {
  }

  /** With a count of 1 only the leftmost occurrence is replaced. */
  lemma RewriteFirst(s: string, pat: string, rep: string)
    requires Contains(s, pat)
    ensures var pos := Find(s, pat).value;
      Rewrite(s, pat, rep, Some(1)) == (s[..pos] + rep + s[pos + |pat|..], 1)
  {
  }

  /** The number of leftmost, non-overlapping occurrences. */
  function Occurrences(s: string, pat: string): nat
    requires pat != []
    decreases |s|
  {
    match Find(s, pat)
    case None => 0
    case Some(pos) => 1 + Occurrences(s[pos + |pat|..], pat)
  }

  /** The reported count is the number of non-overlapping occurrences, cut at the cap. */
  lemma {:induction false} RewriteCount(s: string, pat: string, rep: string, cap: Option<nat>)
    requires pat != []
    ensures Rewrite(s, pat, rep, cap).1 == if cap.Some? then Min(cap.value, Occurrences(s, pat)) else Occurrences(s, pat)
    decreases |s|
  {
    if cap != Some(0) && Find(s, pat).Some? {
      var pos := Find(s, pat).value;
      RewriteCount(s[pos + |pat|..], pat, rep, Next(cap));
    }
  }

  function Repeat(s: string, n: nat): string {
    if n == 0 then "" else s + Repeat(s, n - 1)
  }

  /** An empty search string with a count of n matches at the front n times: the
      replacement is prepended n times. */
  lemma {:induction false} EmptySearchPrepends(s: string, rep: string, n: nat)
    ensures Rewrite(s, "", rep, Some(n)) == (Repeat(rep, n) + s, n)
  {
    if n == 0 {
      assert Repeat(rep, 0) + s == s;
    } else {
      assert Next(Some(n)) == Some(n - 1);
      assert IsAt(s, "", 0);
      assert Find(s, "") == Some(0);
      RewriteStep(s, "", rep, Some(n), 0);
      assert s[0..] == s && s[..0] == "";
      EmptySearchPrepends(s, rep, n - 1);
      assert Spliced(s[..0], rep, Repeat(rep, n - 1) + s) == Repeat(rep, n) + s;
    }
  }

  // ---------------------------------------------------------------- the loop as written

  /** The variables of the `while let` loop: the text built so far, the rest still to
      search, and the replacements made. */
  datatype LoopState = LoopState(built: string, remaining: string, count: nat)

  /** One turn of the loop exactly as the code writes it, with no guard on an empty
      search: None when the loop exits, else the state after the turn. */
  function LoopTurn(st: LoopState, search: string, replace: string, limit: nat): (r: Option<LoopState>)
    ensures r.Some? ==> r.value.count == st.count + 1 && |r.value.remaining| <= |st.remaining|
  {
    match Find(st.remaining, search)
    case None => None
    case Some(pos) =>
      if limit > 0 && st.count >= limit then None
      else
        FoundFits(st.remaining, search, pos);
        Some(LoopState(st.built + st.remaining[..pos] + replace, st.remaining[pos + |search|..], st.count + 1))
  }

  /** The state after `n` turns, or None once the loop has exited. */
  function Turns(st: LoopState, search: string, replace: string, limit: nat, n: nat): Option<LoopState>
    decreases n
  {
    if n == 0 then Some(st)
    else match LoopTurn(st, search, replace, limit)
      case None => None
      case Some(next) => Turns(next, search, replace, limit, n - 1)
  }

  /** With an empty search and no count (`limit` 0) the loop never exits: every turn finds
      "" at 0, leaves `remaining` as it was and appends one more replacement, so after any
      number of turns the loop is still running. */
  lemma {:induction false} EmptySearchNeverStops(built: string, content: string, replace: string, count: nat, n: nat)
    ensures Turns(LoopState(built, content, count), "", replace, 0, n)
      == Some(LoopState(built + Repeat(replace, n), content, count + n))
    decreases n
  {
    if n == 0 {
      assert built + Repeat(replace, 0) == built;
    } else {
      assert IsAt(content, "", 0);
      assert Find(content, "") == Some(0);
      assert built + content[..0] + replace == built + replace;
      assert content[0 + |""|..] == content;
      var next := LoopState(built + replace, content, count + 1);
      assert LoopTurn(LoopState(built, content, count), "", replace, 0) == Some(next);
      EmptySearchNeverStops(built + replace, content, replace, count + 1, n - 1);
      assert built + replace + Repeat(replace, n - 1) == built + Repeat(replace, n);
    }
  }

  // ---------------------------------------------------------------- a list of literal operations

  datatype SearchOp = SearchOp(search: string, replace: string, count: Option<nat>)

  function Limit(op: SearchOp): nat {
    if op.count.Some? then op.count.value else 0
  }

  /** The operation's loop stops: a non-empty search, or a positive count. */
  predicate Stops(op: SearchOp) {
    op.search != [] || Limit(op) > 0
  }

  /** Operations apply in order, each to the previous one's output; the counts are
      reported per operation. */
  function ApplySearchOps(s: string, ops: seq<SearchOp>): (r: (string, seq<nat>))
    requires forall k :: 0 <= k < |ops| ==> Stops(ops[k])
    ensures |r.1| == |ops|
    decreases |ops|
  {
    if ops == [] then (s, [])
    else
      assert Stops(ops[0]);
      var first := Rewrite(s, ops[0].search, ops[0].replace, Cap(Limit(ops[0])));
      var rest := ApplySearchOps(first.0, ops[1..]);
      (rest.0, [first.1] + rest.1)
  }

  method ApplySearchOpsLoop(content: string, ops: seq<SearchOp>) returns (out: string, counts: seq<nat>)
    requires forall k :: 0 <= k < |ops| ==> Stops(ops[k])
    ensures (out, counts) == ApplySearchOps(content, ops)
  {
    out, counts := content, [];
    var i := 0;
    assert ops[0..] == ops;
    while i < |ops|
      invariant 0 <= i <= |ops|
      invariant ApplySearchOps(content, ops).0 == ApplySearchOps(out, ops[i..]).0
      invariant ApplySearchOps(content, ops).1 == counts + ApplySearchOps(out, ops[i..]).1
    {
      assert ops[i..][1..] == ops[i + 1..];
      assert ops[i..][0] == ops[i];
      var n;
      ghost var before := out;
      out, n := ReplaceLiteral(out, ops[i].search, ops[i].replace, Limit(ops[i]));
      ghost var rest := ApplySearchOps(out, ops[i + 1..]);
      assert ApplySearchOps(before, ops[i..]) == (rest.0, [n] + rest.1);
      assert counts + ([n] + rest.1) == (counts + [n]) + rest.1;
      counts := counts + [n];
      i := i + 1;
    }
    assert ops[i..] == [] && counts + [] == counts;
  }

  // ---------------------------------------------------------------- line-range operations

  datatype LineOp = LineOp(startLine: nat, endLine: nat, content: string)

  /** 1-based, inclusive, non-empty. */
  predicate ValidRange(op: LineOp) {
    op.startLine != 0 && op.endLine != 0 && op.startLine <= op.endLine
  }

  /** The order the operations are applied in: larger start lines first. */
  predicate StartsLater(a: LineOp, b: LineOp) {
    a.startLine >= b.startLine
  }

  function OrderOps(ops: seq<LineOp>): seq<LineOp> {
    Sorting.SortBy(ops, StartsLater)
  }

  /** The operations run in descending start order and are the same operations. */
  lemma OrderOpsDescending(ops: seq<LineOp>)
    ensures var o := OrderOps(ops);
      && multiset(o) == multiset(ops)
      && forall i :: 0 <= i < |o| - 1 ==> o[i].startLine >= o[i + 1].startLine
  {
    assert Sorting.Total(StartsLater);
    Sorting.SortBySorted(ops, StartsLater);
  }

  function StartingAt(line: nat): LineOp -> bool {
    (op: LineOp) => op.startLine == line
  }

  /** Operations with the same start line are applied in the order they were given. */
  lemma SameStartKeepsOrder(ops: seq<LineOp>, line: nat)
    ensures Sorting.Filter(OrderOps(ops), StartingAt(line)) == Sorting.Filter(ops, StartingAt(line))
  {
    Sorting.SortByStable(ops, StartsLater, StartingAt(line));
  }

  /** One splice: the lines from start-1 to end (both clipped to the file) are replaced
      by the operation's content split into lines. */
  function Splice(lines: seq<string>, op: LineOp): (r: seq<string>)
    requires ValidRange(op)
    ensures var s, e := Min(op.startLine - 1, |lines|), Min(op.endLine, |lines|);
      && |r| == |lines| - (e - s) + |Lines(op.content)|
      && r[..s] == lines[..s]
      && r[s..s + |Lines(op.content)|] == Lines(op.content)
      && r[s + |Lines(op.content)|..] == lines[e..]
  {
    var s, e := Min(op.startLine - 1, |lines|), Min(op.endLine, |lines|);
    lines[..s] + Lines(op.content) + lines[e..]
  }

  /** All splices in the given order; the first invalid range stops everything. */
  function SpliceAll(lines: seq<string>, ops: seq<LineOp>): Result<seq<string>, LineOp>
    decreases |ops|
  {
    if ops == [] then Ok(lines)
    else if !ValidRange(ops[0]) then Err(ops[0])
    else SpliceAll(Splice(lines, ops[0]), ops[1..])
  }

  /** `join("\n")`, with a final newline added unless the text already ends in one. */
  function Render(lines: seq<string>): (c: string)
    ensures c != [] && c[|c| - 1] == '\n'
  {
    var joined := Join(lines, "\n");
    if joined != [] && joined[|joined| - 1] == '\n' then joined else joined + "\n"
  }

  /** The line-range phase as a whole. */
  function ApplyLineOps(content: string, ops: seq<LineOp>): Result<string, LineOp> {
    match SpliceAll(Lines(content), OrderOps(ops))
    case Err(op) => Err(op)
    case Ok(lines) => Ok(Render(lines))
  }

  method ApplyLineOpsLoop(content: string, ops: seq<LineOp>) returns (r: Result<string, LineOp>)
    ensures r == ApplyLineOps(content, ops)
  {
    var lines := Lines(content);
    var ordered := OrderOps(ops);
    var i := 0;
    while i < |ordered|
      invariant 0 <= i <= |ordered|
      invariant SpliceAll(Lines(content), ordered) == SpliceAll(lines, ordered[i..])
    {
      assert ordered[i..][1..] == ordered[i + 1..];
      var op := ordered[i];
      if op.startLine == 0 || op.endLine == 0 || op.startLine > op.endLine {
        return Err(op);
      }
      var s, e := Min(op.startLine - 1, |lines|), Min(op.endLine, |lines|);
      lines := lines[..s] + Lines(op.content) + lines[e..];
      i := i + 1;
    }
    var joined := Join(lines, "\n");
    if joined == [] || joined[|joined| - 1] != '\n' {
      joined := joined + "\n";
    }
    r := Ok(joined);
  }

  /** The phase fails exactly when some operation, wherever it sits, has an invalid range. */
  lemma {:induction false} SpliceAllFailsIffInvalid(lines: seq<string>, ops: seq<LineOp>)
    ensures SpliceAll(lines, ops).Err? <==> exists k :: 0 <= k < |ops| && !ValidRange(ops[k])
    ensures SpliceAll(lines, ops).Err? ==> !ValidRange(SpliceAll(lines, ops).error)
    decreases |ops|
  {
    if ops != [] && ValidRange(ops[0]) {
      SpliceAllFailsIffInvalid(Splice(lines, ops[0]), ops[1..]);
      if exists k :: 0 <= k < |ops| && !ValidRange(ops[k]) {
        var k :| 0 <= k < |ops| && !ValidRange(ops[k]);
        assert ops[1..][k - 1] == ops[k];
      }
    }
  }

  lemma LineOpsFailIffInvalid(content: string, ops: seq<LineOp>)
    ensures ApplyLineOps(content, ops).Err? <==> exists k :: 0 <= k < |ops| && !ValidRange(ops[k])
  {
    var o := OrderOps(ops);
    OrderOpsDescending(ops);
    SpliceAllFailsIffInvalid(Lines(content), o);
    if exists k :: 0 <= k < |ops| && !ValidRange(ops[k]) {
      var k :| 0 <= k < |ops| && !ValidRange(ops[k]);
      assert ops[k] in multiset(o);
    }
    if exists k :: 0 <= k < |o| && !ValidRange(o[k]) {
      var k :| 0 <= k < |o| && !ValidRange(o[k]);
      assert o[k] in multiset(ops);
    }
  }

  /** When the final lines have no line breaks or trailing '\r' and the last is not empty,
      the written text reads back as exactly those lines. */
  lemma RenderReadsBack(lines: seq<string>)
    requires |lines| >= 1 && lines[|lines| - 1] != ""
    requires forall k :: 0 <= k < |lines| ==> '\n' !in lines[k] && StripCR(lines[k]) == lines[k]
    ensures Lines(Render(lines)) == lines
  {
    var j := Join(lines, "\n");
    JoinLast(lines);
    LinesJoin(lines);
  }

  /** A join ends with its last part's last character. */
  lemma {:induction false} JoinLast(parts: seq<string>)
    requires |parts| >= 1 && parts[|parts| - 1] != ""
    ensures var j := Join(parts, "\n"); j != [] && j[|j| - 1] == parts[|parts| - 1][|parts[|parts| - 1]| - 1]
  {
    if |parts| > 1 {
      JoinLast(parts[1..]);
    }
  }
}
