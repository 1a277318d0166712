/** The `read_lines` tool: which slice of a file's lines it shows and how it numbers them. */
module ReadLines {
  import opened Wrappers
  import opened Text

  /** The half-open range of 0-based line indices to show. */
  datatype Window = Window(start: nat, end: nat)

  /** `tail = N` shows the last N lines (or all of them); otherwise the start is the
      1-based `start_line` (default 1) clamped to 1..total+1 and made 0-based, and the end
      is `end_line` (default start + 100) capped at the total. */
  function LineWindow(total: nat, startLine: Option<nat>, endLine: Option<nat>, tail: Option<nat>): (w: Window)
    ensures w.end <= total && w.start <= total
    ensures tail.Some? ==> w == Window(total - Min(tail.value, total), total)
    ensures tail.None? && startLine.None? && endLine.None? ==> w == Window(0, Min(100, total))
    ensures tail.None? && startLine.Some? && 1 <= startLine.value <= total ==> w.start == startLine.value - 1
    ensures tail.None? && endLine.Some? ==> w.end == Min(endLine.value, total)
  {
    if tail.Some? then
      var n := Min(tail.value, total);
      Window(total - n, total)
    else
      var s := Min(Max(if startLine.Some? then startLine.value else 1, 1), total + 1) - 1;
      var e := Min(if endLine.Some? then endLine.value else s + 100, total);
      Window(s, e)
  }

  /** The slice `all_lines[start..end]` panics exactly when the start lies past the end,
      which needs an explicit `end_line` smaller than the start. */
  lemma ReversedRangeNeedsEndLine(total: nat, startLine: Option<nat>, endLine: Option<nat>, tail: Option<nat>)
    ensures var w := LineWindow(total, startLine, endLine, tail);
      w.start > w.end ==> tail.None? && endLine.Some? && endLine.value < w.start
    ensures var w := LineWindow(total, startLine, endLine, tail);
      (tail.None? && endLine.Some? && startLine.Some? && 1 <= startLine.value <= total
       && endLine.value < startLine.value - 1) ==> w.start > w.end
  {
  }

  datatype Numbered = Numbered(number: nat, text: string)

  /** The body of the reply: each shown line with its 1-based number. `None` stands for the
      panic of the out-of-order slice. */
  function ShowLines(content: string, startLine: Option<nat>, endLine: Option<nat>, tail: Option<nat>): (r: Option<seq<Numbered>>)
    ensures var lines := Lines(content);
      var w := LineWindow(|lines|, startLine, endLine, tail);
      && (r.None? <==> w.start > w.end)
      && (r.Some? ==> |r.value| == w.end - w.start)
      && (r.Some? ==> forall i :: 0 <= i < |r.value| ==> r.value[i] == Numbered(w.start + i + 1, lines[w.start + i]))
  {
    var lines := Lines(content);
    var w := LineWindow(|lines|, startLine, endLine, tail);
    if w.start > w.end then None
    else Some(seq(w.end - w.start, i requires 0 <= i < w.end - w.start => Numbered(w.start + i + 1, lines[w.start + i])))
  }

  /** With no arguments the first 100 lines (or all, if fewer) are shown, numbered from 1. */
  lemma DefaultShowsHead(content: string)
    ensures var r := ShowLines(content, None, None, None);
      && r.Some?
      && |r.value| == Min(100, |Lines(content)|)
      && forall i :: 0 <= i < |r.value| ==> r.value[i].text == Lines(content)[i] && r.value[i].number == i + 1
  {
  }

  /** `tail = N` shows the last min(N, total) lines, and the last one shown is the last line. */
  lemma TailShowsEnd(content: string, n: nat)
    ensures var r := ShowLines(content, None, None, Some(n));
      var lines := Lines(content);
      && r.Some?
      && |r.value| == Min(n, |lines|)
      && (r.value != [] ==> r.value[|r.value| - 1] == Numbered(|lines|, lines[|lines| - 1]))
  {
  }

  /** The texts shown are exactly the window's slice of the file's lines. */
  lemma ShownTextsAreSlice(content: string, startLine: Option<nat>, endLine: Option<nat>, tail: Option<nat>)
    requires ShowLines(content, startLine, endLine, tail).Some?
    ensures var r := ShowLines(content, startLine, endLine, tail).value;
      var w := LineWindow(|Lines(content)|, startLine, endLine, tail);
      seq(|r|, i requires 0 <= i < |r| => r[i].text) == Lines(content)[w.start..w.end]
  {
  }
}
