/** Wrapping code lines verbatim, plain or highlighted: the rows break alike and every byte keeps its style. */
module Highlight {
  import opened Arithmetic
  import opened Flat

  /** A character: how many bytes it takes in the body and how many cells on screen. */
  datatype Glyph = Glyph(bytes: pos, width: nat)

  type pos = n: nat | n >= 1 witness 1

  type Style = nat

  datatype Segment = Segment(start: nat, end: nat, style: Style)

  /** Logical bytes `start .. end` of the code block carry `style`. */
  datatype Run = Run(start: nat, end: nat, style: Style)

  /** A line of the block: where its text starts in the body and in the block's logical text. */
  datatype CodeLine = CodeLine(source: nat, logical: nat, glyphs: seq<Glyph>)

  function ByteLen(glyphs: seq<Glyph>, n: nat): nat
    requires n <= |glyphs|
  {
    if n == 0 then 0 else ByteLen(glyphs, n - 1) + glyphs[n - 1].bytes
  }

  // --- Row breaks ---------------------------------------------------------------------

  /** Byte offsets where rows begin, from glyph `i` at offset `at` with `width` cells already on the row. */
  function Breaks(glyphs: seq<Glyph>, avail: nat, i: nat, width: nat, at: nat): seq<nat>
    requires i <= |glyphs|
    decreases |glyphs| - i
  {
    if i == |glyphs| then []
    else
      var g := glyphs[i];
      if width + g.width > avail && width > 0
      then [at] + Breaks(glyphs, avail, i + 1, g.width, at + g.bytes)
      else Breaks(glyphs, avail, i + 1, width + g.width, at + g.bytes)
  }

  /** The rows of a line: row `k` shows bytes `Cuts[k] .. Cuts[k + 1]`. */
  function Cuts(glyphs: seq<Glyph>, avail: nat): (cuts: seq<nat>)
    ensures |cuts| >= 2
  {
    [0] + Breaks(glyphs, avail, 0, 0, 0) + [ByteLen(glyphs, |glyphs|)]
  }

  /** Cells of glyphs `a .. b`. */
  function Width(glyphs: seq<Glyph>, a: nat, b: nat): nat
    requires b <= |glyphs|
  {
    if a >= b then 0 else Width(glyphs, a, b - 1) + glyphs[b - 1].width
  }

  /** The row fits, unless nothing of width stands before its last glyph. */
  ghost predicate Fits(glyphs: seq<Glyph>, avail: nat, a: nat, b: nat) {
    a <= b <= |glyphs| && (a < b ==> Width(glyphs, a, b) <= avail || Width(glyphs, a, b - 1) == 0)
  }

  /** The row could not have taken the glyph after it. */
  ghost predicate Overflows(glyphs: seq<Glyph>, avail: nat, a: nat, b: nat) {
    b < |glyphs| && Width(glyphs, a, b) > 0 && Width(glyphs, a, b) + glyphs[b].width > avail
  }

  /** Rows from glyph `starts[k]` to `starts[k + 1]`: each fits, and each break was necessary. */
  ghost predicate WrapsAt(glyphs: seq<Glyph>, avail: nat, starts: seq<nat>) {
    && |starts| >= 2 && starts[|starts| - 1] == |glyphs|
    && (forall k :: 0 <= k < |starts| - 1 ==> Fits(glyphs, avail, starts[k], starts[k + 1]))
    && (forall k :: 0 <= k < |starts| - 2 ==> Overflows(glyphs, avail, starts[k], starts[k + 1]))
  }

  /** The breaks by glyph. */
  ghost function RowStarts(glyphs: seq<Glyph>, avail: nat, i: nat, width: nat): seq<nat>
    requires i <= |glyphs|
    decreases |glyphs| - i
  {
    if i == |glyphs| then []
    else if width + glyphs[i].width > avail && width > 0 then [i] + RowStarts(glyphs, avail, i + 1, glyphs[i].width)
    else RowStarts(glyphs, avail, i + 1, width + glyphs[i].width)
  }

  lemma {:induction false} BreaksAreStarts(glyphs: seq<Glyph>, avail: nat, i: nat, width: nat, k: nat)
    requires i <= |glyphs|
    ensures var breaks := Breaks(glyphs, avail, i, width, ByteLen(glyphs, i));
            var starts := RowStarts(glyphs, avail, i, width);
            |breaks| == |starts|
            && (k < |starts| ==> starts[k] <= |glyphs| && breaks[k] == ByteLen(glyphs, starts[k]))
    decreases |glyphs| - i
  {
    if i < |glyphs| {
      if width + glyphs[i].width > avail && width > 0 {
        BreaksAreStarts(glyphs, avail, i + 1, glyphs[i].width, if k == 0 then 0 else k - 1);
      } else {
        BreaksAreStarts(glyphs, avail, i + 1, width + glyphs[i].width, k);
      }
    }
  }

  lemma {:induction false} StartsWrap(glyphs: seq<Glyph>, avail: nat, a: nat, i: nat)
    requires Fits(glyphs, avail, a, i)
    ensures WrapsAt(glyphs, avail, [a] + RowStarts(glyphs, avail, i, Width(glyphs, a, i)) + [|glyphs|])
    decreases |glyphs| - i
  {
    if i < |glyphs| {
      var width := Width(glyphs, a, i);
      if width + glyphs[i].width > avail && width > 0 {
        assert Width(glyphs, i, i + 1) == glyphs[i].width;
        StartsWrap(glyphs, avail, i, i + 1);
        var rest := [i] + RowStarts(glyphs, avail, i + 1, glyphs[i].width) + [|glyphs|];
        var all := [a] + RowStarts(glyphs, avail, i, width) + [|glyphs|];
        assert all == [a] + rest;
        assert Fits(glyphs, avail, all[0], all[1]) && Overflows(glyphs, avail, all[0], all[1]);
        forall k | 1 <= k < |all| - 1
          ensures Fits(glyphs, avail, all[k], all[k + 1])
          ensures k < |all| - 2 ==> Overflows(glyphs, avail, all[k], all[k + 1])
        {
          assert all[k] == rest[k - 1] && all[k + 1] == rest[k];
        }
      } else {
        StartsWrap(glyphs, avail, a, i + 1);
      }
    }
  }

  /** Where the rows of a line begin, and where the last one ends. */
  ghost function Rows(glyphs: seq<Glyph>, avail: nat): seq<nat> {
    [0] + RowStarts(glyphs, avail, 0, 0) + [|glyphs|]
  }

  /** The rows of a line are the one greedy wrapping of its glyphs. */
  lemma {:induction false} CutsWrap(glyphs: seq<Glyph>, avail: nat)
    ensures var starts, cuts := Rows(glyphs, avail), Cuts(glyphs, avail);
            && WrapsAt(glyphs, avail, starts) && starts[0] == 0 && |cuts| == |starts|
            && forall k :: 0 <= k < |starts| ==> starts[k] <= |glyphs| && cuts[k] == ByteLen(glyphs, starts[k])
  {
    var starts := Rows(glyphs, avail);
    StartsWrap(glyphs, avail, 0, 0);
    hide Breaks, RowStarts;
    BreaksAreStarts(glyphs, avail, 0, 0, 0);
    forall k | 0 <= k < |starts|
      ensures starts[k] <= |glyphs| && Cuts(glyphs, avail)[k] == ByteLen(glyphs, starts[k])
    {
      if 0 < k < |starts| - 1 {
        BreaksAreStarts(glyphs, avail, 0, 0, k - 1);
      }
    }
  }

  lemma {:induction false} WidthGrows(glyphs: seq<Glyph>, a: nat, b: nat, c: nat)
    requires b <= c <= |glyphs|
    ensures Width(glyphs, a, b) <= Width(glyphs, a, c)
  {
    if b < c {
      WidthGrows(glyphs, a, b, c - 1);
    }
  }

  lemma {:induction false} SameEnd(glyphs: seq<Glyph>, avail: nat, a: nat, b: nat, c: nat)
    requires Overflows(glyphs, avail, a, b) && Fits(glyphs, avail, a, c) && a <= b
    ensures c <= b
  {
    if b < c {
      assert Width(glyphs, a, b + 1) == Width(glyphs, a, b) + glyphs[b].width;
      WidthGrows(glyphs, a, b + 1, c);
      WidthGrows(glyphs, a, b, c - 1);
    }
  }

  /** There is one such wrapping. */
  lemma {:induction false} WrapUnique(glyphs: seq<Glyph>, avail: nat, s: seq<nat>, t: seq<nat>)
    requires WrapsAt(glyphs, avail, s) && WrapsAt(glyphs, avail, t) && s[0] == t[0]
    ensures s == t
    decreases |s|
  {
    assert Fits(glyphs, avail, s[0], s[1]) && Fits(glyphs, avail, t[0], t[1]);
    if |s| > 2 {
      assert Overflows(glyphs, avail, s[0], s[1]);
      SameEnd(glyphs, avail, s[0], s[1], t[1]);
    }
    if |t| > 2 {
      assert Overflows(glyphs, avail, t[0], t[1]);
      SameEnd(glyphs, avail, t[0], t[1], s[1]);
    }
    if |s| > 2 && |t| > 2 {
      WrapTail(glyphs, avail, s);
      WrapTail(glyphs, avail, t);
      WrapUnique(glyphs, avail, s[1..], t[1..]);
      assert s == [s[0]] + s[1..] && t == [t[0]] + t[1..];
    }
  }

  lemma {:induction false} WrapTail(glyphs: seq<Glyph>, avail: nat, s: seq<nat>)
    requires WrapsAt(glyphs, avail, s) && |s| > 2
    ensures WrapsAt(glyphs, avail, s[1..])
  {
    hide Fits, Overflows;
    forall k | 0 <= k < |s[1..]| - 1
      ensures Fits(glyphs, avail, s[1..][k], s[1..][k + 1])
      ensures k < |s[1..]| - 2 ==> Overflows(glyphs, avail, s[1..][k], s[1..][k + 1])
    {
      assert Fits(glyphs, avail, s[k + 1], s[k + 2]);
      assert k < |s| - 3 ==> Overflows(glyphs, avail, s[k + 1], s[k + 2]);
    }
  }

  /** Each line starts one byte, the line break, after the line before it. */
  ghost predicate Spaced(lines: seq<CodeLine>) {
    forall i :: 0 <= i < |lines| - 1 ==> Follows(lines, i)
  }

  ghost predicate Follows(lines: seq<CodeLine>, i: nat)
    requires i + 1 < |lines|
  {
    lines[i + 1].logical == LogicalEnd(lines[i]) + 1
  }

  /** Numbers the lines of a block by their logical offsets. */
  method CodeLines(tokens: seq<(nat, seq<Glyph>)>) returns (lines: seq<CodeLine>)
    ensures |lines| == |tokens| && Spaced(lines)
    ensures lines != [] ==> lines[0].logical == 0
    ensures forall i :: 0 <= i < |lines| ==> lines[i].source == tokens[i].0 && lines[i].glyphs == tokens[i].1
  {
    lines := [];
    var logicalStart := 0;
    for index := 0 to |tokens|
      invariant |lines| == index && Spaced(lines)
      invariant if index == 0 then logicalStart == 0
                else index < |tokens| ==> logicalStart == LogicalEnd(lines[index - 1]) + 1
      invariant lines != [] ==> lines[0].logical == 0
      invariant forall i :: 0 <= i < index ==> lines[i].source == tokens[i].0 && lines[i].glyphs == tokens[i].1
    {
      var line := CodeLine(tokens[index].0, logicalStart, tokens[index].1);
      logicalStart := LogicalEnd(line);
      if index + 1 < |tokens| {
        logicalStart := logicalStart + 1;
      }
      ghost var was := lines;
      lines := lines + [line];
      forall i | 0 <= i < |lines| - 1
        ensures Follows(lines, i)
      {
        if i + 1 < |was| {
          assert Follows(was, i);
        }
      }
    }
  }

  // --- Styles ---------------------------------------------------------------------------

  ghost predicate SortedDisjoint(runs: seq<Run>) {
    && (forall i :: 0 <= i < |runs| ==> runs[i].start <= runs[i].end)
    && (forall i, j :: 0 <= i < j < |runs| ==> runs[i].end <= runs[j].start)
  }

  ghost predicate Covers(run: Run, x: nat) {
    run.start <= x < run.end
  }

  /** The style owed to logical byte `x`. */
  ghost predicate Owed(runs: seq<Run>, fallback: Style, x: nat, style: Style) {
    && (forall i :: 0 <= i < |runs| && Covers(runs[i], x) ==> style == runs[i].style)
    && ((forall i :: 0 <= i < |runs| ==> !Covers(runs[i], x)) ==> style == fallback)
  }

  /** Segments from `from` to `to` without gap or overlap. */
  ghost predicate Tiles(segs: seq<Segment>, from: nat, to: nat) {
    && (if segs == [] then from == to else segs[0].start == from && segs[|segs| - 1].end == to)
    && (forall i :: 0 <= i < |segs| ==> segs[i].start < segs[i].end)
    && (forall i :: 0 <= i < |segs| - 1 ==> Adjacent(segs, i))
  }

  ghost predicate Adjacent(segs: seq<Segment>, i: nat)
    requires i + 1 < |segs|
  {
    segs[i].end == segs[i + 1].start
  }

  /** Every byte of a segment has the style owed to its logical offset. */
  ghost predicate Styled(seg: Segment, runs: seq<Run>, fallback: Style, line: CodeLine) {
    && line.source <= seg.start
    && forall x :: Logical(line, seg.start) <= x < Logical(line, seg.end) ==> Owed(runs, fallback, x, seg.style)
  }

  function LogicalEnd(line: CodeLine): nat {
    line.logical + ByteLen(line.glyphs, |line.glyphs|)
  }

  /** The logical offset of body byte `o` of the line. */
  function Logical(line: CodeLine, o: nat): nat {
    line.logical + SatSub(o, line.source)
  }

  ghost predicate AllStyled(segs: seq<Segment>, runs: seq<Run>, fallback: Style, line: CodeLine) {
    forall i :: 0 <= i < |segs| ==> Styled(segs[i], runs, fallback, line)
  }

  /** Runs before the cursor cover nothing from logical byte `x` on. */
  ghost predicate Spent(runs: seq<Run>, cursor: nat, x: nat) {
    cursor <= |runs| && forall k :: 0 <= k < cursor ==> runs[k].end <= x || runs[k].start >= runs[k].end
  }

  /** A byte no later run reaches and every earlier run has passed falls back. */
  lemma {:induction false} GapFallsBack(runs: seq<Run>, fallback: Style, index: nat, x: nat)
    requires SortedDisjoint(runs) && Spent(runs, index, x)
    requires index < |runs| ==> x < runs[index].start
    ensures Owed(runs, fallback, x, fallback)
  {
    forall i | 0 <= i < |runs|
      ensures !Covers(runs[i], x)
    {
      if i > index {
        assert runs[index].end <= runs[i].start;
      }
    }
  }

  lemma {:induction false} CoveredIsOwed(runs: seq<Run>, fallback: Style, index: nat, x: nat)
    requires SortedDisjoint(runs) && index < |runs| && Covers(runs[index], x)
    ensures Owed(runs, fallback, x, runs[index].style)
  {
    assert forall i :: 0 <= i < |runs| && Covers(runs[i], x) ==> i == index;
  }

  lemma {:induction false} TilesAppend(segs: seq<Segment>, from: nat, to: nat, seg: Segment)
    requires Tiles(segs, from, to) && seg.start == to && seg.start < seg.end
    ensures Tiles(segs + [seg], from, seg.end)
  {
    forall i | 0 <= i < |segs|
      ensures Adjacent(segs + [seg], i)
    {
      if i < |segs| - 1 {
        assert Adjacent(segs, i);
      }
    }
  }

  // --- The layout being built --------------------------------------------------------------

  class CodeLayout {
    /** The segments of each row so far. */
    var rows: seq<seq<Segment>>
    /** The first run that may still matter, shared by every chunk of the block. */
    var runIndex: nat

    constructor ()
      ensures rows == [] && runIndex == 0
    {
      rows, runIndex := [], 0;
    }

    method PushLine()
      modifies this`rows
      ensures rows == old(rows) + [[]]
    {
      rows := rows + [[]];
    }

    method EmitSegment(start: nat, end: nat, style: Style)
      requires rows != []
      modifies this`rows
      ensures |rows| == |old(rows)| && rows[..|rows| - 1] == old(rows)[..|rows| - 1]
      ensures rows[|rows| - 1] == old(rows)[|rows| - 1] + if start < end then [Segment(start, end, style)] else []
    {
      if start < end {
        rows := rows[|rows| - 1 := rows[|rows| - 1] + [Segment(start, end, style)]];
      }
    }

    /** Lays one code line out in one style. */
    method EmitPlain(line: CodeLine, avail: nat, style: Style) returns (ghost laid: seq<seq<Segment>>)
      modifies this`rows
      ensures rows == old(rows) + laid && Laid(laid, line, Cuts(line.glyphs, avail), [], style)
    {
      hide Laid, Tiles, AllStyled;
      PushLine();
      laid := [];
      ghost var cuts: seq<nat> := [0];
      var chunkStart: nat, at: nat, width: nat := 0, 0, 0;
      NothingLaid(line, [], style);
      NothingTiles(line.source, [], style, line);
      for i := 0 to |line.glyphs|
        invariant Wrapped(line.glyphs, avail, i, width, at, chunkStart, cuts)
        invariant rows == old(rows) + laid + [[]] && Laid(laid, line, cuts, [], style)
      {
        WrapStep(line.glyphs, avail, i, width, at, chunkStart, cuts);
        var g := line.glyphs[i];
        if width + g.width > avail && width > 0 {
          PlainRow(line, chunkStart, at, style);
          EmitSegment(line.source + chunkStart, line.source + at, style);
          assert rows[|rows| - 1] == PlainSegments(line.source + chunkStart, line.source + at, style);
          LaidRow(laid, line, cuts, [], style, rows[|rows| - 1], at);
          laid := laid + [rows[|rows| - 1]];
          PushLine();
          chunkStart, width := at, 0;
          cuts := cuts + [at];
        }
        width := width + g.width;
        at := at + g.bytes;
      }
      WrapDone(line.glyphs, avail, width, at, chunkStart, cuts);
      PlainRow(line, chunkStart, at, style);
      if chunkStart < at {
        EmitSegment(line.source + chunkStart, line.source + at, style);
      }
      assert rows[|rows| - 1] == PlainSegments(line.source + chunkStart, line.source + at, style);
      LaidRow(laid, line, cuts, [], style, rows[|rows| - 1], at);
      laid := laid + [rows[|rows| - 1]];
    }

    /**
     * Lays a whole code block out, highlighted if its language is known and in one style if not. Either way each line
     * takes the rows its own widths call for, so what is highlighted moves no row; an empty block is one blank row.
     */
    method LayoutCodeBlock(tokens: seq<(nat, seq<Glyph>)>, avail: nat, runs: Option<seq<Run>>, style: Style)
      returns (ghost lines: seq<CodeLine>, ghost laid: seq<seq<seq<Segment>>>)
      requires runs.Some? ==> SortedDisjoint(runs.value)
      modifies this
      ensures |rows| == |old(rows)| + BlockRows(tokens, avail)
      ensures tokens == [] ==> rows == old(rows) + [[]]
      ensures tokens != [] ==>
                && |laid| == |lines| == |tokens| && rows == old(rows) + Flatten(laid, |laid|)
                && (runs.Some? ==> Spaced(lines) && lines[0].logical == 0)
                && forall i :: 0 <= i < |tokens| ==>
                     lines[i].source == tokens[i].0 && lines[i].glyphs == tokens[i].1
                     && Laid(laid[i], lines[i], Cuts(tokens[i].1, avail), if runs.Some? then runs.value else [], style)
    {
      hide Laid, SortedDisjoint, Cuts, Flatten, Lengths, LogicalEnd, RowCount, Spaced;
      lines, laid := [], [];
      if tokens == [] {
        PushLine();
        return;
      }
      if runs.Some? {
        var numbered := CodeLines(tokens);
        lines := numbered;
        laid := LayoutHighlighted(numbered, avail, runs.value, style);
      } else {
        lines, laid := LayoutPlain(tokens, avail, style);
      }
      RowsCounted(tokens, avail, laid, lines, if runs.Some? then runs.value else [], style);
    }

    method LayoutPlain(tokens: seq<(nat, seq<Glyph>)>, avail: nat, style: Style)
      returns (ghost lines: seq<CodeLine>, ghost laid: seq<seq<seq<Segment>>>)
      modifies this`rows
      ensures |laid| == |lines| == |tokens| && rows == old(rows) + Flatten(laid, |laid|)
      ensures forall i :: 0 <= i < |tokens| ==>
                lines[i].source == tokens[i].0 && lines[i].glyphs == tokens[i].1
                && Laid(laid[i], lines[i], Cuts(tokens[i].1, avail), [], style)
    {
      hide Laid, Cuts, Flatten, Lengths;
      lines, laid := [], [];
      FlattenNothing<Segment>();
      for i := 0 to |tokens|
        invariant |laid| == |lines| == i && rows == old(rows) + Flatten(laid, i)
        invariant forall k :: 0 <= k < i ==>
                    lines[k].source == tokens[k].0 && lines[k].glyphs == tokens[k].1
                    && Laid(laid[k], lines[k], Cuts(tokens[k].1, avail), [], style)
      {
        var line := CodeLine(tokens[i].0, 0, tokens[i].1);
        ghost var shown := EmitPlain(line, avail, style);
        FlattenAppend(laid, shown);
        lines, laid := lines + [line], laid + [shown];
      }
    }

    /** The highlighted lines: one cursor walks the runs across all of them. */
    method LayoutHighlighted(lines: seq<CodeLine>, avail: nat, runs: seq<Run>, fallback: Style)
      returns (ghost laid: seq<seq<seq<Segment>>>)
      requires SortedDisjoint(runs) && Spaced(lines)
      modifies this
      ensures |laid| == |lines| && rows == old(rows) + Flatten(laid, |laid|)
      ensures forall i :: 0 <= i < |lines| ==> Laid(laid[i], lines[i], Cuts(lines[i].glyphs, avail), runs, fallback)
    {
      hide Laid, SortedDisjoint, Cuts, Flatten, Lengths, LogicalEnd;
      runIndex := 0;
      laid := [];
      FlattenNothing<Segment>();
      for i := 0 to |lines|
        invariant |laid| == i && rows == old(rows) + Flatten(laid, i)
        invariant Spent(runs, runIndex, if i == 0 then 0 else LogicalEnd(lines[i - 1]))
        invariant forall k :: 0 <= k < i ==> Laid(laid[k], lines[k], Cuts(lines[k].glyphs, avail), runs, fallback)
      {
        if i > 0 {
          assert Follows(lines, i - 1);
        }
        SpentLater(runs, runIndex, if i == 0 then 0 else LogicalEnd(lines[i - 1]), lines[i].logical);
        ghost var line := EmitHighlighted(lines[i], avail, runs, fallback);
        FlattenAppend(laid, line);
        laid := laid + [line];
      }
    }

    /** Lays one code line out with its highlighting; the rows break where a plain line's would. */
    method EmitHighlighted(line: CodeLine, avail: nat, runs: seq<Run>, fallback: Style)
      returns (ghost laid: seq<seq<Segment>>)
      requires SortedDisjoint(runs) && Spent(runs, runIndex, line.logical)
      modifies this
      ensures rows == old(rows) + laid && Laid(laid, line, Cuts(line.glyphs, avail), runs, fallback)
      ensures Spent(runs, runIndex, LogicalEnd(line))
    {
      hide Laid, Tiles, AllStyled, Spent, SortedDisjoint;
      PushLine();
      laid := [];
      ghost var cuts: seq<nat> := [0];
      var chunkStart: nat, at: nat, width: nat := 0, 0, 0;
      NothingLaid(line, runs, fallback);
      NothingTiles(line.source, runs, fallback, line);
      for i := 0 to |line.glyphs|
        invariant Wrapped(line.glyphs, avail, i, width, at, chunkStart, cuts)
        invariant rows == old(rows) + laid + [[]] && Laid(laid, line, cuts, runs, fallback)
        invariant Spent(runs, runIndex, line.logical + chunkStart)
      {
        WrapStep(line.glyphs, avail, i, width, at, chunkStart, cuts);
        var g := line.glyphs[i];
        if width + g.width > avail && width > 0 {
          EmitChunk(line, line.source + chunkStart, line.source + at, line.logical + chunkStart, runs, fallback);
          LaidRow(laid, line, cuts, runs, fallback, rows[|rows| - 1], at);
          laid := laid + [rows[|rows| - 1]];
          PushLine();
          chunkStart, width := at, 0;
          cuts := cuts + [at];
        }
        width := width + g.width;
        at := at + g.bytes;
      }
      WrapDone(line.glyphs, avail, width, at, chunkStart, cuts);
      if chunkStart < at {
        EmitChunk(line, line.source + chunkStart, line.source + at, line.logical + chunkStart, runs, fallback);
      } else {
        NothingTiles(line.source + at, runs, fallback, line);
      }
      LaidRow(laid, line, cuts, runs, fallback, rows[|rows| - 1], at);
      laid := laid + [rows[|rows| - 1]];
    }

    /** Emits one row of a highlighted line, taking each byte's style from the run that covers it. */
    method EmitChunk(ghost line: CodeLine, sourceStart: nat, sourceEnd: nat, logicalStart: nat,
                     runs: seq<Run>, fallback: Style)
      requires rows != [] && rows[|rows| - 1] == [] && SortedDisjoint(runs)
      requires line.source <= sourceStart < sourceEnd && logicalStart == Logical(line, sourceStart)
      requires Spent(runs, runIndex, logicalStart)
      modifies this
      ensures |rows| == |old(rows)| && rows[..|rows| - 1] == old(rows)[..|rows| - 1]
      ensures OpenRow(rows, line, sourceStart, sourceEnd, runs, fallback)
      ensures Spent(runs, runIndex, Logical(line, sourceEnd))
    {
      hide OpenRow, SortedDisjoint, Spent;
      var logicalEnd := logicalStart + (sourceEnd - sourceStart);
      SkipRuns(runs, logicalStart);
      var cursor := sourceStart;
      var index := runIndex;
      OpenEmpty(rows, line, sourceStart, runs, fallback);
      while index < |runs| && runs[index].start < logicalEnd
        invariant runIndex <= |runs| && index <= |runs| && sourceStart <= cursor <= sourceEnd
        invariant |rows| == |old(rows)| && rows[..|rows| - 1] == old(rows)[..|rows| - 1]
        invariant OpenRow(rows, line, sourceStart, cursor, runs, fallback)
        invariant Spent(runs, index, Logical(line, cursor))
        invariant index < |runs| ==> Logical(line, cursor) <= Max(runs[index].start, logicalStart)
        invariant Spent(runs, runIndex, logicalStart)
      {
        RunsAscend(runs, index);
        var run := runs[index];
        var start := Max(run.start, logicalStart);
        var end := Min(run.end, logicalEnd);
        ghost var was := cursor;
        if end > start {
          var styledStart := sourceStart + (start - logicalStart);
          var styledEnd := sourceStart + (end - logicalStart);
          if cursor < styledStart {
            FallbackSegment(runs, fallback, line, index, cursor, styledStart);
            EmitStyled(line, sourceStart, cursor, styledStart, fallback, runs, fallback);
          }
          RunSegment(runs, fallback, line, index, styledStart, styledEnd);
          EmitStyled(line, sourceStart, styledStart, styledEnd, run.style, runs, fallback);
          cursor := styledEnd;
        }
        if run.end > logicalEnd {
          break;
        }
        SpendRun(runs, index, Logical(line, was), Logical(line, cursor));
        index := index + 1;
      }
      if cursor < sourceEnd {
        FallbackSegment(runs, fallback, line, index, cursor, sourceEnd);
        EmitStyled(line, sourceStart, cursor, sourceEnd, fallback, runs, fallback);
      }
      SpentLater(runs, runIndex, logicalStart, logicalEnd);
      SkipRuns(runs, logicalEnd);
    }

    /** Moves the shared cursor past the runs that end by `x`. */
    method SkipRuns(runs: seq<Run>, x: nat)
      requires Spent(runs, runIndex, x)
      modifies this`runIndex
      ensures Spent(runs, runIndex, x)
      ensures runIndex < |runs| ==> runs[runIndex].end > x
    {
      while runIndex < |runs| && runs[runIndex].end <= x
        invariant Spent(runs, runIndex, x)
      {
        runIndex := runIndex + 1;
      }
    }

    method EmitStyled(ghost line: CodeLine, ghost from: nat, start: nat, end: nat, style: Style,
                      ghost runs: seq<Run>, ghost fallback: Style)
      requires OpenRow(rows, line, from, start, runs, fallback) && start < end
      requires Styled(Segment(start, end, style), runs, fallback, line)
      modifies this`rows
      ensures |rows| == |old(rows)| && rows[..|rows| - 1] == old(rows)[..|rows| - 1]
      ensures OpenRow(rows, line, from, end, runs, fallback)
    {
      hide Tiles, AllStyled, Styled;
      Grow(rows[|rows| - 1], from, start, Segment(start, end, style), runs, fallback, line);
      EmitSegment(start, end, style);
    }
  }

  /** The last row tiles `from .. to` in the styles owed. */
  ghost predicate OpenRow(rows: seq<seq<Segment>>, line: CodeLine, from: nat, to: nat,
                          runs: seq<Run>, fallback: Style) {
    && rows != []
    && Tiles(rows[|rows| - 1], from, to)
    && AllStyled(rows[|rows| - 1], runs, fallback, line)
  }

  lemma {:induction false} OpenEmpty(rows: seq<seq<Segment>>, line: CodeLine, at: nat, runs: seq<Run>, fallback: Style)
    requires rows != [] && rows[|rows| - 1] == []
    ensures OpenRow(rows, line, at, at, runs, fallback)
  {
  }

  lemma {:induction false} SpentLater(runs: seq<Run>, cursor: nat, x: nat, y: nat)
    requires Spent(runs, cursor, x) && x <= y
    ensures Spent(runs, cursor, y)
  {
  }

  lemma {:induction false} SpendRun(runs: seq<Run>, cursor: nat, x: nat, y: nat)
    requires Spent(runs, cursor, x) && cursor < |runs| && x <= y
    requires runs[cursor].end <= y || runs[cursor].start >= runs[cursor].end
    ensures Spent(runs, cursor + 1, y)
  {
  }

  lemma {:induction false} NothingTiles(at: nat, runs: seq<Run>, fallback: Style, line: CodeLine)
    ensures Tiles([], at, at) && AllStyled([], runs, fallback, line)
  {
  }

  lemma {:induction false} Grow(segs: seq<Segment>, from: nat, to: nat, seg: Segment, runs: seq<Run>, fallback: Style,
                                line: CodeLine)
    requires Tiles(segs, from, to) && AllStyled(segs, runs, fallback, line)
    requires seg.start == to && seg.start < seg.end && Styled(seg, runs, fallback, line)
    ensures Tiles(segs + [seg], from, seg.end) && AllStyled(segs + [seg], runs, fallback, line)
  {
    hide Owed, Tiles;
    TilesAppend(segs, from, to, seg);
  }

  lemma {:induction false} RunsAscend(runs: seq<Run>, index: nat)
    requires SortedDisjoint(runs) && index < |runs|
    ensures runs[index].start <= runs[index].end
    ensures index + 1 < |runs| ==> runs[index].end <= runs[index + 1].start
  {
  }

  lemma {:induction false} FallbackSegment(runs: seq<Run>, fallback: Style, line: CodeLine, index: nat, from: nat,
                                           to: nat)
    requires SortedDisjoint(runs) && line.source <= from && Spent(runs, index, Logical(line, from))
    requires index < |runs| ==> Logical(line, to) <= runs[index].start
    ensures Styled(Segment(from, to, fallback), runs, fallback, line)
  {
    forall x | Logical(line, from) <= x < Logical(line, to)
      ensures Owed(runs, fallback, x, fallback)
    {
      GapFallsBack(runs, fallback, index, x);
    }
  }

  lemma {:induction false} RunSegment(runs: seq<Run>, fallback: Style, line: CodeLine, index: nat, from: nat, to: nat)
    requires SortedDisjoint(runs) && line.source <= from && index < |runs|
    requires runs[index].start <= Logical(line, from) && Logical(line, to) <= runs[index].end
    ensures Styled(Segment(from, to, runs[index].style), runs, fallback, line)
  {
    forall x | Logical(line, from) <= x < Logical(line, to)
      ensures Owed(runs, fallback, x, runs[index].style)
    {
      CoveredIsOwed(runs, fallback, index, x);
    }
  }

  // --- How many rows a block takes -----------------------------------------------------------

  /** The rows of the first `n` lines, whatever their styles. */
  ghost function RowCount(tokens: seq<(nat, seq<Glyph>)>, avail: nat, n: nat): nat
    requires n <= |tokens|
  {
    if n == 0 then 0 else RowCount(tokens, avail, n - 1) + |Cuts(tokens[n - 1].1, avail)| - 1
  }

  ghost function BlockRows(tokens: seq<(nat, seq<Glyph>)>, avail: nat): nat {
    if tokens == [] then 1 else RowCount(tokens, avail, |tokens|)
  }

  lemma {:induction false} FlattenCounts(tokens: seq<(nat, seq<Glyph>)>, avail: nat, laid: seq<seq<seq<Segment>>>,
                                         n: nat)
    requires n <= |tokens| == |laid|
    requires forall i :: 0 <= i < |laid| ==> |laid[i]| + 1 == |Cuts(tokens[i].1, avail)|
    ensures |Flatten(laid, n)| == RowCount(tokens, avail, n)
  {
    hide Cuts;
    if n > 0 {
      FlattenCounts(tokens, avail, laid, n - 1);
    }
  }

  lemma {:induction false} RowsCounted(tokens: seq<(nat, seq<Glyph>)>, avail: nat, laid: seq<seq<seq<Segment>>>,
                                       lines: seq<CodeLine>, runs: seq<Run>, style: Style)
    requires |laid| == |lines| == |tokens| && tokens != []
    requires forall i :: 0 <= i < |tokens| ==> Laid(laid[i], lines[i], Cuts(tokens[i].1, avail), runs, style)
    ensures |Flatten(laid, |laid|)| == BlockRows(tokens, avail)
  {
    hide Cuts, LaidAt, Flatten, RowCount;
    FlattenCounts(tokens, avail, laid, |tokens|);
  }

  // --- Rows against cuts ------------------------------------------------------------------

  /** Row `k` shows exactly the bytes between cuts `k` and `k + 1`, each in the style it is owed. */
  ghost predicate Laid(rows: seq<seq<Segment>>, line: CodeLine, cuts: seq<nat>, runs: seq<Run>, fallback: Style) {
    |cuts| == |rows| + 1 && forall k :: 0 <= k < |rows| ==> LaidAt(rows[k], line, cuts, k, runs, fallback)
  }

  ghost predicate LaidAt(row: seq<Segment>, line: CodeLine, cuts: seq<nat>, k: nat, runs: seq<Run>, fallback: Style)
    requires k + 1 < |cuts|
  {
    Tiles(row, line.source + cuts[k], line.source + cuts[k + 1]) && AllStyled(row, runs, fallback, line)
  }

  lemma {:induction false} NothingLaid(line: CodeLine, runs: seq<Run>, fallback: Style)
    ensures Laid([], line, [0], runs, fallback)
  {
  }

  lemma {:induction false} LaidRow(rows: seq<seq<Segment>>, line: CodeLine, cuts: seq<nat>, runs: seq<Run>,
                                   fallback: Style, row: seq<Segment>, at: nat)
    requires Laid(rows, line, cuts, runs, fallback)
    requires Tiles(row, line.source + cuts[|cuts| - 1], line.source + at) && AllStyled(row, runs, fallback, line)
    ensures Laid(rows + [row], line, cuts + [at], runs, fallback)
  {
    hide Tiles, AllStyled;
    forall k | 0 <= k < |rows|
      ensures LaidAt(rows[k], line, cuts + [at], k, runs, fallback)
    {
      assert LaidAt(rows[k], line, cuts, k, runs, fallback);
    }
  }

  function PlainSegments(start: nat, end: nat, style: Style): seq<Segment> {
    if start < end then [Segment(start, end, style)] else []
  }

  lemma {:induction false} PlainRow(line: CodeLine, from: nat, to: nat, style: Style)
    requires from <= to
    ensures Tiles(PlainSegments(line.source + from, line.source + to, style), line.source + from, line.source + to)
    ensures AllStyled(PlainSegments(line.source + from, line.source + to, style), [], style, line)
  {
  }

  /** The wrapping loop at glyph `i`: `cuts` are the row starts so far, the last one being the open row's. */
  ghost predicate Wrapped(glyphs: seq<Glyph>, avail: nat, i: nat, width: nat, at: nat, open: nat, cuts: seq<nat>) {
    && i <= |glyphs| && at == ByteLen(glyphs, i)
    && cuts != [] && open == cuts[|cuts| - 1] <= at
    && (width > 0 ==> open < at)
    && [0] + Breaks(glyphs, avail, 0, 0, 0) == cuts + Breaks(glyphs, avail, i, width, at)
  }

  lemma {:induction false} WrapStep(glyphs: seq<Glyph>, avail: nat, i: nat, width: nat, at: nat, open: nat,
                                    cuts: seq<nat>)
    requires Wrapped(glyphs, avail, i, width, at, open, cuts) && i < |glyphs|
    ensures var g := glyphs[i];
            if width + g.width > avail && width > 0
            then Wrapped(glyphs, avail, i + 1, g.width, at + g.bytes, at, cuts + [at])
            else Wrapped(glyphs, avail, i + 1, width + g.width, at + g.bytes, open, cuts)
  {
  }

  lemma {:induction false} WrapDone(glyphs: seq<Glyph>, avail: nat, width: nat, at: nat, open: nat, cuts: seq<nat>)
    requires Wrapped(glyphs, avail, |glyphs|, width, at, open, cuts)
    ensures cuts + [at] == Cuts(glyphs, avail)
  {
  }
}
