/** Stepping the cursor by body rows: reading order of positions against order on the screen. */
module Steps {
  import opened Arithmetic
  import opened Layout
  import opened Tiling
  import opened Screen

  /** A wrapped line of a message. */
  datatype Pos = Pos(message: nat, line: nat)

  ghost predicate Visible(doc: seq<Item>, p: Pos) {
    p.message < |doc| && p.line < VisibleBodyLines(doc[p.message])
  }

  ghost predicate Before(p: Pos, q: Pos) {
    p.message < q.message || (p.message == q.message && p.line < q.line)
  }

  function NextBodyPos(doc: seq<Item>, p: Pos): Option<Pos>
    requires p.message < |doc|
  {
    if p.line + 1 < VisibleBodyLines(doc[p.message]) then Some(Pos(p.message, p.line + 1))
    else if p.message + 1 < |doc| then Some(Pos(p.message + 1, 0))
    else None
  }

  function PrevBodyPos(doc: seq<Item>, p: Pos): Option<Pos>
    requires p.message < |doc| && Measured(doc)
  {
    if p.line > 0 then Some(Pos(p.message, p.line - 1))
    else if p.message == 0 then None
    else Some(Pos(p.message - 1, VisibleBodyLines(doc[p.message - 1]) - 1))
  }

  /** On visible positions each step undoes the other. */
  lemma {:induction false} StepsAreInverse(doc: seq<Item>, p: Pos, q: Pos)
    requires Measured(doc) && Visible(doc, p) && Visible(doc, q)
    ensures NextBodyPos(doc, p) == Some(q) <==> PrevBodyPos(doc, q) == Some(p)
  {
    assert doc[p.message].lines >= 1;
  }

  /** A forward step goes to the least visible position after `p`, and fails only when there is none. */
  lemma {:induction false} NextIsSuccessor(doc: seq<Item>, p: Pos, r: Pos)
    requires Measured(doc) && Visible(doc, p) && Visible(doc, r)
    ensures NextBodyPos(doc, p).Some? ==> var q := NextBodyPos(doc, p).value;
              Visible(doc, q) && Before(p, q) && (Before(p, r) ==> r == q || Before(q, r))
    ensures NextBodyPos(doc, p).None? ==> !Before(p, r)
  {
    assert p.message + 1 < |doc| ==> doc[p.message + 1].lines >= 1;
  }

  /** A visible position's row. */
  function RowOfPos(ix: Page, p: Pos): nat
    requires Visible(ix.doc, p)
  {
    BodyLineShown(ix, p.message, p.line);
    RowIndex(ix, p.message, p.line, Body).value
  }

  lemma {:induction false} RowBelowTotal(ix: Page, p: Pos)
    requires Visible(ix.doc, p)
    ensures RowOfPos(ix, p) < |RowsOf(ix)|
  {
    hide RowsOf, RowIndex;
    BodyLineShown(ix, p.message, p.line);
    NamedRow(ix, p.message, p.line, Body, RowOfPos(ix, p));
  }

  /** Within one block, earlier positions come first. */
  lemma {:induction false} OffsetOrder(doc: seq<Item>, b: Block, p: Pos, q: Pos)
    requires Sized(doc, b) && b.first <= p.message <= q.message <= b.last && Before(p, q)
    requires Offset(doc, b, p.message, p.line, Body).Some? && Offset(doc, b, q.message, q.line, Body).Some?
    ensures Offset(doc, b, p.message, p.line, Body).value < Offset(doc, b, q.message, q.line, Body).value
  {
    if p.message < q.message && !b.collapsed {
      LinesSplit(doc, b.first, p.message, q.message);
      LinesSplit(doc, p.message, p.message + 1, q.message);
    }
  }

  /** Reading order is screen order. */
  lemma {:induction false} RowOrder(ix: Page, p: Pos, q: Pos)
    requires Visible(ix.doc, p) && Visible(ix.doc, q) && Before(p, q)
    ensures RowOfPos(ix, p) < RowOfPos(ix, q)
  {
    hide Offset, Top, Weights;
    BodyLineShown(ix, p.message, p.line);
    BodyLineShown(ix, q.message, q.line);
    var k := BlockContaining(ix.blocks, p.message).value;
    var l := BlockContaining(ix.blocks, q.message).value;
    RowIndexIn(ix, k, p.message, p.line, Body);
    RowIndexIn(ix, l, q.message, q.line, Body);
    BlockOrder(ix, p.message, q.message);
    if k == l {
      OffsetOrder(ix.doc, ix.blocks[k], p, q);
    } else {
      OffsetShows(ix.doc, ix.blocks[k], p.message, p.line, Body);
      TopOrder(ix.blocks, k, l);
    }
  }

  lemma {:induction false} BlockOrder(ix: Page, m: nat, n: nat)
    requires m <= n < |ix.doc|
    requires BlockContaining(ix.blocks, m).Some? && BlockContaining(ix.blocks, n).Some?
    ensures BlockContaining(ix.blocks, m).value <= BlockContaining(ix.blocks, n).value
  {
    hide Tiled, BlockContaining;
    var k, l := BlockContaining(ix.blocks, m).value, BlockContaining(ix.blocks, n).value;
    if l < k {
      TilesApart(ix.doc, ix.blocks, |ix.doc|, l, k);
    }
  }

  lemma {:induction false} TopOrder(blocks: seq<Block>, k: nat, l: nat)
    requires k < l <= |blocks|
    ensures Top(blocks, k) + BlockRows(blocks[k]) <= Top(blocks, l)
  {
    hide Weights;
    PrefixMonotone(Weights(blocks), k + 1, l);
  }

  /** A body row lies at the position it shows, and screen order is reading order. */
  lemma {:induction false} BodyRowPos(ix: Page, row: nat, p: Pos) returns (r: Pos)
    requires row < |RowsOf(ix)| && RowsOf(ix)[row].kind == Body && Visible(ix.doc, p)
    ensures r == Pos(RowsOf(ix)[row].message, RowsOf(ix)[row].line)
    ensures Visible(ix.doc, r) && RowOfPos(ix, r) == row
    ensures RowOfPos(ix, p) < row ==> Before(p, r)
  {
    hide RowsOf;
    var shown := RowsOf(ix)[row];
    r := Pos(shown.message, shown.line);
    RowNamed(ix, row, r.message, r.line, Body);
    BodyLineShown(ix, r.message, r.line);
    if RowOfPos(ix, p) < row && Before(r, p) {
      RowOrder(ix, r, p);
    }
  }

  /** A step goes to the very next body row: only headings and ellipses are skipped. */
  lemma {:induction false} StepSkipsNoBody(ix: Page, p: Pos, row: nat)
    requires Visible(ix.doc, p) && RowOfPos(ix, p) < row < |RowsOf(ix)| && RowsOf(ix)[row].kind == Body
    ensures NextBodyPos(ix.doc, p).Some?
    ensures var q := NextBodyPos(ix.doc, p).value;
            Visible(ix.doc, q) && RowOfPos(ix, p) < RowOfPos(ix, q) <= row
  {
    hide RowsOf, RowOfPos;
    var r := BodyRowPos(ix, row, p);
    NextIsSuccessor(ix.doc, p, r);
    var q := NextBodyPos(ix.doc, p).value;
    RowOrder(ix, p, q);
    if Before(q, r) {
      RowOrder(ix, q, r);
    }
  }

  /** Without a next position every later row is a heading or an ellipsis. */
  lemma {:induction false} LastStepIsLastBody(ix: Page, p: Pos, row: nat)
    requires Visible(ix.doc, p) && NextBodyPos(ix.doc, p).None?
    requires RowOfPos(ix, p) < row < |RowsOf(ix)|
    ensures RowsOf(ix)[row].kind != Body
  {
    hide RowsOf, RowOfPos;
    if RowsOf(ix)[row].kind == Body {
      StepSkipsNoBody(ix, p, row);
    }
  }
}
