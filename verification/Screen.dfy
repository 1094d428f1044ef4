/** The flat list of rendered rows, and where each heading, body line and ellipsis stands in it. */
module Screen {
  import opened Arithmetic
  import opened Flat
  import opened Layout
  import opened Tiling

  datatype Kind = Heading | Body | Ellipsis

  /** `message` and `line` name what the row shows; the block's span goes along with it. */
  datatype Row = Row(message: nat, line: nat, kind: Kind, blockFirst: nat, blockLast: nat)

  ghost predicate Shows(row: Row, message: nat, line: nat, kind: Kind) {
    row.message == message && row.line == line && row.kind == kind
  }

  // --- One block ------------------------------------------------------------------

  /** The block fits the entries it spans. */
  ghost predicate Sized(doc: seq<Item>, b: Block) {
    && b.first <= b.last < |doc|
    && b.bodyLines == if b.collapsed then COLLAPSE_SHOW else Lines(doc, b.first, b.last + 1)
  }

  function MessageRows(b: Block, m: nat, n: nat): (rows: seq<Row>)
    ensures |rows| == n
    ensures forall i :: 0 <= i < n ==> rows[i] == Row(m, i, Body, b.first, b.last)
  {
    if n == 0 then [] else MessageRows(b, m, n - 1) + [Row(m, n - 1, Body, b.first, b.last)]
  }

  /** Every wrapped line of the block's messages before `m`. */
  function BodyRows(doc: seq<Item>, b: Block, m: nat): (rows: seq<Row>)
    requires m <= |doc|
    ensures |rows| == Lines(doc, b.first, m)
    decreases m
  {
    if m <= b.first then [] else BodyRows(doc, b, m - 1) + MessageRows(b, m - 1, doc[m - 1].lines)
  }

  function RowsOfBlock(doc: seq<Item>, b: Block): (rows: seq<Row>)
    requires Sized(doc, b)
    ensures |rows| == BlockRows(b)
  {
    [Row(b.first, 0, Heading, b.first, b.last)]
    + if b.collapsed
      then MessageRows(b, b.last, b.bodyLines) + [Row(b.last, 0, Ellipsis, b.first, b.last)]
      else BodyRows(doc, b, b.last + 1)
  }

  /** The offset of a line inside the block of its message; nothing when the block does not show it. */
  function Offset(doc: seq<Item>, b: Block, message: nat, line: nat, kind: Kind): Option<nat>
    requires Sized(doc, b) && b.first <= message <= b.last
  {
    match kind
    case Heading => if message == b.first && line == 0 then Some(0) else None
    case Ellipsis => if b.collapsed && message == b.last && line == 0 then Some(1 + b.bodyLines) else None
    case Body =>
      if b.collapsed then
        if message == b.last && line < b.bodyLines then Some(1 + line) else None
      else
        if line < doc[message].lines then Some(1 + Lines(doc, b.first, message) + line) else None
  }

  lemma {:induction false} BodyRowAt(doc: seq<Item>, b: Block, upTo: nat, m: nat, line: nat)
    requires b.first <= m < upTo <= |doc| && line < doc[m].lines
    ensures Lines(doc, b.first, m) + line < Lines(doc, b.first, upTo)
    ensures BodyRows(doc, b, upTo)[Lines(doc, b.first, m) + line] == Row(m, line, Body, b.first, b.last)
    decreases upTo
  {
    if m < upTo - 1 {
      BodyRowAt(doc, b, upTo - 1, m, line);
    }
  }

  lemma {:induction false} FindBodyRow(doc: seq<Item>, b: Block, upTo: nat, j: nat) returns (m: nat, line: nat)
    requires b.first <= upTo <= |doc| && j < Lines(doc, b.first, upTo)
    ensures b.first <= m < upTo && line < doc[m].lines && j == Lines(doc, b.first, m) + line
    ensures BodyRows(doc, b, upTo)[j] == Row(m, line, Body, b.first, b.last)
    decreases upTo
  {
    if j < Lines(doc, b.first, upTo - 1) {
      m, line := FindBodyRow(doc, b, upTo - 1, j);
    } else {
      m, line := upTo - 1, j - Lines(doc, b.first, upTo - 1);
    }
  }

  /** The row at a line's offset shows that line. */
  lemma {:induction false} OffsetShows(doc: seq<Item>, b: Block, message: nat, line: nat, kind: Kind)
    requires Sized(doc, b) && b.first <= message <= b.last && Offset(doc, b, message, line, kind).Some?
    ensures var j := Offset(doc, b, message, line, kind).value;
            j < BlockRows(b) && RowsOfBlock(doc, b)[j] == Row(message, line, kind, b.first, b.last)
  {
    hide BodyRows, MessageRows, Lines;
    if kind.Body? && !b.collapsed {
      BodyRowAt(doc, b, b.last + 1, message, line);
    }
  }

  /** Every row of the block is the row of the line it shows. */
  lemma {:induction false} RowHasOffset(doc: seq<Item>, b: Block, j: nat, message: nat, line: nat, kind: Kind)
    requires Sized(doc, b) && j < BlockRows(b) && Shows(RowsOfBlock(doc, b)[j], message, line, kind)
    ensures b.first <= message <= b.last && Offset(doc, b, message, line, kind) == Some(j)
  {
    hide BodyRows, MessageRows, Lines;
    if j > 0 && !b.collapsed {
      var m, l := FindBodyRow(doc, b, b.last + 1, j - 1);
    }
  }

  // --- All blocks ---------------------------------------------------------------------

  /** Entries with the blocks that tile them; whether the marks would group them so does not matter for rows. */
  datatype Index = Index(doc: seq<Item>, blocks: seq<Block>)

  type Page = ix: Index | Measured(ix.doc) && Tiled(ix.doc, ix.blocks, 0, |ix.doc|) witness Index([], [])

  function PieceOf(ix: Page, k: nat): seq<Row>
    requires k < |ix.blocks|
    ensures |PieceOf(ix, k)| == BlockRows(ix.blocks[k])
  {
    BlockSound(ix, k);
    RowsOfBlock(ix.doc, ix.blocks[k])
  }

  function Pieces(ix: Page, n: nat): (pieces: seq<seq<Row>>)
    requires n <= |ix.blocks|
    ensures |pieces| == n
  {
    if n == 0 then [] else Pieces(ix, n - 1) + [PieceOf(ix, n - 1)]
  }

  lemma {:induction false} PieceAt(ix: Page, n: nat, k: nat)
    requires k < n <= |ix.blocks|
    ensures Pieces(ix, n)[k] == PieceOf(ix, k)
  {
    hide PieceOf;
    if k < n - 1 {
      PieceAt(ix, n - 1, k);
    }
  }

  lemma {:induction false} PieceHeights(ix: Page)
    ensures Lengths(Pieces(ix, |ix.blocks|)) == Weights(ix.blocks)
  {
    hide PieceOf, Pieces, Lengths, Weights;
    var pieces := Pieces(ix, |ix.blocks|);
    forall k | 0 <= k < |ix.blocks|
      ensures |pieces[k]| == BlockRows(ix.blocks[k])
    {
      PieceAt(ix, |ix.blocks|, k);
    }
  }

  /** The screen: every row of every block, top to bottom. */
  function RowsOf(ix: Page): (rows: seq<Row>)
    ensures |rows| == Top(ix.blocks, |ix.blocks|)
  {
    PieceHeights(ix);
    Flatten(Pieces(ix, |ix.blocks|), |ix.blocks|)
  }

  /** The weights the row tree stores. */
  function Weights(blocks: seq<Block>): (w: seq<nat>)
    ensures |w| == |blocks| && forall k :: 0 <= k < |w| ==> w[k] == BlockRows(blocks[k])
  {
    if blocks == [] then [] else Weights(blocks[..|blocks| - 1]) + [BlockRows(blocks[|blocks| - 1])]
  }

  /** The first row of block `k`. */
  function Top(blocks: seq<Block>, k: nat): nat
    requires k <= |blocks|
  {
    Prefix(Weights(blocks), k)
  }

  /** Row `j` of block `k` stands `j` rows after everything before the block. */
  lemma {:induction false} RowAt(ix: Page, k: nat, j: nat)
    requires k < |ix.blocks| && j < BlockRows(ix.blocks[k])
    ensures Top(ix.blocks, k) + j < |RowsOf(ix)|
    ensures RowsOf(ix)[Top(ix.blocks, k) + j] == PieceOf(ix, k)[j]
  {
    hide RowsOfBlock, Flatten, Pieces, Weights, Lengths, Prefix, BlockRows;
    PieceHeights(ix);
    PieceAt(ix, |ix.blocks|, k);
    FlattenAt(Pieces(ix, |ix.blocks|), |ix.blocks|, k, j);
  }

  lemma {:induction false} LocateRow(ix: Page, row: nat) returns (k: nat, j: nat)
    requires row < |RowsOf(ix)|
    ensures k < |ix.blocks| && j < BlockRows(ix.blocks[k]) && row == Top(ix.blocks, k) + j
    ensures RowsOf(ix)[row] == PieceOf(ix, k)[j]
  {
    hide RowsOfBlock, Flatten;
    k, j := FindPiece(Weights(ix.blocks), |ix.blocks|, row);
    RowAt(ix, k, j);
  }

  // --- Messages and their blocks ------------------------------------------------

  /** The block index that `partition_point(|block| block.last < message)` yields. */
  function BlockIndex(blocks: seq<Block>, message: nat): (k: nat)
    ensures k <= |blocks|
    ensures forall i :: 0 <= i < k ==> blocks[i].last < message
    ensures k < |blocks| ==> blocks[k].last >= message
  {
    BlockIndexFrom(blocks, message, 0)
  }

  function BlockIndexFrom(blocks: seq<Block>, message: nat, from: nat): (k: nat)
    requires from <= |blocks|
    ensures from <= k <= |blocks|
    ensures forall i :: from <= i < k ==> blocks[i].last < message
    ensures k < |blocks| ==> blocks[k].last >= message
    decreases |blocks| - from
  {
    if from == |blocks| || blocks[from].last >= message then from
    else BlockIndexFrom(blocks, message, from + 1)
  }

  function BlockContaining(blocks: seq<Block>, message: nat): (at: Option<nat>)
    ensures at.Some? ==> at.value < |blocks| && blocks[at.value].first <= message <= blocks[at.value].last
  {
    var k := BlockIndex(blocks, message);
    if k < |blocks| && blocks[k].first <= message then Some(k) else None
  }

  /** In a tiling every entry has its block. */
  lemma {:induction false} TileOf(doc: seq<Item>, blocks: seq<Block>, to: nat, m: nat)
    requires Tiled(doc, blocks, 0, to) && m < to
    ensures BlockContaining(blocks, m).Some?
  {
    hide Cut, BlockIndex;
    var k := BlockIndex(blocks, m);
    assert 0 < k < |blocks| ==> Meets(blocks, k - 1);
  }

  /** A block's own start finds the block. */
  lemma {:induction false} TileAtStart(doc: seq<Item>, blocks: seq<Block>, to: nat, k: nat)
    requires Tiled(doc, blocks, 0, to) && k < |blocks|
    ensures BlockIndex(blocks, blocks[k].first) == k
  {
    hide Cut, BlockIndex;
    var j := BlockIndex(blocks, blocks[k].first);
    TilesEnd(doc, blocks, 0, to, k);
    if j < k {
      TilesApart(doc, blocks, to, j, k);
    }
  }

  /** Past the last block all of them are kept. */
  lemma {:induction false} TileAtEnd(doc: seq<Item>, blocks: seq<Block>, to: nat)
    requires Tiled(doc, blocks, 0, to)
    ensures BlockIndex(blocks, to) == |blocks|
  {
    hide Cut, BlockIndex;
    var k := BlockIndex(blocks, to);
    if k < |blocks| {
      TilesEnd(doc, blocks, 0, to, k);
    }
  }

  /** In a tiling every message has a block. */
  lemma {:induction false} BlockOfMessage(ix: Page, m: nat)
    requires m < |ix.doc|
    ensures BlockContaining(ix.blocks, m).Some?
  {
    TileOf(ix.doc, ix.blocks, |ix.doc|, m);
  }

  /** ... and only one. */
  lemma {:induction false} BlockContainingIs(ix: Page, k: nat, m: nat)
    requires k < |ix.blocks| && ix.blocks[k].first <= m <= ix.blocks[k].last
    ensures m < |ix.doc| && BlockContaining(ix.blocks, m) == Some(k)
  {
    hide Tiled;
    TilesEnd(ix.doc, ix.blocks, 0, |ix.doc|, k);
    BlockOfMessage(ix, m);
    var i := BlockContaining(ix.blocks, m).value;
    if i < k {
      TilesApart(ix.doc, ix.blocks, |ix.doc|, i, k);
    } else if k < i {
      TilesApart(ix.doc, ix.blocks, |ix.doc|, k, i);
    }
  }

  lemma {:induction false} BlockSound(ix: Page, k: nat)
    requires k < |ix.blocks|
    ensures Cut(ix.doc, ix.blocks[k]) && Sized(ix.doc, ix.blocks[k])
  {
    assert Fitted(ix.doc, ix.blocks, k);
  }

  /** A long message has its block to itself: a shared one holds fewer lines. */
  lemma {:induction false} LongStandsAlone(doc: seq<Item>, b: Block, m: nat)
    requires Cut(doc, b) && b.first <= m <= b.last && doc[m].lines > COLLAPSE_LIMIT
    ensures b.first == b.last == m
  {
    LinesSplit(doc, b.first, m, b.last + 1);
    LinesSplit(doc, m, m + 1, b.last + 1);
  }

  /** A block is folded exactly when its message shows fewer lines than it has. */
  lemma {:induction false} FoldShows(doc: seq<Item>, b: Block, m: nat)
    requires Cut(doc, b) && b.first <= m <= b.last
    ensures b.collapsed ==> b.first == b.last && VisibleBodyLines(doc[m]) == b.bodyLines
    ensures !b.collapsed ==> VisibleBodyLines(doc[m]) == doc[m].lines
  {
    if doc[m].lines > COLLAPSE_LIMIT {
      LongStandsAlone(doc, b, m);
    }
  }

  // --- Rows of named lines ---------------------------------------------------------

  /** Where the row for `(message, line, kind)` stands; nothing when the screen shows no such row. */
  function RowIndex(ix: Page, message: nat, line: nat, kind: Kind): Option<nat> {
    match BlockContaining(ix.blocks, message)
    case None => None
    case Some(k) =>
      BlockSound(ix, k);
      match Offset(ix.doc, ix.blocks[k], message, line, kind)
      case None => None
      case Some(j) => Some(Top(ix.blocks, k) + j)
  }

  lemma {:induction false} RowIndexIn(ix: Page, k: nat, message: nat, line: nat, kind: Kind)
    requires BlockContaining(ix.blocks, message) == Some(k)
    ensures Sized(ix.doc, ix.blocks[k])
    ensures RowIndex(ix, message, line, kind) ==
            match Offset(ix.doc, ix.blocks[k], message, line, kind)
            case None => None
            case Some(j) => Some(Top(ix.blocks, k) + j)
  {
    BlockSound(ix, k);
  }

  /** A named line stands where `RowIndex` says. */
  lemma {:induction false} NamedRow(ix: Page, message: nat, line: nat, kind: Kind, row: nat)
    requires RowIndex(ix, message, line, kind) == Some(row)
    ensures row < |RowsOf(ix)| && Shows(RowsOf(ix)[row], message, line, kind)
  {
    hide RowsOf, RowsOfBlock;
    var k := BlockContaining(ix.blocks, message).value;
    RowIndexIn(ix, k, message, line, kind);
    OffsetShows(ix.doc, ix.blocks[k], message, line, kind);
    RowAt(ix, k, row - Top(ix.blocks, k));
  }

  /** Every row is named by what it shows, so no line is shown twice. */
  lemma {:induction false} RowNamed(ix: Page, row: nat, message: nat, line: nat, kind: Kind)
    requires row < |RowsOf(ix)| && Shows(RowsOf(ix)[row], message, line, kind)
    ensures message < |ix.doc| && RowIndex(ix, message, line, kind) == Some(row)
  {
    hide RowsOf, RowsOfBlock;
    var k, j := LocateRow(ix, row);
    BlockSound(ix, k);
    RowHasOffset(ix.doc, ix.blocks[k], j, message, line, kind);
    BlockContainingIs(ix, k, message);
    RowIndexIn(ix, k, message, line, kind);
  }

  /** A body line has a row exactly when it is one of the lines its message shows. */
  lemma {:induction false} BodyLineShown(ix: Page, message: nat, line: nat)
    requires message < |ix.doc|
    ensures RowIndex(ix, message, line, Body).Some? <==> line < VisibleBodyLines(ix.doc[message])
  {
    BlockOfMessage(ix, message);
    var k := BlockContaining(ix.blocks, message).value;
    BlockSound(ix, k);
    FoldShows(ix.doc, ix.blocks[k], message);
  }
}
