/** Appending an entry and toggling a fold: what an incremental repair must produce, and what it leaves alone. */
module Increment {
  import opened Arithmetic
  import opened Flat
  import opened Layout
  import opened Tiling
  import opened Screen

  // --- Appending -------------------------------------------------------------------

  /** The block of a message that stands alone. */
  function Alone(doc: seq<Item>, m: nat): Block
    requires m < |doc|
  {
    if doc[m].lines > COLLAPSE_LIMIT then LongBlock(doc, m) else Block(m, m, doc[m].lines, false)
  }

  /** Whether the newest message joins the block that was last before it. */
  predicate JoinsLast(doc: seq<Item>, blocks: seq<Block>) {
    var m := |doc| - 1;
    m > 0 && blocks != []
    && !Boundary(doc, m)
    && blocks[|blocks| - 1].bodyLines + doc[m].lines <= GROUP_BLOCK_LIMIT
  }

  /** The blocks once the newest message of `doc` has arrived behind those `blocks` pack. */
  function Appended(doc: seq<Item>, blocks: seq<Block>): seq<Block>
    requires doc != []
  {
    var m := |doc| - 1;
    if JoinsLast(doc, blocks) then
      var b := blocks[|blocks| - 1];
      blocks[..|blocks| - 1] + [Block(b.first, m, b.bodyLines + doc[m].lines, false)]
    else
      blocks + [Alone(doc, m)]
  }

  lemma {:induction false} AlonePacks(doc: seq<Item>, m: nat)
    requires m < |doc|
    ensures BlockOk(doc, Alone(doc, m))
    ensures Greedy(doc, [Alone(doc, m)], m, m + 1)
  {
    assert Lines(doc, m, m + 1) == doc[m].lines;
    assert Sound(doc, [Alone(doc, m)], 0);
  }

  /** A block that may still take the next message is not folded. */
  lemma {:induction false} JoinExtends(doc: seq<Item>, b: Block)
    requires BlockOk(doc, b) && b.last + 1 < |doc| && !Boundary(doc, b.last + 1)
    requires b.bodyLines + doc[b.last + 1].lines <= GROUP_BLOCK_LIMIT
    ensures BlockOk(doc, Block(b.first, b.last + 1, b.bodyLines + doc[b.last + 1].lines, false))
  {
  }

  lemma {:induction false} JoinPacks(doc: seq<Item>, blocks: seq<Block>)
    requires doc != [] && Greedy(doc, blocks, 0, |doc| - 1) && JoinsLast(doc, blocks)
    ensures Packing(doc, Appended(doc, blocks))
  {
    var m, k := |doc| - 1, |blocks| - 1;
    var b := blocks[k];
    assert Sound(doc, blocks, k);
    JoinExtends(doc, b);
    var grown := Block(b.first, m, b.bodyLines + doc[m].lines, false);
    assert Sound(doc, [grown], 0);
    GreedyPrefix(doc, blocks, 0, m, k);
    if k > 0 {
      assert Joined(doc, blocks, k - 1);
    }
    GreedyConcat(doc, blocks[..k], [grown], 0, b.first, m + 1);
  }

  /** Appending packs: the result is the packing of the longer list, hence by uniqueness the rebuilt one. */
  lemma {:induction false} AppendPacks(doc: seq<Item>, blocks: seq<Block>)
    requires doc != [] && Packing(doc[..|doc| - 1], blocks)
    ensures Packing(doc, Appended(doc, blocks))
  {
    var m := |doc| - 1;
    assert doc[..m][..m] == doc[..m];
    GreedyAgrees(doc[..m], doc, blocks, m);
    if JoinsLast(doc, blocks) {
      JoinPacks(doc, blocks);
    } else {
      AlonePacks(doc, m);
      if blocks != [] {
        LastIsFull(doc, blocks);
      }
      GreedyConcat(doc, blocks, [Alone(doc, m)], 0, m, m + 1);
    }
  }

  lemma {:induction false} LastIsFull(doc: seq<Item>, blocks: seq<Block>)
    requires doc != [] && Greedy(doc, blocks, 0, |doc| - 1) && blocks != [] && !JoinsLast(doc, blocks)
    ensures Full(doc, blocks[|blocks| - 1])
  {
    var b := blocks[|blocks| - 1];
    assert Sound(doc, blocks, |blocks| - 1);
    assert b.collapsed ==> doc[b.last].lines > COLLAPSE_LIMIT;
  }

  /** Whatever packs the longer list, its blocks are the shorter list's with the newest message added. */
  lemma {:induction false} AppendIsAppended(before: Page, after: Page)
    requires Packing(before.doc, before.blocks) && Packing(after.doc, after.blocks)
    requires after.doc != [] && before.doc == after.doc[..|after.doc| - 1]
    ensures after.blocks == Appended(after.doc, before.blocks)
  {
    AppendPacks(after.doc, before.blocks);
    GreedyUnique(after.doc, after.blocks, Appended(after.doc, before.blocks), 0, |after.doc|);
  }

  // --- Repairing after an append -----------------------------------------------------------

  /** The entry the repair starts from; nothing when the blocks do not cover the entry before the newest. */
  function RepairStart(doc: seq<Item>, blocks: seq<Block>): (start: Option<nat>)
    requires doc != []
    ensures start.Some? ==> start.value < |doc|
  {
    var oldLen := |doc| - 1;
    if oldLen == 0 then Some(0)
    else if Boundary(doc, oldLen) then Some(oldLen)
    else
      match BlockContaining(blocks, oldLen - 1)
      case None => None
      case Some(k) => Some(blocks[k].first)
  }

  /** `after` keeps the blocks of `blocks` that end before the start, and packs everything from there on. */
  ghost predicate Repaired(doc: seq<Item>, blocks: seq<Block>, after: seq<Block>)
    requires doc != []
  {
    RepairStart(doc, blocks).Some?
    && var start := RepairStart(doc, blocks).value;
       TailFrom(doc, blocks, after, start)
  }

  ghost predicate TailFrom(doc: seq<Item>, blocks: seq<Block>, after: seq<Block>, start: nat) {
    var keep := BlockIndex(blocks, start);
    keep <= |after| && after[..keep] == blocks[..keep] && Greedy(doc, after[keep..], start, |doc|)
  }

  /** The newest message starts a block of its own, or the marks do not divide the block it was to join. */
  ghost predicate Undivided(doc: seq<Item>, blocks: seq<Block>)
    requires doc != []
  {
    var m := |doc| - 1;
    m == 0 || Boundary(doc, m) || blocks == [] || Unbroken(doc, blocks[|blocks| - 1])
  }

  /** One entry more, its blocks repaired. */
  ghost predicate Grows(before: Page, after: Page) {
    && after.doc != [] && before.doc == after.doc[..|after.doc| - 1]
    && Repaired(after.doc, before.blocks, after.blocks)
  }

  // --- Whether rows below the old total move ------------------------------------------------

  /** A line keeps its offset when its block stays or, unfolded, ends elsewhere. */
  lemma {:induction false} OffsetKept(doc: seq<Item>, more: seq<Item>, b: Block, grown: Block, message: nat, line: nat,
                                      kind: Kind)
    requires |doc| <= |more| && doc == more[..|doc|]
    requires Sized(doc, b) && Sized(more, grown) && b.first <= message <= b.last && message <= grown.last
    requires grown == b || (grown.first == b.first && !b.collapsed && !grown.collapsed)
    ensures Offset(more, grown, message, line, kind) == Offset(doc, b, message, line, kind)
  {
    assert forall i :: 0 <= i < |doc| ==> doc[i] == more[..|doc|][i] == more[i];
    LinesAgree(doc, more, b.first, message);
  }

  lemma {:induction false} TopKept(blocks: seq<Block>, more: seq<Block>, k: nat)
    requires k <= |blocks| && k <= |more| && blocks[..k] == more[..k]
    ensures Top(blocks, k) == Top(more, k)
  {
    assert forall i :: 0 <= i < k ==> blocks[i] == blocks[..k][i] == more[i];
    PrefixAgrees(Weights(blocks), Weights(more), k);
  }

  lemma {:induction false} EndsAtLast(ix: Page)
    requires ix.doc != []
    ensures ix.blocks != []
    ensures var b := ix.blocks[|ix.blocks| - 1]; b.first <= b.last == |ix.doc| - 1
  {
    hide Cut;
    TilesEnd(ix.doc, ix.blocks, 0, |ix.doc|, |ix.blocks| - 1);
  }

  /** The repair leaves the blocks before the last alone, and all of them when the newest message starts its own. */
  lemma {:induction false} RepairKeeps(before: Page, after: Page)
    requires Grows(before, after)
    ensures var m, n := |before.doc|, |before.blocks|;
            if m == 0 || Boundary(after.doc, m)
            then n < |after.blocks| && after.blocks[..n] == before.blocks
            else && 0 < n <= |after.blocks| && after.blocks[..n - 1] == before.blocks[..n - 1]
                 && before.blocks[n - 1].last == m - 1 && after.blocks[n - 1].first == before.blocks[n - 1].first
                 && Greedy(after.doc, after.blocks[n - 1..], before.blocks[n - 1].first, |after.doc|)
  {
    hide BlockIndex, Boundary, Cut, Greedy;
    var m, n := |before.doc|, |before.blocks|;
    var start := RepairStart(after.doc, before.blocks).value;
    TileAtEnd(before.doc, before.blocks, m);
    if m == 0 || Boundary(after.doc, m) {
      assert start == m && before.blocks[..n] == before.blocks;
      GreedyHead(after.doc, after.blocks[n..], m, |after.doc|);
    } else {
      assert n > 0;
      TilesEnd(before.doc, before.blocks, 0, m, n - 1);
      BlockContainingIs(before, n - 1, m - 1);
      TileAtStart(before.doc, before.blocks, m, n - 1);
      GreedyHead(after.doc, after.blocks[n - 1..], start, |after.doc|);
    }
  }

  lemma {:induction false} GreedyHead(doc: seq<Item>, blocks: seq<Block>, from: nat, to: nat)
    requires Greedy(doc, blocks, from, to) && from < to
    ensures blocks != [] && blocks[0].first == from
  {
    hide Sound, Joined;
  }

  /** A block the newest message may join holds no long message, so nothing packed from it is folded. */
  lemma {:induction false} OpenBlockIsShort(before: Page, doc: seq<Item>)
    requires doc != [] && before.doc == doc[..|doc| - 1] && before.blocks != []
    requires before.blocks[|before.blocks| - 1].last == |doc| - 2 && !Boundary(doc, |doc| - 1)
    ensures var b := before.blocks[|before.blocks| - 1];
            !b.collapsed && forall i :: b.first <= i <= b.last ==> doc[i].lines <= COLLAPSE_LIMIT
  {
    hide Tiled;
    var k := |before.blocks| - 1;
    var b := before.blocks[k];
    BlockSound(before, k);
    forall i | b.first <= i <= b.last
      ensures doc[i].lines <= COLLAPSE_LIMIT
    {
      assert before.doc[i] == doc[i];
      if doc[i].lines > COLLAPSE_LIMIT {
        LongStandsAlone(before.doc, b, i);
      }
    }
    assert before.doc[b.last] == doc[b.last];
  }

  /** The first block packed in place of `b` reaches its end exactly when no boundary lies inside it. */
  lemma {:induction false} UnbrokenReaches(doc: seq<Item>, b: Block, tail: seq<Block>)
    requires Cut(doc, b) && b.last + 1 < |doc| && Greedy(doc, tail, b.first, |doc|)
    ensures tail != [] && (tail[0].last >= b.last <==> Unbroken(doc, b))
  {
    hide Boundary;
    GreedyHead(doc, tail, b.first, |doc|);
    assert Sound(doc, tail, 0);
    if tail[0].last < b.last {
      assert Joined(doc, tail, 0);
      LinesSplit(doc, b.first, tail[0].last + 2, b.last + 1);
    }
  }

  /** Down to a later unfolded block there are the lines between and a heading each. */
  lemma {:induction false} TopSpans(ix: Page, k: nat, j: nat)
    requires k <= j < |ix.blocks| && forall i :: k <= i < j ==> !ix.blocks[i].collapsed
    ensures ix.blocks[k].first <= ix.blocks[j].first < |ix.doc|
    ensures Top(ix.blocks, j) == Top(ix.blocks, k) + Lines(ix.doc, ix.blocks[k].first, ix.blocks[j].first) + (j - k)
    decreases j
  {
    hide Weights, Tiled;
    BlockSound(ix, j);
    if k < j {
      TopSpans(ix, k, j - 1);
      BlockSound(ix, j - 1);
      assert ix.blocks[j].first == ix.blocks[j - 1].last + 1 by {
        PageMeets(ix, j - 1);
      }
      LinesSplit(ix.doc, ix.blocks[k].first, ix.blocks[j - 1].first, ix.blocks[j].first);
    }
  }

  lemma {:induction false} PageMeets(ix: Page, k: nat)
    requires k + 1 < |ix.blocks|
    ensures ix.blocks[k + 1].first == ix.blocks[k].last + 1
  {
    assert Meets(ix.blocks, k);
  }

  /** The block of a message: unknown ones have none. */
  ghost function BlockNo(ix: Page, message: nat): (k: nat)
    requires message < |ix.doc|
    ensures k < |ix.blocks| && BlockContaining(ix.blocks, message) == Some(k)
    ensures ix.blocks[k].first <= message <= ix.blocks[k].last
  {
    BlockOfMessage(ix, message);
    BlockContaining(ix.blocks, message).value
  }

  /** No message comes into an earlier block, and none changes its block unless the marks divide the last one. */
  lemma {:induction false} BlocksMove(before: Page, after: Page, message: nat)
    requires Grows(before, after) && message < |before.doc|
    ensures BlockNo(before, message) <= BlockNo(after, message)
    ensures Undivided(after.doc, before.blocks) ==> BlockNo(after, message) == BlockNo(before, message)
    ensures BlockNo(before, message) < BlockNo(after, message) ==>
              BlockNo(before, message) == |before.blocks| - 1 && !Boundary(after.doc, |before.doc|)
    ensures !Undivided(after.doc, before.blocks) && message == |before.doc| - 1 ==>
              BlockNo(before, message) < BlockNo(after, message)
  {
    hide Tiled, Boundary, Unbroken, BlockContaining, Greedy, Repaired;
    var m, n, k := |before.doc|, |before.blocks|, BlockNo(before, message);
    RepairKeeps(before, after);
    if Boundary(after.doc, m) || k < n - 1 {
      assert after.blocks[k] == before.blocks[k] by {
        KeptBlock(before.blocks, after.blocks, k, if Boundary(after.doc, m) then n else n - 1);
      }
      BlockContainingIs(after, k, message);
      if message == m - 1 {
        EndsAtLast(before);
        BlockContainingIs(before, n - 1, m - 1);
      }
    } else {
      LastBlockMoves(before, after, message);
    }
  }

  lemma {:induction false} KeptBlock(a: seq<Block>, b: seq<Block>, k: nat, n: nat)
    requires k < n <= |a| && n <= |b| && b[..n] == a[..n]
    ensures b[k] == a[k] && b[..k] == a[..k]
  {
    assert b[k] == b[..n][k];
    assert b[..k] == b[..n][..k] && a[..k] == a[..n][..k];
  }

  lemma {:induction false} LastBlockMoves(before: Page, after: Page, message: nat)
    requires Grows(before, after) && message < |before.doc| && !Boundary(after.doc, |before.doc|)
    requires BlockNo(before, message) == |before.blocks| - 1
    ensures BlockNo(before, message) <= BlockNo(after, message)
    ensures Undivided(after.doc, before.blocks) ==> BlockNo(after, message) == BlockNo(before, message)
    ensures !Undivided(after.doc, before.blocks) && message == |before.doc| - 1 ==>
              BlockNo(before, message) < BlockNo(after, message)
  {
    hide Tiled, Boundary, Unbroken, BlockContaining, Greedy, Repaired, Cut;
    var m, k, j := |before.doc|, |before.blocks| - 1, BlockNo(after, message);
    RepairKeeps(before, after);
    var b := before.blocks[k];
    BlockSound(before, k);
    CutGrows(before.doc, after.doc, b);
    UnbrokenReaches(after.doc, b, after.blocks[k..]);
    assert after.blocks[k..][0] == after.blocks[k];
    if j < k {
      KeptBlock(before.blocks, after.blocks, j, k);
      BlockContainingIs(before, j, message);
      assert false;
    }
    if message <= after.blocks[k].last {
      BlockContainingIs(after, k, message);
    }
  }

  lemma {:induction false} CutGrows(doc: seq<Item>, more: seq<Item>, b: Block)
    requires |doc| <= |more| && doc == more[..|doc|] && Cut(doc, b)
    ensures Cut(more, b)
  {
    assert forall i :: 0 <= i < |doc| ==> doc[i] == more[..|doc|][i] == more[i];
    LinesAgree(doc, more, b.first, b.last + 1);
  }

  /** A line that changes its block belongs to a body, and moves down by the headings put in before it. */
  lemma {:induction false} DividedLine(before: Page, after: Page, message: nat, line: nat, kind: Kind)
    requires Grows(before, after) && message < |before.doc| && !Boundary(after.doc, |before.doc|)
    requires RowIndex(before, message, line, kind).Some?
    requires BlockNo(before, message) == |before.blocks| - 1 < BlockNo(after, message)
    ensures RowIndex(after, message, line, kind) ==
            Some(RowIndex(before, message, line, kind).value + BlockNo(after, message) - BlockNo(before, message))
  {
    hide Tiled, Boundary, Greedy, Repaired, BlockContaining, Weights, Top;
    var k, j := |before.blocks| - 1, BlockNo(after, message);
    RepairKeeps(before, after);
    OpenBlockIsShort(before, after.doc);
    var b := before.blocks[k];
    BlockSound(before, k);
    BlockSound(after, j);
    RowIndexIn(before, k, message, line, kind);
    RowIndexIn(after, j, message, line, kind);
    forall i | k <= i < j
      ensures !after.blocks[i].collapsed
    {
      ShortUnfolded(after, k, i, j, b);
    }
    TopSpans(after, k, j);
    TopKept(before.blocks, after.blocks, k);
    LinesSplit(after.doc, b.first, after.blocks[j].first, message);
    LinesKept(before.doc, after.doc, b.first, message);
  }

  lemma {:induction false} LinesKept(doc: seq<Item>, more: seq<Item>, a: nat, b: nat)
    requires b < |doc| <= |more| && doc == more[..|doc|]
    ensures Lines(more, a, b) == Lines(doc, a, b) && more[b] == doc[b]
  {
    assert forall i :: 0 <= i < |doc| ==> doc[i] == more[..|doc|][i] == more[i];
    LinesAgree(doc, more, a, b);
  }

  /** Blocks between the start of `b` and a message of it are unfolded when `b` holds no long message. */
  lemma {:induction false} ShortUnfolded(ix: Page, k: nat, i: nat, j: nat, b: Block)
    requires k <= i < j < |ix.blocks| && b.first == ix.blocks[k].first && ix.blocks[j].first <= b.last < |ix.doc|
    requires forall p :: b.first <= p <= b.last ==> ix.doc[p].lines <= COLLAPSE_LIMIT
    ensures !ix.blocks[i].collapsed
  {
    hide Tiled;
    BlockSound(ix, k);
    BlockSound(ix, i);
    TilesApart(ix.doc, ix.blocks, |ix.doc|, i, j);
    if k < i {
      TilesApart(ix.doc, ix.blocks, |ix.doc|, k, i);
    }
  }

  /**
   * What a repair does to a line on screen: it moves down by exactly the number of blocks, each with its heading, that
   * come to stand before it.
   */
  lemma {:induction false} AppendMovesLine(before: Page, after: Page, message: nat, line: nat, kind: Kind)
    requires Grows(before, after) && message < |before.doc| && RowIndex(before, message, line, kind).Some?
    ensures BlockNo(before, message) <= BlockNo(after, message)
    ensures RowIndex(after, message, line, kind) ==
            Some(RowIndex(before, message, line, kind).value + BlockNo(after, message) - BlockNo(before, message))
  {
    hide Tiled, Boundary, Greedy, Repaired, BlockContaining, Weights, Top, Offset, Undivided, Cut;
    var k, n := BlockNo(before, message), |before.blocks|;
    BlocksMove(before, after, message);
    if k < BlockNo(after, message) {
      DividedLine(before, after, message, line, kind);
    } else {
      RepairKeeps(before, after);
      BlockSound(before, k);
      BlockSound(after, k);
      RowIndexIn(before, k, message, line, kind);
      RowIndexIn(after, k, message, line, kind);
      if Boundary(after.doc, |before.doc|) || k < n - 1 {
        KeptBlock(before.blocks, after.blocks, k, if Boundary(after.doc, |before.doc|) then n else n - 1);
      } else {
        OpenBlockIsShort(before, after.doc);
        StillUnfolded(after, k, before.blocks[k]);
      }
      OffsetKept(before.doc, after.doc, before.blocks[k], after.blocks[k], message, line, kind);
      TopKept(before.blocks, after.blocks, k);
    }
  }

  lemma {:induction false} StillUnfolded(ix: Page, k: nat, b: Block)
    requires k < |ix.blocks| && ix.blocks[k].first == b.first <= b.last < |ix.doc|
    requires ix.doc[b.first].lines <= COLLAPSE_LIMIT
    ensures !ix.blocks[k].collapsed
  {
    hide Tiled;
    BlockSound(ix, k);
  }

  /** Every row below the old total shows what it showed. */
  ghost predicate KeepsRows(before: Page, after: Page) {
    && |RowsOf(before)| <= |RowsOf(after)|
    && forall row :: 0 <= row < |RowsOf(before)| ==> SameRow(RowsOf(before)[row], RowsOf(after)[row])
  }

  ghost predicate SameRow(a: Row, b: Row) {
    Shows(b, a.message, a.line, a.kind)
  }

  /** Every line on screen keeps its row. */
  ghost predicate KeepsLines(before: Page, after: Page) {
    forall message: nat, line: nat, kind :: RowIndex(before, message, line, kind).Some? ==>
      RowIndex(after, message, line, kind) == RowIndex(before, message, line, kind)
  }

  /** An append moves no row exactly when the marks do not divide the block the newcomer was to join. */
  lemma {:induction false} AppendKeepsRow(before: Page, after: Page)
    requires Grows(before, after)
    ensures KeepsRows(before, after) <==> Undivided(after.doc, before.blocks)
  {
    hide RowsOf, Undivided, Repaired, RowIndex;
    if Undivided(after.doc, before.blocks) {
      forall row | 0 <= row < |RowsOf(before)|
        ensures row < |RowsOf(after)| && SameRow(RowsOf(before)[row], RowsOf(after)[row])
      {
        UndividedRow(before, after, row);
      }
      if |RowsOf(before)| > 0 {
        UndividedRow(before, after, |RowsOf(before)| - 1);
      }
    } else {
      DividedRow(before, after);
    }
  }

  lemma {:induction false} UndividedRow(before: Page, after: Page, row: nat)
    requires Grows(before, after) && Undivided(after.doc, before.blocks) && row < |RowsOf(before)|
    ensures row < |RowsOf(after)| && SameRow(RowsOf(before)[row], RowsOf(after)[row])
  {
    hide RowsOf, Undivided, Repaired, RowIndex;
    var r := RowsOf(before)[row];
    RowNamed(before, row, r.message, r.line, r.kind);
    BlocksMove(before, after, r.message);
    AppendMovesLine(before, after, r.message, r.line, r.kind);
    NamedRow(after, r.message, r.line, r.kind, row);
  }

  /** Otherwise the first line of the message before the newest moves. */
  lemma {:induction false} DividedRow(before: Page, after: Page)
    requires Grows(before, after) && !Undivided(after.doc, before.blocks)
    ensures !KeepsRows(before, after) && !KeepsLines(before, after)
  {
    hide RowsOf, Tiled, Boundary, Repaired, RowIndex;
    var last := |before.doc| - 1;
    BodyLineShown(before, last, 0);
    var row := RowIndex(before, last, 0, Body).value;
    NamedRow(before, last, 0, Body, row);
    BlocksMove(before, after, last);
    AppendMovesLine(before, after, last, 0, Body);
    if KeepsRows(before, after) {
      assert SameRow(RowsOf(before)[row], RowsOf(after)[row]);
      RowNamed(after, row, last, 0, Body);
    }
  }

  /** The same of lines. */
  lemma {:induction false} AppendKeepsRowIndex(before: Page, after: Page)
    requires Grows(before, after)
    ensures KeepsLines(before, after) <==> Undivided(after.doc, before.blocks)
  {
    hide RowsOf, Undivided, Repaired, RowIndex, Tiled;
    if Undivided(after.doc, before.blocks) {
      forall message: nat, line: nat, kind | RowIndex(before, message, line, kind).Some?
        ensures RowIndex(after, message, line, kind) == RowIndex(before, message, line, kind)
      {
        var row := RowIndex(before, message, line, kind).value;
        NamedRow(before, message, line, kind, row);
        RowNamed(before, row, message, line, kind);
        BlocksMove(before, after, message);
        AppendMovesLine(before, after, message, line, kind);
      }
    } else {
      DividedRow(before, after);
    }
  }

  // --- ... none do where the blocks were packed --------------------------------------------------

  lemma {:induction false} GreedySuffix(doc: seq<Item>, blocks: seq<Block>, from: nat, to: nat, k: nat)
    requires Greedy(doc, blocks, from, to) && k < |blocks|
    ensures Greedy(doc, blocks[k..], blocks[k].first, to)
  {
    var rest := blocks[k..];
    TilesForward(doc, blocks, from, to, k);
    forall i | 0 <= i < |rest|
      ensures Sound(doc, rest, i)
    {
      assert Sound(doc, blocks, k + i);
    }
    forall i | 0 <= i < |rest| - 1
      ensures Joined(doc, rest, i)
    {
      assert Joined(doc, blocks, k + i);
    }
  }

  lemma {:induction false} AppendedShape(doc: seq<Item>, blocks: seq<Block>)
    requires doc != []
    ensures var after, n := Appended(doc, blocks), |blocks|;
            if |doc| == 1 || Boundary(doc, |doc| - 1)
            then n < |after| && after[..n] == blocks && after[n..] == [Alone(doc, |doc| - 1)]
            else n > 0 ==>
                   n <= |after| && after[..n - 1] == blocks[..n - 1] && after[n - 1].first == blocks[n - 1].first
  {
    hide Boundary, Alone;
  }

  /** A packing of the longer list is a repair of the shorter one's. */
  lemma {:induction false} RebuildRepairs(before: Page, after: Page)
    requires Packing(before.doc, before.blocks) && Packing(after.doc, after.blocks)
    requires after.doc != [] && before.doc == after.doc[..|after.doc| - 1]
    ensures Grows(before, after)
  {
    hide Boundary, Greedy, BlockIndex, Tiled, Alone, BlockContaining, Appended;
    var m, n := |before.doc|, |before.blocks|;
    AppendIsAppended(before, after);
    AppendedShape(after.doc, before.blocks);
    TileAtEnd(before.doc, before.blocks, m);
    if m == 0 || Boundary(after.doc, m) {
      AlonePacks(after.doc, m);
      assert before.blocks[..n] == before.blocks;
    } else {
      EndsAtLast(before);
      BlockContainingIs(before, n - 1, m - 1);
      TileAtStart(before.doc, before.blocks, m, n - 1);
      GreedySuffix(after.doc, after.blocks, 0, |after.doc|, n - 1);
    }
  }

  lemma {:induction false} PackedIsUndivided(before: Page, doc: seq<Item>)
    requires Packing(before.doc, before.blocks) && doc != [] && before.doc == doc[..|doc| - 1]
    ensures Undivided(doc, before.blocks)
  {
    var m := |doc| - 1;
    assert doc[..m][..m] == doc[..m];
    GreedyAgrees(before.doc, doc, before.blocks, m);
    if before.blocks != [] {
      assert Sound(doc, before.blocks, |before.blocks| - 1);
    }
  }

  /** So an append to packed blocks, repaired or rebuilt, moves no row. */
  lemma {:induction false} PackedKeepsRows(before: Page, after: Page)
    requires Packing(before.doc, before.blocks)
    requires Grows(before, after) || (Packing(after.doc, after.blocks) && after.doc != []
                                      && before.doc == after.doc[..|after.doc| - 1])
    ensures KeepsRows(before, after) && KeepsLines(before, after)
  {
    hide RowsOf, Greedy, Undivided, KeepsRows, KeepsLines, Repaired;
    if Packing(after.doc, after.blocks) {
      RebuildRepairs(before, after);
    }
    PackedIsUndivided(before, after.doc);
    AppendKeepsRow(before, after);
    AppendKeepsRowIndex(before, after);
  }

  /**
   * It can fail: two messages under one heading, then the first is found to be unverified, then a third arrives. The
   * second gets a heading of its own, and its line moves down a row.
   */
  lemma {:induction false} DividedBlockMovesRows()
    ensures var mark := Label("ann", 1, false, false, false);
            var doc := [Item(1, false, Some(mark.(unverified := true))), Item(1, false, Some(mark)),
                        Item(1, false, Some(mark))];
            var blocks, after := [Block(0, 1, 2, false)], [Block(0, 0, 1, false), Block(1, 2, 2, false)];
            && Measured(doc) && Tiled(doc[..2], blocks, 0, 2) && Tiled(doc, after, 0, 3)
            && RepairStart(doc, blocks) == Some(0) && Grows(Index(doc[..2], blocks), Index(doc, after))
            && RowIndex(Index(doc[..2], blocks), 1, 0, Body) == Some(2)
            && RowIndex(Index(doc, after), 1, 0, Body) == Some(3)
            && RowIndex(Index(doc, after), 1, 0, Heading) == Some(2)
  {
    hide Weights, Prefix, Lines, BlockIndex;
    var mark := Label("ann", 1, false, false, false);
    var doc := [Item(1, false, Some(mark.(unverified := true))), Item(1, false, Some(mark)),
                Item(1, false, Some(mark))];
    var blocks, after := [Block(0, 1, 2, false)], [Block(0, 0, 1, false), Block(1, 2, 2, false)];
    var was := doc[..2];
    OneLineEach(was);
    OneLineEach(doc);
    assert Fitted(was, blocks, 0);
    assert Boundary(doc, 1) && !Boundary(doc, 2);
    assert Sound(doc, after, 0) && Sound(doc, after, 1) && Joined(doc, after, 0);
    GreedyTiles(doc, after, 0, 3);
    hide Tiled, Greedy;
    var a: Page, b: Page := Index(was, blocks), Index(doc, after);
    BlockContainingIs(a, 0, 1);
    BlockContainingIs(b, 1, 1);
    TileAtStart(was, blocks, 2, 0);
    assert after[0..] == after;
    RowIndexIn(a, 0, 1, 0, Body);
    RowIndexIn(b, 1, 1, 0, Body);
    RowIndexIn(b, 1, 1, 0, Heading);
    TopSpans(b, 0, 1);
    NoTop(after);
    NoTop(blocks);
  }

  lemma {:induction false} OneLineEach(doc: seq<Item>)
    requires forall i :: 0 <= i < |doc| ==> doc[i].lines == 1
    ensures forall a, b :: 0 <= a <= b <= |doc| ==> Lines(doc, a, b) == b - a
  {
    forall a, b | 0 <= a <= b <= |doc|
      ensures Lines(doc, a, b) == b - a
    {
      LinesCount(doc, a, b);
    }
  }

  lemma {:induction false} LinesCount(doc: seq<Item>, a: nat, b: nat)
    requires a <= b <= |doc| && forall i :: 0 <= i < |doc| ==> doc[i].lines == 1
    ensures Lines(doc, a, b) == b - a
    decreases b
  {
    if a < b {
      LinesCount(doc, a, b - 1);
    }
  }

  lemma {:induction false} NoTop(blocks: seq<Block>)
    ensures Top(blocks, 0) == 0
  {
  }

  // --- Toggling a fold ---------------------------------------------------------------------

  function Refolded(doc: seq<Item>, m: nat, expanded: bool): seq<Item>
    requires m < |doc|
  {
    doc[m := doc[m].(expanded := expanded)]
  }

  /** Grouping does not read the fold flag. */
  lemma {:induction false} RefoldKeepsGrouping(doc: seq<Item>, m: nat, expanded: bool)
    requires m < |doc|
    ensures forall i :: 0 < i < |doc| ==> Boundary(Refolded(doc, m, expanded), i) == Boundary(doc, i)
    ensures forall a, b :: 0 <= a <= b <= |doc| ==> Lines(Refolded(doc, m, expanded), a, b) == Lines(doc, a, b)
  {
    forall a, b | 0 <= a <= b <= |doc|
      ensures Lines(Refolded(doc, m, expanded), a, b) == Lines(doc, a, b)
    {
      LinesAgree(Refolded(doc, m, expanded), doc, a, b);
    }
  }

  /** A block rewritten for the fold flag of its message, whether or not it holds that alone. */
  function FoldedBlock(doc: seq<Item>, b: Block, m: nat, expanded: bool): Block
    requires m < |doc|
  {
    b.(bodyLines := if expanded then doc[m].lines else COLLAPSE_SHOW, collapsed := !expanded)
  }

  /** The message is long by its kept count, or it has the block to itself and is to be shown in full. */
  predicate Foldable(doc: seq<Item>, b: Block, m: nat, expanded: bool)
    requires m < |doc|
  {
    doc[m].lines > COLLAPSE_LIMIT || (expanded && b.first == b.last)
  }

  /** Rewriting the one block of a message in place tiles the list with the new flag exactly when it may be folded. */
  lemma {:induction false} ToggleTiles(ix: Page, m: nat, expanded: bool, k: nat)
    requires m < |ix.doc| && BlockContaining(ix.blocks, m) == Some(k)
    ensures var after := Refolded(ix.doc, m, expanded);
            Tiled(after, ix.blocks[k := FoldedBlock(ix.doc, ix.blocks[k], m, expanded)], 0, |after|) <==>
            Foldable(ix.doc, ix.blocks[k], m, expanded)
  {
    hide Cut;
    var after := Refolded(ix.doc, m, expanded);
    var block := FoldedBlock(ix.doc, ix.blocks[k], m, expanded);
    var blocks := ix.blocks[k := block];
    BlockSound(ix, k);
    FoldedCuts(ix.doc, ix.blocks[k], m, expanded);
    if Tiled(after, blocks, 0, |after|) {
      assert Fitted(after, blocks, k);
    }
    if Cut(after, block) {
      forall i | 0 <= i < |blocks|
        ensures Fitted(after, blocks, i)
      {
        assert Fitted(ix.doc, ix.blocks, i);
        if i != k {
          TilesApart(ix.doc, ix.blocks, |ix.doc|, if i < k then i else k, if i < k then k else i);
          CutElsewhere(ix.doc, ix.blocks[i], m, expanded);
        }
      }
      forall i | 0 <= i < |blocks| - 1
        ensures Meets(blocks, i)
      {
        assert Meets(ix.blocks, i);
      }
    }
  }

  lemma {:induction false} FoldedCuts(doc: seq<Item>, b: Block, m: nat, expanded: bool)
    requires Measured(doc) && Cut(doc, b) && b.first <= m <= b.last
    ensures Cut(Refolded(doc, m, expanded), FoldedBlock(doc, b, m, expanded)) <==> Foldable(doc, b, m, expanded)
  {
    hide Lines;
    var after := Refolded(doc, m, expanded);
    LinesAgree(doc, after, b.first, b.last + 1);
    if doc[m].lines > COLLAPSE_LIMIT {
      LongStandsAlone(doc, b, m);
    }
    OneLine(doc, m);
    LinesSplit(doc, b.first, m, b.last + 1);
    LinesSplit(doc, m, m + 1, b.last + 1);
    if b.first < m {
      LinesPositive(doc, b.first, m);
    }
    if m < b.last {
      LinesPositive(doc, m + 1, b.last + 1);
    }
    NoLines(doc, b.first);
    NoLines(doc, b.last + 1);
  }

  lemma {:induction false} NoLines(doc: seq<Item>, a: nat)
    requires a <= |doc|
    ensures Lines(doc, a, a) == 0
  {
  }

  lemma {:induction false} CutElsewhere(doc: seq<Item>, b: Block, m: nat, expanded: bool)
    requires m < |doc| && Cut(doc, b) && !(b.first <= m <= b.last)
    ensures Cut(Refolded(doc, m, expanded), b)
  {
    LinesAgree(doc, Refolded(doc, m, expanded), b.first, b.last + 1);
  }

  /** ... and then packs it if it was packed, since grouping does not read the fold flag. */
  lemma {:induction false} ToggleRepacks(ix: Page, m: nat, expanded: bool, k: nat)
    requires m < |ix.doc| && BlockContaining(ix.blocks, m) == Some(k) && Foldable(ix.doc, ix.blocks[k], m, expanded)
    requires Packing(ix.doc, ix.blocks)
    ensures Packing(Refolded(ix.doc, m, expanded), ix.blocks[k := FoldedBlock(ix.doc, ix.blocks[k], m, expanded)])
  {
    hide Boundary, Lines;
    var after := Refolded(ix.doc, m, expanded);
    var blocks := ix.blocks[k := FoldedBlock(ix.doc, ix.blocks[k], m, expanded)];
    ToggleTiles(ix, m, expanded, k);
    PackingIff(ix.doc, ix.blocks);
    RefoldKeepsGrouping(ix.doc, m, expanded);
    forall i | 0 <= i < |blocks|
      ensures Unbroken(after, blocks[i])
    {
      assert Unbroken(ix.doc, ix.blocks[i]);
    }
    forall i | 0 <= i < |blocks| - 1
      ensures Full(after, blocks[i])
    {
      assert Full(ix.doc, ix.blocks[i]);
    }
    PackingIff(after, blocks);
  }

  /** A message counted as one line that is long by now: opening it in a shared block loses the other one's row. */
  lemma {:induction false} StaleFoldBreaks()
    ensures var mark := Label("ann", 1, false, false, false);
            var doc := [Item(1, false, Some(mark)), Item(1, false, Some(mark))];
            var blocks := [Block(0, 1, 2, false)];
            && Measured(doc) && Packing(doc, blocks) && BlockContaining(blocks, 0) == Some(0)
            && blocks[0 := FoldedBlock(doc, blocks[0], 0, true)] == [Block(0, 1, 1, false)]
            && !Tiled(Refolded(doc, 0, true), [Block(0, 1, 1, false)], 0, 2)
  {
    hide Lines, BlockIndex;
    var mark := Label("ann", 1, false, false, false);
    var doc := [Item(1, false, Some(mark)), Item(1, false, Some(mark))];
    var blocks := [Block(0, 1, 2, false)];
    OneLineEach(doc);
    assert Sound(doc, blocks, 0);
    GreedyTiles(doc, blocks, 0, 2);
    var ix: Page := Index(doc, blocks);
    BlockContainingIs(ix, 0, 0);
    ToggleTiles(ix, 0, true, 0);
    assert blocks[0 := FoldedBlock(doc, blocks[0], 0, true)] == [Block(0, 1, 1, false)];
  }
}
