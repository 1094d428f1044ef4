/** The cached row index: line counts, blocks and the row tree, kept in step with the entries. */
module RowIndex {
  import opened Arithmetic
  import opened Fenwick
  import opened Layout
  import opened Screen
  import opened Increment
  import opened Tiling
  import opened Steps

  function LineCounts(doc: seq<Item>): (counts: seq<nat>)
    ensures |counts| == |doc| && forall i :: 0 <= i < |doc| ==> counts[i] == doc[i].lines
  {
    if doc == [] then [] else LineCounts(doc[..|doc| - 1]) + [doc[|doc| - 1].lines]
  }

  /** Blocks whose ends ascend, as `partition_point` needs. */
  ghost predicate Ascending(blocks: seq<Block>) {
    forall i, j :: 0 <= i < j < |blocks| ==> blocks[i].last < blocks[j].last
  }

  lemma {:induction false} AscendingRoom(blocks: seq<Block>, k: nat)
    requires Ascending(blocks) && k < |blocks|
    ensures k <= blocks[k].last
  {
    if k > 0 {
      AscendingRoom(blocks, k - 1);
    }
  }

  lemma {:induction false} GreedyAscends(doc: seq<Item>, blocks: seq<Block>, from: nat, to: nat)
    requires Greedy(doc, blocks, from, to)
    ensures Ascending(blocks)
    ensures forall k :: 0 <= k < |blocks| ==> from <= blocks[k].last < to
  {
    forall i, j | 0 <= i < j < |blocks|
      ensures blocks[i].last < blocks[j].last
    {
      TilesForward(doc, blocks, from, to, i);
      TilesForward(doc, blocks, from, to, j);
    }
    forall k | 0 <= k < |blocks|
      ensures from <= blocks[k].last < to
    {
      TilesForward(doc, blocks, from, to, k);
    }
  }

  lemma {:induction false} TilesFit(doc: seq<Item>, blocks: seq<Block>)
    requires Tiled(doc, blocks, 0, |doc|) && |doc| < USIZE_LIMIT
    ensures Ascending(blocks)
    ensures blocks != [] ==> blocks[|blocks| - 1].last < USIZE_LIMIT - 1
  {
    forall i, j | 0 <= i < j < |blocks|
      ensures blocks[i].last < blocks[j].last
    {
      TilesApart(doc, blocks, |doc|, i, j);
      TilesEnd(doc, blocks, 0, |doc|, j);
    }
  }

  lemma {:induction false} PackingFits(doc: seq<Item>, blocks: seq<Block>)
    requires Greedy(doc, blocks, 0, |doc|) && |doc| < USIZE_LIMIT
    ensures Ascending(blocks)
    ensures blocks != [] ==> blocks[|blocks| - 1].last < USIZE_LIMIT - 1
  {
    GreedyAscends(doc, blocks, 0, |doc|);
  }

  lemma {:induction false} WeightsConcat(a: seq<Block>, b: Block)
    ensures Weights(a + [b]) == Weights(a) + [BlockRows(b)]
  {
    assert (a + [b])[..|a|] == a;
  }

  lemma {:induction false} NoWeights()
    ensures Weights([]) == []
  {
  }

  class LayoutIndex {
    var valid: bool
    var lineCounts: seq<nat>
    var blocks: seq<Block>
    const rows: FenwickRows

    /** Rows follow the blocks, whether or not the blocks still follow the entries. */
    ghost predicate InSync()
      reads this, rows
    {
      && rows.Valid()
      && (valid ==> rows.values == Weights(blocks) && Ascending(blocks))
      && (valid && blocks != [] ==> blocks[|blocks| - 1].last < USIZE_LIMIT - 1)
    }

    /** The index is exactly what packing `doc` from scratch gives. */
    ghost predicate Holds(doc: seq<Item>)
      reads this, rows
    {
      && valid && rows.Valid() && rows.values == Weights(blocks)
      && lineCounts == LineCounts(doc)
      && Measured(doc) && Packing(doc, blocks) && |doc| < USIZE_LIMIT
    }

    /** Its blocks tile `doc`, whether or not the marks still group it so. */
    ghost predicate Tiles(doc: seq<Item>)
      reads this, rows
    {
      && valid && rows.Valid() && rows.values == Weights(blocks)
      && lineCounts == LineCounts(doc)
      && Measured(doc) && Tiled(doc, blocks, 0, |doc|) && |doc| < USIZE_LIMIT
    }

    /** Such an index is the one packed from scratch exactly when the marks agree with its blocks. */
    lemma {:induction false} HoldsIff(doc: seq<Item>)
      requires Tiles(doc)
      ensures Holds(doc) <==> Grouped(doc, blocks)
    {
      hide Weights, LineCounts, Measured, Tiled, Packing, Grouped;
      PackingIff(doc, blocks);
    }

    lemma {:induction false} HoldsTiles(doc: seq<Item>)
      requires Holds(doc)
      ensures Tiles(doc)
    {
      hide Weights, LineCounts, Measured, Tiled, Greedy;
      GreedyTiles(doc, blocks, 0, |doc|);
    }

    constructor ()
      ensures InSync() && !valid && lineCounts == [] && blocks == []
      ensures fresh(rows)
    {
      valid, lineCounts, blocks := false, [], [];
      rows := new FenwickRows();
    }

    method Invalidate()
      requires rows.Valid()
      modifies this`valid, rows
      ensures InSync() && !valid && rows.values == []
    {
      valid := false;
      rows.Clear();
    }

    /** Pushes one weight per block. */
    method PushRows(more: seq<Block>)
      requires rows.Valid() && rows.values == Weights(blocks)
      requires Ascending(blocks + more)
      requires blocks + more != [] ==> (blocks + more)[|blocks + more| - 1].last < USIZE_LIMIT - 1
      modifies this`blocks, rows
      ensures rows.Valid() && rows.values == Weights(blocks) && blocks == old(blocks) + more
    {
      hide Weights, Ascending;
      ghost var was := blocks;
      for k := 0 to |more|
        invariant rows.Valid() && rows.values == Weights(blocks) && blocks == was + more[..k]
      {
        WeightsConcat(blocks, more[k]);
        AscendingFits(was + more, |was| + k);
        rows.Push(BlockRows(more[k]));
        assert was + more[..k] + [more[k]] == was + more[..k + 1];
        blocks := blocks + [more[k]];
      }
      assert more[..|more|] == more;
    }

    /** Packs every entry and rebuilds the rows. */
    method Install(doc: seq<Item>)
      requires rows.Valid() && Measured(doc) && |doc| < USIZE_LIMIT
      modifies this, rows
      ensures InSync() && Holds(doc)
    {
      hide Greedy, Measured, Ascending, Weights, LineCounts, Represents, Prefix;
      var packed := PackFrom(doc, 0);
      PackingFits(doc, packed);
      rows.Clear();
      blocks := [];
      NoWeights();
      assert [] + packed == packed;
      PushRows(packed);
      lineCounts := LineCounts(doc);
      valid := true;
    }

    /**
     * Repairs the index after the newest entry of `doc` arrived. On an index that held the other entries the
     * result holds them all; on a stale one it only stays consistent with itself or gives up. On one that tiled them
     * the rows on screen keep their places exactly when the marks do not divide the last block.
     */
    method RepairAfterAppend(doc: seq<Item>)
      requires InSync() && doc != [] && Measured(doc) && |doc| < USIZE_LIMIT
      requires valid ==> |lineCounts| == |doc| - 1
      modifies this, rows
      ensures InSync()
      ensures !old(valid) ==> !valid && lineCounts == old(lineCounts)
      ensures valid ==> lineCounts == old(lineCounts) + [doc[|doc| - 1].lines]
      ensures old(Holds(doc[..|doc| - 1])) ==> Holds(doc)
      ensures old(Tiles(doc[..|doc| - 1])) ==> Tiles(doc)
      ensures valid ==> Repaired(doc, old(blocks), blocks)
      ensures old(Tiles(doc[..|doc| - 1])) ==>
                (KeepsRows(Index(doc[..|doc| - 1], old(blocks)), Snapshot(doc)) <==> Undivided(doc, old(blocks)))
    {
      hide Packing, Measured, Weights, Ascending, BlockIndex, BlockContaining, Greedy, Full, LineCounts, Tiled,
           FenwickRows.Valid, Ready, RepairStart, TailFrom, KeepsRows, Undivided;
      if !valid {
        return;
      }
      var oldLen := |doc| - 1;
      lineCounts := lineCounts + [doc[oldLen].lines];
      var repairStart := RepairStart(doc, blocks);
      if old(Holds(doc[..|doc| - 1])) {
        RepairPoint(doc, blocks);
        LineCountsAppend(doc);
      }
      if Tiled(doc[..oldLen], blocks, 0, oldLen) {
        RepairTiles(doc, blocks);
      }
      if repairStart.None? {
        Invalidate();
        return;
      }
      RebuildTailFrom(doc, repairStart.value);
      if old(Tiles(doc[..|doc| - 1])) {
        AppendKeepsRow(Index(doc[..oldLen], old(blocks)), Snapshot(doc));
      }
    }

    /** Drops every block that reaches `repairStart` and packs the entries from there on. */
    method RebuildTailFrom(doc: seq<Item>, repairStart: nat)
      requires InSync() && valid && |lineCounts| == |doc| && Measured(doc) && |doc| < USIZE_LIMIT
      requires repairStart <= |doc|
      modifies this`blocks, rows
      ensures InSync()
      ensures Ready(doc, old(blocks), repairStart) ==> Packing(doc, blocks)
      ensures Tiled(doc, old(blocks)[..BlockIndex(old(blocks), repairStart)], 0, repairStart) ==>
                Tiled(doc, blocks, 0, |doc|)
      ensures TailFrom(doc, old(blocks), blocks, repairStart)
    {
      hide Packing, Measured, Weights, Ascending, BlockIndex, Greedy, Full, Ready, Tiled;
      var keep := BlockIndex(blocks, repairStart);
      var tail := PackFrom(doc, repairStart);
      TailFits(doc, blocks, repairStart, tail);
      RebuiltPacks(doc, blocks, repairStart, tail);
      GreedyTiles(doc, tail, repairStart, |doc|);
      if Tiled(doc, blocks[..keep], 0, repairStart) {
        TiledConcat(doc, blocks[..keep], tail, 0, repairStart, |doc|);
      }
      WeightsPrefix(blocks, keep);
      blocks := blocks[..keep];
      rows.Truncate(keep);
      PushRows(tail);
      assert blocks[..keep] == old(blocks)[..keep] && blocks[keep..] == tail;
    }

    // --- Folding -------------------------------------------------------------------

    /**
     * Opens or folds a message in place if it takes `lines` too many by a fresh count; one that is so already stays as
     * it is. Where the count the index keeps is older, the rewritten block need not fit.
     */
    method SetExpand(doc: seq<Item>, message: nat, lines: nat, expanded: bool) returns (changed: Option<bool>)
      requires InSync() && (valid ==> Tiles(doc))
      modifies this`valid, this`blocks, rows
      ensures InSync() && (valid <==> old(valid))
      ensures changed.Some? <==> message < |doc| && lines > COLLAPSE_LIMIT
      ensures changed.Some? ==> changed.value == (doc[message].expanded != expanded)
      ensures changed == Some(true) && valid ==> Rewritten(doc, old(blocks), message, expanded, old(Holds(doc)))
      ensures changed == Some(true) && valid && lines == doc[message].lines ==> Tiles(Refolded(doc, message, expanded))
      ensures changed != Some(true) ==> blocks == old(blocks) && rows.values == old(rows.values)
      ensures changed != Some(true) && valid ==> Tiles(doc) && (old(Holds(doc)) ==> Holds(doc))
    {
      if message >= |doc| || lines <= COLLAPSE_LIMIT {
        return None;
      }
      if doc[message].expanded == expanded {
        return Some(false);
      }
      Refold(doc, message, expanded);
      return Some(true);
    }

    /** The index after a fold: right exactly when the message may be folded by the count kept for it. */
    ghost predicate Rewritten(doc: seq<Item>, was: seq<Block>, message: nat, expanded: bool, packed: bool)
      requires message < |doc|
      reads this, rows
    {
      var k := BlockContaining(was, message);
      && k.Some? && blocks == was[k.value := FoldedBlock(doc, was[k.value], message, expanded)]
      && (Tiles(Refolded(doc, message, expanded)) <==> Foldable(doc, was[k.value], message, expanded))
      && (packed && Foldable(doc, was[k.value], message, expanded) ==> Holds(Refolded(doc, message, expanded)))
    }

    method Refold(ghost doc: seq<Item>, message: nat, expanded: bool)
      requires InSync() && message < |doc| && (valid ==> Tiles(doc))
      modifies this`valid, this`blocks, rows
      ensures InSync() && (valid <==> old(valid))
      ensures valid ==> Rewritten(doc, old(blocks), message, expanded, old(Holds(doc)))
    {
      hide Weights, LineCounts, FenwickRows.Valid, Ascending, Measured, Packing, Tiled, BlockContaining, BlockRows,
           Foldable;
      if !valid {
        Invalidate();
        return;
      }
      BlockOfMessage(Snapshot(doc), message);
      var k := BlockContaining(blocks, message).value;
      ToggleTiles(Snapshot(doc), message, expanded, k);
      if Packing(doc, blocks) && Foldable(doc, blocks[k], message, expanded) {
        ToggleRepacks(Snapshot(doc), message, expanded, k);
      }
      FitsAfterToggle(doc, message, expanded, blocks, k);
      LineCountsAt(doc, message, expanded);
      var block := blocks[k].(
        bodyLines := if expanded then lineCounts[message] else COLLAPSE_SHOW,
        collapsed := !expanded);
      SetBlock(k, block);
    }

    method SetBlock(k: nat, block: Block)
      requires rows.Valid() && rows.values == Weights(blocks) && k < |blocks| < USIZE_LIMIT
      modifies this`blocks, rows
      ensures rows.Valid() && rows.values == Weights(blocks) && blocks == old(blocks)[k := block]
    {
      hide Weights, Represents, Prefix, BlockRows;
      WeightsUpdate(blocks, k, block);
      blocks := blocks[k := block];
      rows.Set(k, BlockRows(block));
    }

    // --- Looking rows up ---------------------------------------------------------------

    /** The entries with the blocks the index keeps for them. */
    ghost function Snapshot(doc: seq<Item>): (ix: Page)
      requires Tiles(doc)
      reads this, rows
      ensures ix.doc == doc && ix.blocks == blocks
    {
      Index(doc, blocks)
    }

    /** The line at `row`. Past the end there is none, except that a folded last block keeps its ellipsis. */
    method CachedVisibleLine(ghost doc: seq<Item>, row: nat) returns (line: Option<Row>)
      requires Tiles(doc)
      ensures row < |RowsOf(Snapshot(doc))| ==> line == Some(RowsOf(Snapshot(doc))[row])
      ensures row >= |RowsOf(Snapshot(doc))| ==>
                (line.Some? <==> blocks != [] && blocks[|blocks| - 1].collapsed)
                && (line.Some? ==> line.value.kind == Ellipsis)
    {
      hide RowsOf, Weights, LineCounts, Represents, Tiled, Measured, RowsOfBlock;
      ghost var ix := Snapshot(doc);
      var found := rows.RowToBlock(row);
      RowTotal(ix);
      if found.None? {
        NoRows(ix);
        return None;
      }
      var k := found.value;
      var block := blocks[k];
      var top := rows.PrefixSum(k);
      var rowInBlock := SatSub(row, top);
      FoundBlock(ix, row, k, rowInBlock);
      line := LineInBlock(doc, block, rowInBlock);
      if row < |RowsOf(ix)| {
        RowAt(ix, k, rowInBlock);
      }
    }

    /** The line at an offset of a block. */
    method LineInBlock(ghost doc: seq<Item>, block: Block, rowInBlock: nat) returns (line: Option<Row>)
      requires lineCounts == LineCounts(doc) && Sized(doc, block)
      ensures rowInBlock < BlockRows(block) ==> line == Some(RowsOfBlock(doc, block)[rowInBlock])
      ensures rowInBlock >= BlockRows(block) ==>
                (line.Some? <==> block.collapsed) && (line.Some? ==> line.value.kind == Ellipsis)
    {
      hide LineCounts, BodyRows, MessageRows;
      if rowInBlock == 0 {
        return Some(Row(block.first, 0, Heading, block.first, block.last));
      }
      if block.collapsed {
        var bodyRow := rowInBlock - 1;
        if bodyRow < block.bodyLines {
          return Some(Row(block.last, bodyRow, Body, block.first, block.last));
        }
        return Some(Row(block.last, 0, Ellipsis, block.first, block.last));
      }
      var bodyRow: nat := rowInBlock - 1;
      for message := block.first to block.last + 1
        invariant bodyRow + Lines(doc, block.first, message) == rowInBlock - 1
      {
        var lines := lineCounts[message];
        if bodyRow < lines {
          BodyRowAt(doc, block, block.last + 1, message, bodyRow);
          return Some(Row(message, bodyRow, Body, block.first, block.last));
        }
        bodyRow := bodyRow - lines;
      }
      return None;
    }

    /**
     * The row of a line: for every line on screen, the row that shows it. A body line past the end is clamped to the
     * block, not to its message.
     */
    method VisibleLineRow(ghost doc: seq<Item>, message: nat, line: nat, kind: Kind) returns (row: Option<nat>)
      requires Tiles(doc)
      ensures Screen.RowIndex(Snapshot(doc), message, line, kind).Some? ==>
                row == Screen.RowIndex(Snapshot(doc), message, line, kind)
      ensures kind != Body ==> row == Screen.RowIndex(Snapshot(doc), message, 0, kind)
      ensures message >= |doc| ==> row.None?
      ensures message < |doc| && kind == Body ==> row == Some(ClampedRow(Snapshot(doc), message, line))
    {
      hide Weights, LineCounts, Represents, Tiled, Measured, BlockContaining, Lines;
      ghost var ix := Snapshot(doc);
      if message < |doc| {
        BlockOfMessage(ix, message);
      }
      var at := BlockContaining(blocks, message);
      if at.None? {
        return None;
      }
      var k := at.value;
      BlockContainingIs(ix, k, message);
      RowIndexIn(ix, k, message, line, kind);
      RowIndexIn(ix, k, message, 0, kind);
      BlockSound(ix, k);
      FoldShows(doc, blocks[k], message);
      var block := blocks[k];
      var top := rows.PrefixSum(k);
      match kind {
        case Heading =>
          row := if message == block.first then Some(top) else None;
        case Ellipsis =>
          row := if block.collapsed && message == block.last then Some(top + 1 + block.bodyLines) else None;
        case Body =>
          var preceding := 0;
          if !block.collapsed {
            preceding := LinesBetween(doc, block.first, message);
            LinesSplit(doc, block.first, message, block.last + 1);
            LinesSplit(doc, message, message + 1, block.last + 1);
            OneLine(doc, message);
          }
          row := Some(top + 1 + preceding + Min(line, SatSub(block.bodyLines, 1)));
      }
    }

    method LinesBetween(ghost doc: seq<Item>, a: nat, b: nat) returns (sum: nat)
      requires lineCounts == LineCounts(doc) && a <= b <= |doc|
      ensures sum == Lines(doc, a, b)
    {
      sum := 0;
      for m := a to b
        invariant sum == Lines(doc, a, m)
      {
        sum := sum + lineCounts[m];
      }
    }

    /** The row of a body position, its line clamped to what the message shows, with the row count. */
    method PosRowAndTotal(doc: seq<Item>, pos: Pos) returns (found: Option<(nat, nat)>)
      requires Tiles(doc)
      ensures found.None? <==> pos.message >= |doc|
      ensures found.Some? ==>
                var clamped := Pos(pos.message, Min(pos.line, SatSub(VisibleBodyLines(doc[pos.message]), 1)));
                Visible(doc, clamped)
                && found.value == (RowOfPos(Snapshot(doc), clamped), Max(|RowsOf(Snapshot(doc))|, 1))
    {
      hide RowsOf, Weights, LineCounts, Represents, Tiled;
      if pos.message >= |doc| {
        return None;
      }
      ghost var ix := Snapshot(doc);
      assert doc[pos.message].lines >= 1;
      BlockOfMessage(ix, pos.message);
      RowTotal(ix);
      var k := BlockContaining(blocks, pos.message).value;
      var block := blocks[k];
      var top := rows.PrefixSum(k);
      var row := top + 1;
      if !block.collapsed {
        var preceding := LinesBetween(doc, block.first, pos.message);
        row := row + preceding;
      }
      var visible := VisibleBodyLines(doc[pos.message]);
      row := row + Min(pos.line, SatSub(visible, 1));
      BlockSound(ix, k);
      FoldShows(doc, block, pos.message);
      RowIndexIn(ix, k, pos.message, Min(pos.line, SatSub(visible, 1)), Body);
      return Some((row, Max(rows.total, 1)));
    }
  }

  /** The block a message stands in. */
  ghost function BlockOf(ix: Page, message: nat): (k: nat)
    requires message < |ix.doc|
    ensures k < |ix.blocks| && BlockContaining(ix.blocks, message) == Some(k)
    ensures ix.blocks[k].first <= message <= ix.blocks[k].last < |ix.doc|
  {
    BlockOfMessage(ix, message);
    BlockSound(ix, BlockContaining(ix.blocks, message).value);
    BlockContaining(ix.blocks, message).value
  }

  /** Where a body line goes, clamped to its block. */
  ghost function ClampedRow(ix: Page, message: nat, line: nat): nat
    requires message < |ix.doc|
  {
    var k := BlockOf(ix, message);
    var block := ix.blocks[k];
    Top(ix.blocks, k) + 1 + (if block.collapsed then 0 else Lines(ix.doc, block.first, message))
    + Min(line, SatSub(block.bodyLines, 1))
  }

  /** A row that shows a body line of the message. */
  ghost predicate ShowsBodyOf(ix: Page, row: nat, message: nat) {
    row < |RowsOf(ix)| && RowsOf(ix)[row].message == message && RowsOf(ix)[row].kind == Body
  }

  /** The clamped row is one of its message exactly when that shows the line or has the block to itself. */
  lemma {:induction false} ClampLands(ix: Page, message: nat, line: nat)
    requires message < |ix.doc|
    ensures ShowsBodyOf(ix, ClampedRow(ix, message, line), message) <==>
              line < VisibleBodyLines(ix.doc[message])
              || ix.blocks[BlockOf(ix, message)].first == ix.blocks[BlockOf(ix, message)].last
  {
    hide RowsOf, BlockContaining;
    var row, k := ClampedRow(ix, message, line), BlockOf(ix, message);
    var block, n := ix.blocks[k], Min(line, SatSub(ix.blocks[k].bodyLines, 1));
    BlockSound(ix, k);
    FoldShows(ix.doc, block, message);
    OthersHaveLines(ix.doc, block, message);
    RowIndexIn(ix, k, message, n, Body);
    if n < VisibleBodyLines(ix.doc[message]) {
      NamedRow(ix, message, n, Body, row);
    } else if ShowsBodyOf(ix, row, message) {
      var l := RowsOf(ix)[row].line;
      RowNamed(ix, row, message, l, Body);
      RowIndexIn(ix, k, message, l, Body);
    }
  }

  lemma {:induction false} OthersHaveLines(doc: seq<Item>, block: Block, message: nat)
    requires Cut(doc, block) && Measured(doc) && block.first <= message <= block.last
    ensures block.bodyLines >= 1
    ensures !block.collapsed && block.first < block.last ==> block.bodyLines > doc[message].lines
    ensures !block.collapsed && block.first == block.last ==> block.bodyLines == doc[message].lines
  {
    LinesPositive(doc, block.first, block.last + 1);
    LinesSplit(doc, block.first, message, block.last + 1);
    LinesSplit(doc, message, message + 1, block.last + 1);
    assert Lines(doc, message, message + 1) == doc[message].lines;
    if message > block.first {
      LinesPositive(doc, block.first, message);
    }
    if message < block.last {
      LinesPositive(doc, message + 1, block.last + 1);
    }
  }

  /** So it can stray: two short messages under one heading, and a line far past the second one's end. */
  lemma {:induction false} StaleLineStrays()
    ensures var mark := Label("ann", 1, false, false, false);
            var doc := [Item(1, false, Some(mark)), Item(1, false, Some(mark))];
            var ix := Index(doc, [Block(0, 1, 2, false)]);
            Packing(doc, ix.blocks) && !ShowsBodyOf(ix, ClampedRow(ix, 1, 5), 1)
  {
    var mark := Label("ann", 1, false, false, false);
    var doc := [Item(1, false, Some(mark)), Item(1, false, Some(mark))];
    var blocks := [Block(0, 1, 2, false)];
    assert Lines(doc, 0, 1) == 1 && Lines(doc, 0, 2) == 2;
    assert Sound(doc, blocks, 0);
    GreedyTiles(doc, blocks, 0, 2);
    var ix: Page := Index(doc, blocks);
    hide Packing;
    ClampLands(ix, 1, 5);
  }

  /** Whatever route an index took to hold the entries, it is the index a rebuild installs, tree and all. */
  lemma {:induction false} RepairIsRebuild(repaired: LayoutIndex, rebuilt: LayoutIndex, doc: seq<Item>)
    requires repaired.Holds(doc) && rebuilt.Holds(doc)
    ensures repaired.blocks == rebuilt.blocks && repaired.lineCounts == rebuilt.lineCounts
    ensures repaired.rows.tree == rebuilt.rows.tree && repaired.rows.total == rebuilt.rows.total
  {
    hide Weights, LineCounts, Node, Prefix, Measured;
    GreedyUnique(doc, repaired.blocks, rebuilt.blocks, 0, |doc|);
  }

  lemma {:induction false} WeightsUpdate(blocks: seq<Block>, k: nat, b: Block)
    requires k < |blocks|
    ensures Weights(blocks[k := b]) == Weights(blocks)[k := BlockRows(b)]
  {
    hide Weights;
  }

  lemma {:induction false} LineCountsAt(doc: seq<Item>, m: nat, expanded: bool)
    requires m < |doc|
    ensures LineCounts(Refolded(doc, m, expanded)) == LineCounts(doc)
    ensures LineCounts(doc)[m] == doc[m].lines
    ensures Measured(doc) ==> Measured(Refolded(doc, m, expanded))
  {
    hide LineCounts;
  }

  lemma {:induction false} FitsAfterToggle(doc: seq<Item>, m: nat, expanded: bool, blocks: seq<Block>, k: nat)
    requires m < |doc| < USIZE_LIMIT && k < |blocks| && Tiled(doc, blocks, 0, |doc|)
    ensures var after := blocks[k := FoldedBlock(doc, blocks[k], m, expanded)];
            Ascending(after) && after[|after| - 1].last < USIZE_LIMIT - 1
    ensures |blocks| < USIZE_LIMIT
  {
    hide Tiled;
    TilesFit(doc, blocks);
    AscendingRoom(blocks, |blocks| - 1);
  }

  lemma {:induction false} RowTotal(ix: Page)
    ensures |RowsOf(ix)| == Top(ix.blocks, |ix.blocks|)
  {
  }

  lemma {:induction false} NoRows(ix: Page)
    requires ix.blocks == []
    ensures |RowsOf(ix)| == 0
  {
  }

  /** The tree's answer: the block that holds `row`, or the last block for a row past the end. */
  lemma {:induction false} FoundBlock(ix: Page, row: nat, k: nat, j: nat)
    requires k < |ix.blocks|
    requires var total := Top(ix.blocks, |ix.blocks|);
             total > 0 ==> Top(ix.blocks, k) <= Min(row, total - 1) < Top(ix.blocks, k + 1)
    requires j == SatSub(row, Top(ix.blocks, k))
    ensures Sized(ix.doc, ix.blocks[k])
    ensures if row < Top(ix.blocks, |ix.blocks|) then j < BlockRows(ix.blocks[k]) && row == Top(ix.blocks, k) + j
            else j >= BlockRows(ix.blocks[k]) && k == |ix.blocks| - 1
  {
    BlockSound(ix, k);
    TopOrder(ix.blocks, k, |ix.blocks|);
    if k < |ix.blocks| - 1 {
      TopOrder(ix.blocks, k + 1, |ix.blocks|);
    }
  }

  /** The blocks before `start` pack everything before it, and the last of them is full. */
  ghost predicate Ready(doc: seq<Item>, blocks: seq<Block>, start: nat) {
    var keep := BlockIndex(blocks, start);
    && Greedy(doc, blocks[..keep], 0, start)
    && (keep > 0 && start < |doc| ==> Full(doc, blocks[keep - 1]))
  }

  lemma {:induction false} RebuiltPacks(doc: seq<Item>, blocks: seq<Block>, start: nat, tail: seq<Block>)
    requires Greedy(doc, tail, start, |doc|)
    ensures Ready(doc, blocks, start) ==> Packing(doc, blocks[..BlockIndex(blocks, start)] + tail)
  {
    if Ready(doc, blocks, start) {
      if tail != [] {
        TilesForward(doc, tail, start, |doc|, 0);
      }
      GreedyConcat(doc, blocks[..BlockIndex(blocks, start)], tail, 0, start, |doc|);
    }
  }

  lemma {:induction false} TailFits(doc: seq<Item>, blocks: seq<Block>, start: nat, tail: seq<Block>)
    requires Ascending(blocks) && Greedy(doc, tail, start, |doc|) && |doc| < USIZE_LIMIT && start <= |doc|
    ensures var all := blocks[..BlockIndex(blocks, start)] + tail;
            Ascending(all) && (all != [] ==> all[|all| - 1].last < USIZE_LIMIT - 1)
  {
    GreedyAscends(doc, tail, start, |doc|);
  }

  lemma {:induction false} WeightsPrefix(blocks: seq<Block>, n: nat)
    requires n <= |blocks|
    ensures Weights(blocks)[..n] == Weights(blocks[..n])
  {
    hide Weights;
  }

  lemma {:induction false} LineCountsAppend(doc: seq<Item>)
    requires doc != []
    ensures LineCounts(doc) == LineCounts(doc[..|doc| - 1]) + [doc[|doc| - 1].lines]
  {
  }

  lemma {:induction false} AscendingFits(blocks: seq<Block>, k: nat)
    requires Ascending(blocks) && k < |blocks| && blocks[|blocks| - 1].last < USIZE_LIMIT - 1
    ensures k + 1 < USIZE_LIMIT
  {
    AscendingRoom(blocks, |blocks| - 1);
  }

  /** Past every block: all of them are kept. */
  lemma {:induction false} ReadyAtEnd(doc: seq<Item>, blocks: seq<Block>, m: nat)
    requires Greedy(doc, blocks, 0, m) && (0 < m < |doc| ==> Boundary(doc, m))
    ensures Ready(doc, blocks, m)
  {
    GreedyAscends(doc, blocks, 0, m);
    assert blocks[..BlockIndex(blocks, m)] == blocks;
    assert blocks != [] ==> Sound(doc, blocks, |blocks| - 1);
  }

  /** At the start of block `k`: exactly the blocks before it are kept. */
  lemma {:induction false} ReadyAtBlock(doc: seq<Item>, blocks: seq<Block>, m: nat, k: nat)
    requires Greedy(doc, blocks, 0, m) && k < |blocks| && BlockIndex(blocks, blocks[k].first) == k
    ensures Ready(doc, blocks, blocks[k].first)
  {
    GreedyPrefix(doc, blocks, 0, m, k);
    assert k > 0 ==> Joined(doc, blocks, k - 1);
  }

  /** On an index that held the other entries the repair has a start, and the blocks before it are ready. */
  lemma {:induction false} RepairPoint(doc: seq<Item>, blocks: seq<Block>)
    requires doc != [] && Measured(doc) && Packing(doc[..|doc| - 1], blocks)
    ensures RepairStart(doc, blocks).Some? && Ready(doc, blocks, RepairStart(doc, blocks).value)
  {
    var m := |doc| - 1;
    GreedyTiles(doc[..m], blocks, 0, m);
    var ix: Page := Index(doc[..m], blocks);
    assert doc[..m][..m] == doc[..m];
    GreedyAgrees(doc[..m], doc, blocks, m);
    hide Greedy, Ready;
    if m == 0 || Boundary(doc, m) {
      ReadyAtEnd(doc, blocks, m);
    } else {
      BlockOfMessage(ix, m - 1);
      var k := BlockContaining(blocks, m - 1).value;
      BlockSound(ix, k);
      BlockContainingIs(ix, k, blocks[k].first);
      ReadyAtBlock(doc, blocks, m, k);
    }
  }

  /** The same on a tiling: there is a start, and the blocks before it tile what comes before it. */
  lemma {:induction false} RepairTiles(doc: seq<Item>, blocks: seq<Block>)
    requires doc != [] && Tiled(doc[..|doc| - 1], blocks, 0, |doc| - 1)
    ensures RepairStart(doc, blocks).Some?
    ensures var start := RepairStart(doc, blocks).value;
            Tiled(doc, blocks[..BlockIndex(blocks, start)], 0, start)
  {
    var m := |doc| - 1;
    assert doc[..m][..m] == doc[..m];
    TiledAgrees(doc[..m], doc, blocks, 0, m);
    hide Tiled, BlockIndex;
    TileAtEnd(doc, blocks, m);
    assert blocks[..|blocks|] == blocks;
    if m > 0 && !Boundary(doc, m) {
      TileOf(doc, blocks, m, m - 1);
      var k := BlockContaining(blocks, m - 1).value;
      TileAtStart(doc, blocks, m, k);
      TiledPrefix(doc, blocks, m, k);
    }
  }
}
