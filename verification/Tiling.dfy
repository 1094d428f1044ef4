/** What of a packing rests on line counts alone, and what a change of heading marks can undo. */
module Tiling {
  import opened Arithmetic
  import opened Layout

  /** A block by itself, as far as the marks do not matter. */
  ghost predicate Cut(doc: seq<Item>, b: Block) {
    && b.first <= b.last < |doc|
    && (b.first < b.last ==> Lines(doc, b.first, b.last + 1) <= GROUP_BLOCK_LIMIT)
    && (b.collapsed <==> b.first == b.last && doc[b.first].lines > COLLAPSE_LIMIT && !doc[b.first].expanded)
    && b.bodyLines == if b.collapsed then COLLAPSE_SHOW else Lines(doc, b.first, b.last + 1)
  }

  ghost predicate Fitted(doc: seq<Item>, blocks: seq<Block>, k: nat)
    requires k < |blocks|
  {
    Cut(doc, blocks[k])
  }

  ghost predicate Meets(blocks: seq<Block>, k: nat)
    requires k + 1 < |blocks|
  {
    blocks[k + 1].first == blocks[k].last + 1
  }

  /** The blocks tile `from .. to`, each cut to its lines; who shares a heading is left open. */
  ghost predicate Tiled(doc: seq<Item>, blocks: seq<Block>, from: nat, to: nat) {
    && from <= to <= |doc|
    && (if blocks == [] then from == to else blocks[0].first == from && blocks[|blocks| - 1].last + 1 == to)
    && (forall k :: 0 <= k < |blocks| ==> Fitted(doc, blocks, k))
    && (forall k :: 0 <= k < |blocks| - 1 ==> Meets(blocks, k))
  }

  /** No boundary inside a block. */
  ghost predicate Unbroken(doc: seq<Item>, b: Block) {
    forall i :: b.first < i <= b.last && i < |doc| ==> !Boundary(doc, i)
  }

  /** What the marks decide: no boundary inside a block, and every block but the last full. */
  ghost predicate Grouped(doc: seq<Item>, blocks: seq<Block>) {
    && (forall k :: 0 <= k < |blocks| ==> Unbroken(doc, blocks[k]))
    && (forall k :: 0 <= k < |blocks| - 1 ==> Full(doc, blocks[k]))
  }

  lemma {:induction false} GreedyTiles(doc: seq<Item>, blocks: seq<Block>, from: nat, to: nat)
    requires Greedy(doc, blocks, from, to)
    ensures Tiled(doc, blocks, from, to) && Grouped(doc, blocks)
  {
    hide Boundary, Lines;
    forall k | 0 <= k < |blocks|
      ensures Fitted(doc, blocks, k) && Unbroken(doc, blocks[k])
    {
      assert Sound(doc, blocks, k);
    }
    forall k | 0 <= k < |blocks| - 1
      ensures Meets(blocks, k) && Full(doc, blocks[k])
    {
      assert Joined(doc, blocks, k);
    }
  }

  /** A tiling is the packing exactly when the marks agree with it. */
  lemma {:induction false} PackingIff(doc: seq<Item>, blocks: seq<Block>)
    requires Tiled(doc, blocks, 0, |doc|)
    ensures Packing(doc, blocks) <==> Grouped(doc, blocks)
  {
    hide Boundary, Lines, Full;
    if Packing(doc, blocks) {
      GreedyTiles(doc, blocks, 0, |doc|);
    }
    if Grouped(doc, blocks) {
      forall k | 0 <= k < |blocks|
        ensures Sound(doc, blocks, k)
      {
        assert Fitted(doc, blocks, k) && Unbroken(doc, blocks[k]);
      }
      forall k | 0 <= k < |blocks| - 1
        ensures Joined(doc, blocks, k)
      {
        assert Meets(blocks, k) && Full(doc, blocks[k]);
      }
    }
  }

  // --- What a packing looks like on screen ---------------------------------------------------

  /** Two neighbours that may stand under one heading, read off their records and line counts. */
  ghost predicate Alike(a: Item, b: Item) {
    && a.lines <= 40 && b.lines <= 40 && a.mark.Some? && b.mark.Some?
    && var p, c := a.mark.value, b.mark.value;
       && p.timestampMs > 0 && c.timestampMs > 0 && c.timestampMs <= p.timestampMs + 90_000
       && SameVoice(p, c)
  }

  /** What one heading says of everyone under it. */
  ghost predicate SameVoice(a: Label, b: Label) {
    a.sender == b.sender && a.local == b.local && a.unverified == b.unverified && a.edited == b.edited
  }

  /** A block shows all its lines, or the first 30 of one message that has more than 40 and is not opened. */
  ghost predicate Drawn(doc: seq<Item>, b: Block) {
    && b.first <= b.last < |doc|
    && (b.collapsed <==> b.first == b.last && doc[b.first].lines > 40 && !doc[b.first].expanded)
    && b.bodyLines == if b.collapsed then 30 else Lines(doc, b.first, b.last + 1)
  }

  /** A block of several messages has at most 12 lines, and each message is like the one before it. */
  ghost predicate Together(doc: seq<Item>, b: Block)
    requires b.first <= b.last < |doc|
  {
    && (b.first < b.last ==> Lines(doc, b.first, b.last + 1) <= 12)
    && forall i :: b.first < i <= b.last ==> Alike(doc[i - 1], doc[i])
  }

  /** The next message had to go elsewhere: it is unlike the last one, or would make more than 12 lines. */
  ghost predicate Separate(doc: seq<Item>, b: Block)
    requires b.first <= b.last < |doc|
  {
    b.last + 1 < |doc| ==>
      !Alike(doc[b.last], doc[b.last + 1]) || Lines(doc, b.first, b.last + 1) + doc[b.last + 1].lines > 12
  }

  /** Consecutive blocks from the first entry to the last. */
  ghost predicate Spanned(doc: seq<Item>, blocks: seq<Block>) {
    && (if blocks == [] then doc == [] else blocks[0].first == 0 && blocks[|blocks| - 1].last + 1 == |doc|)
    && forall k :: 0 <= k < |blocks| - 1 ==> Meets(blocks, k)
  }

  ghost predicate Headed(doc: seq<Item>, blocks: seq<Block>, k: nat)
    requires k < |blocks|
  {
    Drawn(doc, blocks[k]) && Together(doc, blocks[k]) && Separate(doc, blocks[k])
  }

  lemma {:induction false} BoundaryIs(doc: seq<Item>, i: nat)
    requires 0 < i < |doc|
    ensures Boundary(doc, i) <==> !Alike(doc[i - 1], doc[i])
  {
  }

  /**
   * The packing is what a reader would call grouped: each heading stands over messages of one voice, sent within a
   * minute and a half of each other, none of them long, as many as twelve lines allow.
   */
  lemma {:induction false} PackingShows(doc: seq<Item>, blocks: seq<Block>)
    ensures Packing(doc, blocks) <==> Spanned(doc, blocks) && forall k :: 0 <= k < |blocks| ==> Headed(doc, blocks, k)
  {
    hide Boundary, Lines, Alike;
    forall i | 0 < i < |doc|
      ensures Boundary(doc, i) <==> !Alike(doc[i - 1], doc[i])
    {
      BoundaryIs(doc, i);
    }
    if Packing(doc, blocks) {
      forall k | 0 <= k < |blocks|
        ensures Headed(doc, blocks, k)
      {
        assert Sound(doc, blocks, k);
        assert k + 1 < |blocks| ==> Joined(doc, blocks, k);
      }
      forall k | 0 <= k < |blocks| - 1
        ensures Meets(blocks, k)
      {
        assert Joined(doc, blocks, k);
      }
    }
    if Spanned(doc, blocks) && forall k :: 0 <= k < |blocks| ==> Headed(doc, blocks, k) {
      forall k | 0 <= k < |blocks|
        ensures Sound(doc, blocks, k)
      {
        assert Headed(doc, blocks, k);
        forall i | blocks[k].first < i <= blocks[k].last
          ensures !Boundary(doc, i)
        {
          assert Alike(doc[i - 1], doc[i]);
        }
      }
      forall k | 0 <= k < |blocks| - 1
        ensures Joined(doc, blocks, k)
      {
        assert Headed(doc, blocks, k) && Headed(doc, blocks, k + 1) && Meets(blocks, k);
      }
    }
  }

  /** So everyone under one heading is of one voice, the first and the last alike. */
  lemma {:induction false} OneVoice(doc: seq<Item>, blocks: seq<Block>, k: nat, i: nat, j: nat)
    requires Packing(doc, blocks) && k < |blocks| && blocks[k].first <= i < j <= blocks[k].last
    ensures j < |doc| && doc[i].mark.Some? && doc[j].mark.Some? && SameVoice(doc[i].mark.value, doc[j].mark.value)
    ensures doc[i].lines <= 40 && doc[j].lines <= 40
    ensures doc[i].mark.value.timestampMs > 0 && doc[j].mark.value.timestampMs > 0
    decreases j
  {
    hide Greedy, Boundary, Lines;
    PackingShows(doc, blocks);
    assert Headed(doc, blocks, k);
    assert Alike(doc[j - 1], doc[j]);
    if i < j - 1 {
      OneVoice(doc, blocks, k, i, j - 1);
    }
  }

  ghost predicate SameButMarks(doc: seq<Item>, other: seq<Item>) {
    |doc| == |other|
    && forall i :: 0 <= i < |doc| ==> doc[i].lines == other[i].lines && doc[i].expanded == other[i].expanded
  }

  lemma {:induction false} CutAgrees(doc: seq<Item>, other: seq<Item>, b: Block, to: nat)
    requires to <= |doc| && to <= |other| && SameButMarks(doc[..to], other[..to]) && Cut(doc, b) && b.last < to
    ensures Cut(other, b)
  {
    assert forall i :: 0 <= i < to ==> doc[i] == doc[..to][i] && other[i] == other[..to][i];
    LinesAgree(doc, other, b.first, b.last + 1);
  }

  lemma {:induction false} TilesEnd(doc: seq<Item>, blocks: seq<Block>, from: nat, to: nat, k: nat)
    requires Tiled(doc, blocks, from, to) && k < |blocks|
    ensures blocks[k].first <= blocks[k].last < to
    decreases |blocks| - k
  {
    assert Fitted(doc, blocks, k);
    if k + 1 < |blocks| {
      assert Meets(blocks, k);
      TilesEnd(doc, blocks, from, to, k + 1);
    }
  }

  lemma {:induction false} TiledAgrees(doc: seq<Item>, other: seq<Item>, blocks: seq<Block>, from: nat, to: nat)
    requires to <= |doc| && to <= |other| && SameButMarks(doc[..to], other[..to]) && Tiled(doc, blocks, from, to)
    ensures Tiled(other, blocks, from, to)
  {
    hide Cut, SameButMarks;
    forall k | 0 <= k < |blocks|
      ensures Fitted(other, blocks, k)
    {
      assert Fitted(doc, blocks, k);
      TilesEnd(doc, blocks, from, to, k);
      CutAgrees(doc, other, blocks[k], to);
    }
  }

  /**
   * After a change of marks alone the blocks still pack exactly when no boundary appears inside one of them and each
   * but the last is still full.
   */
  lemma {:induction false} RelabelledPacks(doc: seq<Item>, other: seq<Item>, blocks: seq<Block>)
    requires Packing(doc, blocks) && SameButMarks(doc, other)
    ensures Packing(other, blocks) <==> Grouped(other, blocks)
  {
    hide Greedy, Grouped, Tiled;
    GreedyTiles(doc, blocks, 0, |doc|);
    assert doc[..|doc|] == doc && other[..|doc|] == other;
    TiledAgrees(doc, other, blocks, 0, |doc|);
    PackingIff(other, blocks);
  }

  /** And it can fail: two messages under one heading, then the second is found to be unverified. */
  lemma {:induction false} OneMarkBreaksTheGroup()
    ensures var mark := Label("ann", 1, false, false, false);
            var doc := [Item(1, false, Some(mark)), Item(1, false, Some(mark))];
            var other := doc[1 := Item(1, false, Some(mark.(unverified := true)))];
            var blocks := [Block(0, 1, 2, false)];
            SameButMarks(doc, other) && Packing(doc, blocks) && !Packing(other, blocks)
  {
    var mark := Label("ann", 1, false, false, false);
    var doc := [Item(1, false, Some(mark)), Item(1, false, Some(mark))];
    var other := doc[1 := Item(1, false, Some(mark.(unverified := true)))];
    var blocks := [Block(0, 1, 2, false)];
    assert Lines(doc, 0, 1) == 1 && Lines(doc, 0, 2) == 2;
    assert Sound(doc, blocks, 0);
    assert Boundary(other, 1);
    assert !Sound(other, blocks, 0);
  }

  // --- Appending to a tiling ------------------------------------------------------------------

  lemma {:induction false} TiledConcat(doc: seq<Item>, a: seq<Block>, b: seq<Block>, from: nat, mid: nat, to: nat)
    requires Tiled(doc, a, from, mid) && Tiled(doc, b, mid, to)
    ensures Tiled(doc, a + b, from, to)
  {
    hide Cut;
    var all := a + b;
    forall k | 0 <= k < |all|
      ensures Fitted(doc, all, k)
    {
      if k < |a| {
        assert Fitted(doc, a, k);
      } else {
        assert Fitted(doc, b, k - |a|);
      }
    }
    forall k | 0 <= k < |all| - 1
      ensures Meets(all, k)
    {
      if k + 1 < |a| {
        assert Meets(a, k);
      } else if k >= |a| {
        assert Meets(b, k - |a|);
      }
    }
  }

  lemma {:induction false} TiledPrefix(doc: seq<Item>, blocks: seq<Block>, to: nat, k: nat)
    requires Tiled(doc, blocks, 0, to) && k < |blocks|
    ensures Tiled(doc, blocks[..k], 0, blocks[k].first)
  {
    hide Cut;
    TilesEnd(doc, blocks, 0, to, k);
    assert k > 0 ==> Meets(blocks, k - 1);
    forall i | 0 <= i < k
      ensures Fitted(doc, blocks[..k], i)
    {
      assert Fitted(doc, blocks, i);
    }
    forall i | 0 <= i < k - 1
      ensures Meets(blocks[..k], i)
    {
      assert Meets(blocks, i);
    }
  }

  lemma {:induction false} TilesApart(doc: seq<Item>, blocks: seq<Block>, to: nat, j: nat, k: nat)
    requires Tiled(doc, blocks, 0, to) && j < k < |blocks|
    ensures blocks[j].last < blocks[k].first
    decreases k
  {
    hide Cut;
    assert Meets(blocks, k - 1);
    if j < k - 1 {
      TilesEnd(doc, blocks, 0, to, k - 1);
      TilesApart(doc, blocks, to, j, k - 1);
    }
  }
}
