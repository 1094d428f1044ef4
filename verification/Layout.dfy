/** Grouping messages into headed blocks, and the list of rows those blocks put on screen. */
module Layout {
  import opened Arithmetic

  const COLLAPSE_LIMIT: nat := 40
  const COLLAPSE_SHOW: nat := 30
  const GROUP_BLOCK_LIMIT: nat := 12
  const GROUP_GAP_MS: nat := 90_000

  /** What the grouping test reads of a record. */
  datatype Label = Label(sender: string, timestampMs: nat, local: bool, unverified: bool, edited: bool)

  /** One displayed entry: its wrapped line count, its fold state, and its record while it resolves. */
  datatype Item = Item(lines: nat, expanded: bool, mark: Option<Label>)

  datatype Block = Block(first: nat, last: nat, bodyLines: nat, collapsed: bool)

  /** Every body wraps to at least one line. */
  ghost predicate Measured(doc: seq<Item>) {
    forall i :: 0 <= i < |doc| ==> doc[i].lines >= 1
  }

  /** Whether message `cur` may not share a heading with the message before it. */
  predicate Boundary(doc: seq<Item>, cur: nat)
    requires 0 < cur < |doc|
  {
    var prev, here := doc[cur - 1], doc[cur];
    match (prev.mark, here.mark)
    case (Some(p), Some(c)) =>
      || p.timestampMs == 0 || c.timestampMs == 0
      || p.local != c.local || p.sender != c.sender || p.unverified != c.unverified
      || p.edited != c.edited
      || SatSub(c.timestampMs, p.timestampMs) > GROUP_GAP_MS
      || prev.lines > COLLAPSE_LIMIT || here.lines > COLLAPSE_LIMIT
    case _ => true
  }

  /** Wrapped lines of messages `a .. b`. */
  function Lines(doc: seq<Item>, a: nat, b: nat): nat
    requires b <= |doc|
    decreases b
  {
    if a >= b then 0 else Lines(doc, a, b - 1) + doc[b - 1].lines
  }

  lemma {:induction false} LinesSplit(doc: seq<Item>, a: nat, m: nat, b: nat)
    requires a <= m <= b <= |doc|
    ensures Lines(doc, a, b) == Lines(doc, a, m) + Lines(doc, m, b)
    decreases b
  {
    if m < b {
      LinesSplit(doc, a, m, b - 1);
    }
  }

  lemma {:induction false} OneLine(doc: seq<Item>, m: nat)
    requires m < |doc|
    ensures Lines(doc, m, m + 1) == doc[m].lines
  {
  }

  lemma {:induction false} LinesAgree(doc: seq<Item>, other: seq<Item>, a: nat, b: nat)
    requires b <= |doc| && b <= |other|
    requires forall i :: a <= i < b ==> doc[i].lines == other[i].lines
    ensures Lines(doc, a, b) == Lines(other, a, b)
    decreases b
  {
    if a < b {
      LinesAgree(doc, other, a, b - 1);
    }
  }

  lemma {:induction false} LinesPositive(doc: seq<Item>, a: nat, b: nat)
    requires a < b <= |doc| && Measured(doc)
    ensures Lines(doc, a, b) >= 1
    decreases b
  {
    if a < b - 1 {
      LinesPositive(doc, a, b - 1);
    }
  }

  function VisibleBodyLines(item: Item): nat {
    if item.lines > COLLAPSE_LIMIT && !item.expanded then COLLAPSE_SHOW else item.lines
  }

  function BlockRows(b: Block): nat {
    1 + b.bodyLines + if b.collapsed then 1 else 0
  }

  // --- The greedy partition ---------------------------------------------------

  /** A block by itself: one run, within the limit unless it is a single message, folded as flagged. */
  ghost predicate BlockOk(doc: seq<Item>, b: Block) {
    && b.first <= b.last < |doc|
    && (forall i :: b.first < i <= b.last ==> !Boundary(doc, i))
    && (b.first < b.last ==> Lines(doc, b.first, b.last + 1) <= GROUP_BLOCK_LIMIT)
    && (b.collapsed <==> b.first == b.last && doc[b.first].lines > COLLAPSE_LIMIT && !doc[b.first].expanded)
    && b.bodyLines == if b.collapsed then COLLAPSE_SHOW else Lines(doc, b.first, b.last + 1)
  }

  /** Block `b` could not have taken the message after it. */
  ghost predicate Full(doc: seq<Item>, b: Block) {
    b.first <= b.last && b.last + 1 < |doc|
    && (Boundary(doc, b.last + 1)
        || Lines(doc, b.first, b.last + 1) + doc[b.last + 1].lines > GROUP_BLOCK_LIMIT)
  }

  ghost predicate Sound(doc: seq<Item>, blocks: seq<Block>, k: nat)
    requires k < |blocks|
  {
    BlockOk(doc, blocks[k])
  }

  /** Block `k` is full and the next one takes over where it ends. */
  ghost predicate Joined(doc: seq<Item>, blocks: seq<Block>, k: nat)
    requires k + 1 < |blocks|
  {
    blocks[k + 1].first == blocks[k].last + 1 && Full(doc, blocks[k])
  }

  /** The blocks tile `from .. to`, each is sound, and each but the last is full. */
  ghost predicate Greedy(doc: seq<Item>, blocks: seq<Block>, from: nat, to: nat) {
    && from <= to <= |doc|
    && (if blocks == [] then from == to else blocks[0].first == from && blocks[|blocks| - 1].last + 1 == to)
    && (forall k :: 0 <= k < |blocks| ==> Sound(doc, blocks, k))
    && (forall k :: 0 <= k < |blocks| - 1 ==> Joined(doc, blocks, k))
  }

  ghost predicate Packing(doc: seq<Item>, blocks: seq<Block>) {
    Greedy(doc, blocks, 0, |doc|)
  }

  lemma {:induction false} GreedyTail(doc: seq<Item>, blocks: seq<Block>, from: nat, to: nat)
    requires Greedy(doc, blocks, from, to) && blocks != []
    ensures Greedy(doc, blocks[1..], blocks[0].last + 1, to)
  {
    var rest := blocks[1..];
    TilesForward(doc, blocks, from, to, 0);
    if rest != [] {
      assert Joined(doc, blocks, 0);
    }
    forall k | 0 <= k < |rest|
      ensures Sound(doc, rest, k)
    {
      assert Sound(doc, blocks, k + 1);
    }
    forall k | 0 <= k < |rest| - 1
      ensures Joined(doc, rest, k)
    {
      assert Joined(doc, blocks, k + 1);
    }
  }

  /** Blocks stay in range and later blocks start later. */
  lemma {:induction false} TilesForward(doc: seq<Item>, blocks: seq<Block>, from: nat, to: nat, k: nat)
    requires Greedy(doc, blocks, from, to) && k < |blocks|
    ensures from <= blocks[k].first <= blocks[k].last < to
    ensures forall j :: k < j < |blocks| ==> blocks[k].last < blocks[j].first
  {
    EndsBefore(doc, blocks, from, to, k);
    StartsAfter(doc, blocks, from, to, k);
  }

  lemma {:induction false} EndsBefore(doc: seq<Item>, blocks: seq<Block>, from: nat, to: nat, k: nat)
    requires Greedy(doc, blocks, from, to) && k < |blocks|
    ensures blocks[k].first <= blocks[k].last < to
    ensures forall j :: k < j < |blocks| ==> blocks[k].last < blocks[j].first
    decreases |blocks| - k
  {
    assert Sound(doc, blocks, k);
    if k + 1 < |blocks| {
      assert Joined(doc, blocks, k);
      EndsBefore(doc, blocks, from, to, k + 1);
    }
  }

  lemma {:induction false} StartsAfter(doc: seq<Item>, blocks: seq<Block>, from: nat, to: nat, k: nat)
    requires Greedy(doc, blocks, from, to) && k < |blocks|
    ensures from <= blocks[k].first
  {
    if k > 0 {
      assert Sound(doc, blocks, k - 1);
      assert Joined(doc, blocks, k - 1);
      StartsAfter(doc, blocks, from, to, k - 1);
    }
  }

  /** A full block reaches at least as far as any sound block that starts where it does. */
  lemma {:induction false} FullReachesFurthest(doc: seq<Item>, a: Block, b: Block)
    requires BlockOk(doc, a) && BlockOk(doc, b) && a.first == b.first && Full(doc, a)
    ensures a.last >= b.last
  {
    if a.last < b.last {
      LinesSplit(doc, b.first, a.last + 2, b.last + 1);
    }
  }

  lemma {:induction false} FirstReachesFurthest(doc: seq<Item>, a: seq<Block>, b: seq<Block>, from: nat, to: nat)
    requires Greedy(doc, a, from, to) && Greedy(doc, b, from, to) && a != [] && b != []
    ensures a[0].last >= b[0].last
  {
    assert Sound(doc, a, 0) && Sound(doc, b, 0);
    if |a| > 1 {
      assert Joined(doc, a, 0);
      FullReachesFurthest(doc, a[0], b[0]);
    } else {
      EndsBefore(doc, b, from, to, 0);
    }
  }

  /** There is one greedy partition: whatever builds one builds the same blocks. */
  lemma {:induction false} GreedyUnique(doc: seq<Item>, a: seq<Block>, b: seq<Block>, from: nat, to: nat)
    requires Greedy(doc, a, from, to) && Greedy(doc, b, from, to)
    ensures a == b
    decreases |a|
  {
    if a != [] {
      TilesForward(doc, a, from, to, 0);
    }
    if b != [] {
      TilesForward(doc, b, from, to, 0);
    }
    if a != [] && b != [] {
      FirstReachesFurthest(doc, a, b, from, to);
      FirstReachesFurthest(doc, b, a, from, to);
      assert Sound(doc, a, 0) && Sound(doc, b, 0);
      GreedyTail(doc, a, from, to);
      GreedyTail(doc, b, from, to);
      GreedyUnique(doc, a[1..], b[1..], a[0].last + 1, to);
      assert a == [a[0]] + a[1..] && b == [b[0]] + b[1..];
    }
  }

  lemma {:induction false} GreedyConcat(doc: seq<Item>, a: seq<Block>, b: seq<Block>, from: nat, mid: nat, to: nat)
    requires Greedy(doc, a, from, mid) && Greedy(doc, b, mid, to)
    requires a != [] && b != [] ==> Full(doc, a[|a| - 1])
    ensures Greedy(doc, a + b, from, to)
  {
    var all := a + b;
    forall k | 0 <= k < |all|
      ensures Sound(doc, all, k)
    {
      if k < |a| {
        assert Sound(doc, a, k);
      } else {
        assert Sound(doc, b, k - |a|);
      }
    }
    forall k | 0 <= k < |all| - 1
      ensures Joined(doc, all, k)
    {
      if k + 1 < |a| {
        assert Joined(doc, a, k);
      } else if k >= |a| {
        assert Joined(doc, b, k - |a|);
      }
    }
  }

  lemma {:induction false} GreedyPrefix(doc: seq<Item>, blocks: seq<Block>, from: nat, to: nat, k: nat)
    requires Greedy(doc, blocks, from, to) && k < |blocks|
    ensures Greedy(doc, blocks[..k], from, blocks[k].first)
  {
    var front := blocks[..k];
    TilesForward(doc, blocks, from, to, k);
    if k > 0 {
      assert Joined(doc, blocks, k - 1);
    }
    forall i | 0 <= i < k
      ensures Sound(doc, front, i)
    {
      assert Sound(doc, blocks, i);
    }
    forall i | 0 <= i < k - 1
      ensures Joined(doc, front, i)
    {
      assert Joined(doc, blocks, i);
    }
  }

  lemma {:induction false} BlockAgrees(doc: seq<Item>, more: seq<Item>, b: Block, to: nat)
    requires to <= |doc| <= |more| && doc[..to] == more[..to]
    requires BlockOk(doc, b) && b.last < to
    ensures BlockOk(more, b)
    ensures Full(doc, b) && b.last + 1 < to ==> Full(more, b)
  {
    assert forall i :: 0 <= i < to ==> doc[i] == doc[..to][i] == more[..to][i] == more[i];
    assert forall i :: 0 < i < to ==> Boundary(doc, i) == Boundary(more, i);
    LinesAgree(doc, more, b.first, b.last + 1);
  }

  /** A packing depends only on what it can see of the entries it covers. */
  lemma {:induction false} GreedyAgrees(doc: seq<Item>, more: seq<Item>, blocks: seq<Block>, to: nat)
    requires to <= |doc| <= |more| && doc[..to] == more[..to]
    requires Greedy(doc, blocks, 0, to)
    ensures Greedy(more, blocks, 0, to)
  {
    forall k | 0 <= k < |blocks|
      ensures Sound(more, blocks, k)
    {
      assert Sound(doc, blocks, k);
      TilesForward(doc, blocks, 0, to, k);
      BlockAgrees(doc, more, blocks[k], to);
    }
    forall k | 0 <= k < |blocks| - 1
      ensures Joined(more, blocks, k)
    {
      assert Sound(doc, blocks, k) && Joined(doc, blocks, k);
      TilesForward(doc, blocks, 0, to, k + 1);
      BlockAgrees(doc, more, blocks[k], to);
    }
  }

  // --- Building it ---------------------------------------------------------------

  /** The last message of the run starting at `start`. */
  method RunEnd(doc: seq<Item>, start: nat) returns (end: nat)
    requires start < |doc|
    ensures start <= end < |doc|
    ensures forall i :: start < i <= end ==> !Boundary(doc, i)
    ensures end + 1 < |doc| ==> Boundary(doc, end + 1)
  {
    if doc[start].lines > COLLAPSE_LIMIT {
      return start;
    }
    end := start;
    while end + 1 < |doc| && !Boundary(doc, end + 1)
      invariant start <= end < |doc|
      invariant forall i :: start < i <= end ==> !Boundary(doc, i)
    {
      end := end + 1;
    }
  }

  /** Messages `runStart ..= runEnd` form one run, and it is not a single long message. */
  ghost predicate ShortRun(doc: seq<Item>, runStart: nat, runEnd: nat) {
    && runStart <= runEnd < |doc|
    && (forall i :: runStart < i <= runEnd ==> !Boundary(doc, i))
    && !(runStart == runEnd && doc[runStart].lines > COLLAPSE_LIMIT)
  }

  /** Packing a run has closed `blocks` and holds `start .. message` in an open one. */
  ghost predicate Packed(doc: seq<Item>, blocks: seq<Block>, runStart: nat, start: nat, message: nat) {
    && runStart <= start <= message <= |doc|
    && (start == message ==> message == runStart)
    && (message - start >= 2 ==> Lines(doc, start, message) <= GROUP_BLOCK_LIMIT)
    && Greedy(doc, blocks, runStart, start)
    && (blocks != [] ==> Full(doc, blocks[|blocks| - 1]))
  }

  /** Closing the open block extends the packing. */
  lemma {:induction false} CloseBlock(doc: seq<Item>, blocks: seq<Block>, runStart: nat, runEnd: nat, start: nat,
                                      message: nat)
    requires ShortRun(doc, runStart, runEnd) && Packed(doc, blocks, runStart, start, message)
    requires start < message <= runEnd + 1
    ensures Greedy(doc, blocks + [Block(start, message - 1, Lines(doc, start, message), false)], runStart, message)
  {
    ShortRunHoldsNoLongMessage(doc, runStart, runEnd);
    var block := Block(start, message - 1, Lines(doc, start, message), false);
    assert BlockOk(doc, block) && Sound(doc, [block], 0);
    GreedyConcat(doc, blocks, [block], runStart, start, message);
  }

  /** Taking the next message, in a new block when it would overflow the open one. */
  lemma {:induction false} TakeMessage(doc: seq<Item>, blocks: seq<Block>, runStart: nat, runEnd: nat, start: nat,
                                       message: nat)
    requires Measured(doc) && ShortRun(doc, runStart, runEnd) && message <= runEnd
    requires Packed(doc, blocks, runStart, start, message)
    ensures var total := Lines(doc, start, message);
            if total > 0 && total + doc[message].lines > GROUP_BLOCK_LIMIT
            then Packed(doc, blocks + [Block(start, message - 1, total, false)], runStart, message, message + 1)
            else Packed(doc, blocks, runStart, start, message + 1)
  {
    if start < message {
      LinesPositive(doc, start, message);
      CloseBlock(doc, blocks, runStart, runEnd, start, message);
    }
  }

  function LongBlock(doc: seq<Item>, m: nat): Block
    requires m < |doc|
  {
    Block(m, m, if doc[m].expanded then doc[m].lines else COLLAPSE_SHOW, !doc[m].expanded)
  }

  lemma {:induction false} LongMessageAlone(doc: seq<Item>, m: nat)
    requires m < |doc| && doc[m].lines > COLLAPSE_LIMIT
    ensures Greedy(doc, [LongBlock(doc, m)], m, m + 1)
  {
    assert Lines(doc, m, m + 1) == doc[m].lines;
  }

  /** Splits one run into blocks; everything but the last block of the run is full. */
  method PackRun(doc: seq<Item>, runStart: nat, runEnd: nat) returns (blocks: seq<Block>)
    requires Measured(doc) && runStart <= runEnd < |doc|
    requires forall i :: runStart < i <= runEnd ==> !Boundary(doc, i)
    ensures blocks != [] && Greedy(doc, blocks, runStart, runEnd + 1)
  {
    var firstLines := doc[runStart].lines;
    if runStart == runEnd && firstLines > COLLAPSE_LIMIT {
      var expanded := doc[runStart].expanded;
      LongMessageAlone(doc, runStart);
      return [Block(runStart, runStart, if expanded then firstLines else COLLAPSE_SHOW, !expanded)];
    }
    blocks := [];
    var start, total := runStart, 0;
    for message := runStart to runEnd + 1
      invariant Packed(doc, blocks, runStart, start, message)
      invariant total == Lines(doc, start, message)
    {
      TakeMessage(doc, blocks, runStart, runEnd, start, message);
      var lines := doc[message].lines;
      if total > 0 && total + lines > GROUP_BLOCK_LIMIT {
        blocks := blocks + [Block(start, message - 1, total, false)];
        start := message;
        total := 0;
      }
      total := total + lines;
    }
    CloseBlock(doc, blocks, runStart, runEnd, start, runEnd + 1);
    blocks := blocks + [Block(start, runEnd, total, false)];
  }

  lemma {:induction false} ShortRunHoldsNoLongMessage(doc: seq<Item>, runStart: nat, runEnd: nat)
    requires ShortRun(doc, runStart, runEnd)
    ensures forall i :: runStart <= i <= runEnd ==> doc[i].lines <= COLLAPSE_LIMIT
  {
    forall i | runStart <= i <= runEnd
      ensures doc[i].lines <= COLLAPSE_LIMIT
    {
      if i > runStart {
        assert !Boundary(doc, i);
      } else if runStart < runEnd {
        assert !Boundary(doc, runStart + 1);
      }
    }
  }

  /** Packs every run from `from` on. */
  method PackFrom(doc: seq<Item>, from: nat) returns (blocks: seq<Block>)
    requires Measured(doc) && from <= |doc|
    ensures Greedy(doc, blocks, from, |doc|)
  {
    blocks := [];
    var cursor := from;
    while cursor < |doc|
      invariant from <= cursor <= |doc|
      invariant Greedy(doc, blocks, from, cursor)
      invariant blocks != [] && cursor < |doc| ==> Full(doc, blocks[|blocks| - 1])
    {
      var runEnd := RunEnd(doc, cursor);
      var run := PackRun(doc, cursor, runEnd);
      assert Sound(doc, run, |run| - 1);
      GreedyConcat(doc, blocks, run, from, cursor, runEnd + 1);
      blocks := blocks + run;
      cursor := runEnd + 1;
    }
  }
}
