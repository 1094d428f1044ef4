/** The binary indexed tree of rows per block (`FenwickRows`), against a plain sequence of weights. */
module Fenwick {
  import opened Arithmetic

  // --- Which tree nodes cover an element -------------------------------------

  /** The first element that slot `k` sums: slot `k` is node `k + 1` counted from one. */
  function Left(k: nat): (l: nat)
    ensures l <= k
  {
    k + 1 - LowBit(k + 1)
  }

  /** What slot `k` must hold: the weights in `Left(k) .. k + 1`. */
  function Node(values: seq<nat>, k: nat): (n: nat)
    requires k < |values|
  {
    PrefixMonotone(values, Left(k), k + 1);
    Prefix(values, k + 1) - Prefix(values, Left(k))
  }

  ghost predicate Represents(tree: seq<nat>, values: seq<nat>) {
    |tree| == |values| && forall k :: 0 <= k < |tree| ==> tree[k] == Node(values, k)
  }

  ghost predicate Covers(k: nat, i: nat) {
    Left(k) <= i <= k
  }

  /** The slot an update walk visits after slot `k`. */
  function Parent(k: nat): (p: nat)
    ensures p > k
  {
    k + LowBit(k + 1)
  }

  /** Between a node and its parent no node reaches back to the node's own range. */
  lemma {:induction false} SiblingsStayRight(j: nat, k: nat)
    requires 0 < j < k < j + LowBit(j)
    ensures k - LowBit(k) >= j
  {
    if k % 2 == 0 {
      SiblingsStayRight(j / 2, k / 2);
    }
  }

  /** The parent's range contains the child's. */
  lemma {:induction false} ParentReachesLeft(j: nat)
    requires j > 0
    ensures j + LowBit(j) - LowBit(j + LowBit(j)) <= j - LowBit(j)
  {
    if j % 2 == 0 {
      ParentReachesLeft(j / 2);
    }
  }

  /** Adding a power of two below the lowest set bit makes that power the lowest set bit. */
  lemma {:induction false} LowBitOfSum(i: nat, b: nat)
    requires IsPow2(b) && (i == 0 || LowBit(i) >= 2 * b)
    ensures LowBit(i + b) == b
    decreases b
  {
    if b > 1 {
      assert b % 2 == 0 && i % 2 == 0;
      LowBitOfSum(i / 2, b / 2);
      assert (i + b) / 2 == i / 2 + b / 2;
    }
  }

  lemma {:induction false} HalvePowerOfTwo(bit: nat)
    requires IsPow2(bit)
    ensures bit == 1 || (IsPow2(bit / 2) && 2 * (bit / 2) == bit)
  {
  }

  // --- How nodes follow the weights ------------------------------------------

  lemma {:induction false} NodeUnchanged(values: seq<nat>, i: nat, v: nat, k: nat)
    requires i < |values| && k < |values| && !Covers(k, i)
    ensures Node(values[i := v], k) == Node(values, k)
  {
    PrefixUpdate(values, i, v, k + 1);
    PrefixUpdate(values, i, v, Left(k));
  }

  lemma {:induction false} NodeMoved(values: seq<nat>, i: nat, v: nat, k: nat)
    requires i < |values| && k < |values| && Covers(k, i)
    ensures values[i] <= Node(values, k)
    ensures Node(values[i := v], k) == Node(values, k) - values[i] + v
  {
    PrefixUpdate(values, i, v, k + 1);
    PrefixUpdate(values, i, v, Left(k));
    PrefixMonotone(values, Left(k), i);
    PrefixMonotone(values, i + 1, k + 1);
    assert Prefix(values, i + 1) == Prefix(values, i) + values[i];
  }

  lemma {:induction false} NodeOfPrefix(values: seq<nat>, more: seq<nat>, k: nat)
    requires k < |values| && values <= more
    ensures Node(more, k) == Node(values, k)
  {
    PrefixAgrees(values, more, k + 1);
    PrefixAgrees(values, more, Left(k));
  }

  lemma {:induction false} RepresentsPrefix(tree: seq<nat>, values: seq<nat>, n: nat)
    requires Represents(tree, values) && n <= |values|
    ensures Represents(tree[..n], values[..n])
  {
    forall k | 0 <= k < n
      ensures tree[..n][k] == Node(values[..n], k)
    {
      NodeOfPrefix(values[..n], values, k);
    }
  }

  lemma {:induction false} RepresentsPush(tree: seq<nat>, values: seq<nat>, value: nat)
    requires Represents(tree, values)
    ensures Prefix(values, Left(|values|)) <= Prefix(values, |values|)
    ensures Represents(tree + [Prefix(values, |values|) - Prefix(values, Left(|values|)) + value], values + [value])
    ensures Prefix(values + [value], |values| + 1) == Prefix(values, |values|) + value
  {
    var more := values + [value];
    PrefixAgrees(values, more, |values|);
    PrefixAgrees(values, more, Left(|values|));
    PrefixMonotone(values, Left(|values|), |values|);
    forall k | 0 <= k < |tree|
      ensures tree[k] == Node(more, k)
    {
      NodeOfPrefix(values, more, k);
    }
  }

  /** An update walk that has reached slot `at`: earlier slots follow the new weights. */
  ghost predicate Walked(tree: seq<nat>, before: seq<nat>, after: seq<nat>, at: nat) {
    && |tree| == |before| == |after|
    && (forall k :: 0 <= k < |tree| && k < at ==> tree[k] == Node(after, k))
    && (forall k :: 0 <= k < |tree| && k >= at ==> tree[k] == Node(before, k))
  }

  lemma {:induction false} WalkStart(tree: seq<nat>, values: seq<nat>, i: nat, v: nat)
    requires Represents(tree, values) && i < |values|
    ensures Covers(i, i)
    ensures Walked(tree, values, values[i := v], i)
  {
    forall k | 0 <= k < i
      ensures tree[k] == Node(values[i := v], k)
    {
      NodeUnchanged(values, i, v, k);
    }
  }

  /** The slots between a covering slot and its parent do not cover the element. */
  lemma {:induction false} GapUncovered(i: nat, at: nat, k: nat)
    requires Covers(at, i) && at < k < Parent(at)
    ensures !Covers(k, i)
  {
    SiblingsStayRight(at + 1, k + 1);
  }

  lemma {:induction false} WalkStep(tree: seq<nat>, values: seq<nat>, i: nat, v: nat, at: nat)
    requires i < |values| && at < |values| && Covers(at, i)
    requires Walked(tree, values, values[i := v], at)
    ensures Covers(Parent(at), i)
    ensures values[i] <= tree[at]
    ensures Walked(tree[at := tree[at] - values[i] + v], values, values[i := v], Parent(at))
  {
    ParentReachesLeft(at + 1);
    NodeMoved(values, i, v, at);
    var next := tree[at := tree[at] - values[i] + v];
    forall k | at < k < Parent(at) && k < |values|
      ensures next[k] == Node(values[i := v], k)
    {
      GapUncovered(i, at, k);
      NodeUnchanged(values, i, v, k);
    }
  }

  lemma {:induction false} WalkDone(tree: seq<nat>, before: seq<nat>, after: seq<nat>, at: nat)
    requires Walked(tree, before, after, at) && at >= |tree|
    ensures Represents(tree, after)
  {
  }

  // --- Searching a row --------------------------------------------------------

  /** The block whose half-open row interval holds `row` is unique, even among empty blocks. */
  lemma {:induction false} BlockOfRowUnique(values: seq<nat>, row: nat, a: nat, b: nat)
    requires a < |values| && b < |values|
    requires Prefix(values, a) <= row < Prefix(values, a + 1)
    requires Prefix(values, b) <= row < Prefix(values, b + 1)
    ensures a == b
  {
    if a < b {
      PrefixMonotone(values, a + 1, b);
    } else if b < a {
      PrefixMonotone(values, b + 1, a);
    }
  }

  /** The descent's state: the last prefix within `row` ends in `index .. index + step`. */
  ghost predicate Narrowed(values: seq<nat>, row: nat, index: nat, step: nat) {
    && index <= |values|
    && (index == 0 || LowBit(index) >= step)
    && Prefix(values, index) <= row
    && (index + step > |values| || Prefix(values, index + step) > row)
  }

  /** Probing the middle slot halves the interval. */
  lemma {:induction false} NarrowStep(tree: seq<nat>, values: seq<nat>, row: nat, index: nat, bit: nat)
    requires Represents(tree, values) && IsPow2(bit) && Narrowed(values, row, index, 2 * bit)
    ensures index + bit > |tree| ==> Narrowed(values, row, index, bit)
    ensures index + bit <= |tree| ==>
              var sum := Prefix(values, index) + tree[index + bit - 1];
              && sum == Prefix(values, index + bit)
              && Narrowed(values, row, if sum <= row then index + bit else index, bit)
  {
    LowBitOfSum(index, bit);
    if index + bit <= |tree| {
      assert Left(index + bit - 1) == index;
      assert tree[index + bit - 1] == Node(values, index + bit - 1);
    }
  }

  // --- The tree ----------------------------------------------------------------

  lemma {:induction false} SameLength(tree: seq<nat>, values: seq<nat>)
    requires Represents(tree, values)
    ensures |tree| == |values|
  {
  }

  class FenwickRows {
    var tree: seq<nat>
    var total: nat
    /** The weights the tree stands for. */
    ghost var values: seq<nat>

    ghost predicate Valid()
      reads this
    {
      Represents(tree, values) && total == Prefix(values, |values|)
    }

    constructor ()
      ensures Valid() && values == []
    {
      tree, total, values := [], 0, [];
    }

    method Clear()
      modifies this
      ensures Valid() && values == []
    {
      tree, total, values := [], 0, [];
    }

    method Push(value: nat)
      requires Valid() && |values| + 1 < USIZE_LIMIT
      modifies this
      ensures Valid() && values == old(values) + [value]
    {
      var index := |tree|;
      var oneBased := index + 1;
      var lowbit := IsolateLowBit(oneBased);
      var start := oneBased - lowbit;
      var upTo := PrefixSum(index);
      var before := PrefixSum(start);
      var previous := SatSub(upTo, before);
      RepresentsPush(tree, values, value);
      tree := tree + [previous + value];
      total := total + value;
      values := values + [value];
    }

    method Truncate(len: nat)
      requires Valid()
      modifies this
      ensures Valid() && values == old(values)[..Min(len, |old(values)|)]
    {
      RepresentsPrefix(tree, values, Min(len, |values|));
      tree := tree[..Min(len, |tree|)];
      values := values[..Min(len, |values|)];
      total := PrefixSum(len);
    }

    method Set(index: nat, value: nat)
      requires Valid() && index < |values| < USIZE_LIMIT
      modifies this
      ensures Valid() && values == old(values)[index := value]
    {
      var current := RangeSum(index, index + 1);
      PrefixUpdate(values, index, value, |values|);
      PrefixMonotone(values, index + 1, |values|);
      if value >= current {
        Add(index, value - current);
        total := total + (value - current);
      } else {
        Sub(index, current - value);
        total := SatSub(total, current - value);
      }
    }

    /** The sum of the first `count` weights; all of them when `count` is past the end. */
    method PrefixSum(count: nat) returns (sum: nat)
      requires Represents(tree, values)
      ensures sum == Prefix(values, Min(count, |values|))
    {
      var index: nat := Min(count, |tree|);
      sum := 0;
      while index > 0
        invariant index <= |values|
        invariant sum + Prefix(values, index) == Prefix(values, Min(count, |values|))
      {
        PrefixMonotone(values, Left(index - 1), index);
        sum := sum + tree[index - 1];
        index := ClearLowBit(index);
      }
    }

    method RangeSum(start: nat, end: nat) returns (sum: nat)
      requires Represents(tree, values)
      ensures sum == SatSub(Prefix(values, Min(end, |values|)), Prefix(values, Min(start, |values|)))
      ensures start <= end <= |values| ==>
                Prefix(values, start) <= Prefix(values, end)
                && sum == Prefix(values, end) - Prefix(values, start)
    {
      var toEnd := PrefixSum(end);
      var toStart := PrefixSum(start);
      if start <= end <= |values| {
        PrefixMonotone(values, start, end);
      }
      sum := SatSub(toEnd, toStart);
    }

    /** The block holding `row`; a row past the end is clamped to the last one. */
    method RowToBlock(row: nat) returns (block: Option<nat>)
      requires Valid()
      ensures block.None? <==> values == []
      ensures block.Some? ==> block.value < |values|
      ensures block.Some? && total > 0 ==>
                var clamped := Min(row, total - 1);
                Prefix(values, block.value) <= clamped < Prefix(values, block.value + 1)
      ensures block.Some? && total == 0 ==> block.value == |values| - 1
    {
      hide Represents, LowBit, Node;
      SameLength(tree, values);
      if |tree| == 0 {
        return None;
      }
      var clamped := Min(row, SatSub(total, 1));
      var index := 0;
      var sum := 0;
      var bit: nat := NextPowerOfTwo(|tree|);
      ghost var step := 2 * bit;
      while bit > 0
        invariant if bit == 0 then step == 1 else IsPow2(bit) && step == 2 * bit
        invariant Narrowed(values, clamped, index, step)
        invariant sum == Prefix(values, index)
        decreases bit
      {
        var next := index + bit;
        NarrowStep(tree, values, clamped, index, bit);
        if next <= |tree| && sum + tree[next - 1] <= clamped {
          sum := sum + tree[next - 1];
          index := next;
        }
        step := bit;
        HalvePowerOfTwo(bit);
        bit := bit / 2;
      }
      if index < |tree| {
        PrefixMonotone(values, index + 1, |values|);
      }
      return Some(Min(index, |tree| - 1));
    }

    method Add(index: nat, delta: nat)
      requires Valid() && index < |values| < USIZE_LIMIT
      modifies this
      ensures total == old(total)
      ensures values == old(values)[index := old(values)[index] + delta]
      ensures Represents(tree, values)
    {
      hide LowBit, IsolateLowBit, Node, Covers, Walked, Represents;
      SameLength(tree, values);
      ghost var moved := values[index] + delta;
      var oneBased := index + 1;
      WalkStart(tree, values, index, moved);
      while oneBased <= |tree|
        invariant values == old(values) && total == old(total) && |tree| == |values|
        invariant oneBased > 0 && Covers(oneBased - 1, index)
        invariant Walked(tree, values, values[index := moved], oneBased - 1)
      {
        WalkStep(tree, values, index, moved, oneBased - 1);
        tree := tree[oneBased - 1 := tree[oneBased - 1] + delta];
        oneBased := oneBased + IsolateLowBit(oneBased);
      }
      WalkDone(tree, values, values[index := moved], oneBased - 1);
      values := values[index := moved];
    }

    method Sub(index: nat, delta: nat)
      requires Valid() && index < |values| < USIZE_LIMIT && delta <= values[index]
      modifies this
      ensures total == old(total)
      ensures values == old(values)[index := old(values)[index] - delta]
      ensures Represents(tree, values)
    {
      hide LowBit, IsolateLowBit, Node, Covers, Walked, Represents;
      SameLength(tree, values);
      ghost var moved := values[index] - delta;
      var oneBased := index + 1;
      WalkStart(tree, values, index, moved);
      while oneBased <= |tree|
        invariant values == old(values) && total == old(total) && |tree| == |values|
        invariant oneBased > 0 && Covers(oneBased - 1, index)
        invariant Walked(tree, values, values[index := moved], oneBased - 1)
      {
        WalkStep(tree, values, index, moved, oneBased - 1);
        tree := tree[oneBased - 1 := SatSub(tree[oneBased - 1], delta)];
        oneBased := oneBased + IsolateLowBit(oneBased);
      }
      WalkDone(tree, values, values[index := moved], oneBased - 1);
      values := values[index := moved];
    }
  }
}
