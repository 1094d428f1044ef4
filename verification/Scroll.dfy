/** Scrolling the least amount that keeps the cursor's row inside the safe band. */
module Scroll {
  import opened Arithmetic

  /** The rows shown: `height` of them from the row this returns, `offset` rows above the bottom. */
  function TopRow(offset: nat, total: nat, height: nat): nat {
    SatSub(total, offset + height)
  }

  /** Rows of context kept above the cursor; half the view when it cannot hold more. */
  function ContextAbove(buffer: nat, height: nat): nat {
    Min(buffer, height / 2)
  }

  function ContextBelow(buffer: nat, height: nat): nat {
    Min(buffer, SatSub(height, 1) / 2)
  }

  /** The offset that puts `top` at the top. */
  function ScrollTo(top: nat, total: nat, height: nat): nat {
    Min(SatSub(total, top + height), SatSub(total, height))
  }

  lemma {:induction false} ScrollToTop(top: nat, total: nat, height: nat)
    requires top <= SatSub(total, height)
    ensures ScrollTo(top, total, height) <= SatSub(total, height)
    ensures TopRow(ScrollTo(top, total, height), total, height) == top
  {
  }

  lemma {:induction false} ContextFits(buffer: nat, height: nat)
    requires height > 0
    ensures ContextAbove(buffer, height) + ContextBelow(buffer, height) < height
  {
  }

  /** The scroll offset `keep_cursor_visible` leaves. */
  function KeepVisible(offset: nat, row: nat, total: nat, height: nat, buffer: nat): nat {
    var maxScroll := SatSub(total, height);
    var clamped := Min(offset, maxScroll);
    var top := TopRow(clamped, total, height);
    var before := ContextAbove(buffer, height);
    var after := ContextBelow(buffer, height);
    if row < top + before then
      var desiredTop := Min(SatSub(row, before), maxScroll);
      ScrollTo(desiredTop, total, height)
    else if row >= SatSub(top + height, after) then
      var desiredBottom := Min(row + after + 1, total);
      var desiredTop := Min(SatSub(desiredBottom, height), maxScroll);
      ScrollTo(desiredTop, total, height)
    else
      clamped
  }

  /** A view from `top` shows `row` with its full context on each side, or is pinned at that side's end. */
  ghost predicate Safe(top: nat, row: nat, total: nat, height: nat, buffer: nat) {
    && top <= SatSub(total, height)
    && top <= row < top + height
    && (top == 0 || top + ContextAbove(buffer, height) <= row)
    && (top == SatSub(total, height) || row + ContextBelow(buffer, height) < top + height)
  }

  function Distance(a: nat, b: nat): nat {
    if a <= b then b - a else a - b
  }

  /** The highest and the lowest view that keep the row safe. */
  function Highest(row: nat, total: nat, height: nat, buffer: nat): nat {
    Min(SatSub(row, ContextAbove(buffer, height)), SatSub(total, height))
  }

  function Lowest(row: nat, total: nat, height: nat, buffer: nat): nat {
    Min(SatSub(row + ContextBelow(buffer, height) + 1, height), SatSub(total, height))
  }

  /** The safe views are an interval. */
  lemma {:induction false} SafeInterval(top: nat, row: nat, total: nat, height: nat, buffer: nat)
    requires height > 0 && row < total
    ensures Lowest(row, total, height, buffer) <= Highest(row, total, height, buffer)
    ensures Safe(top, row, total, height, buffer) <==>
              Lowest(row, total, height, buffer) <= top <= Highest(row, total, height, buffer)
  {
  }

  /** The view moves to the nearest end of that interval, if it is outside at all. */
  lemma {:induction false} KeepVisibleClamps(offset: nat, row: nat, total: nat, height: nat, buffer: nat)
    requires height > 0 && row < total
    ensures KeepVisible(offset, row, total, height, buffer) <= SatSub(total, height)
    ensures var stood := TopRow(Min(offset, SatSub(total, height)), total, height);
            var moved := TopRow(KeepVisible(offset, row, total, height, buffer), total, height);
            moved == if stood > Highest(row, total, height, buffer) then Highest(row, total, height, buffer)
                     else Max(stood, Lowest(row, total, height, buffer))
  {
    ContextFits(buffer, height);
    hide ScrollTo, ContextAbove, ContextBelow;
    ScrollToTop(Highest(row, total, height, buffer), total, height);
    ScrollToTop(Lowest(row, total, height, buffer), total, height);
    BottomClamped(row, total, height, ContextBelow(buffer, height));
  }

  lemma {:induction false} BottomClamped(row: nat, total: nat, height: nat, after: nat)
    requires row < total
    ensures Min(SatSub(Min(row + after + 1, total), height), SatSub(total, height))
            == Min(SatSub(row + after + 1, height), SatSub(total, height))
  {
  }

  /** The view ends safe, and no safe view is nearer to where it stood. */
  lemma {:induction false} KeepVisibleIsMinimal(offset: nat, row: nat, total: nat, height: nat, buffer: nat, top: nat)
    requires height > 0 && row < total
    ensures var stood := TopRow(Min(offset, SatSub(total, height)), total, height);
            var moved := TopRow(KeepVisible(offset, row, total, height, buffer), total, height);
            && Safe(moved, row, total, height, buffer)
            && (Safe(top, row, total, height, buffer) ==> Distance(stood, moved) <= Distance(stood, top))
  {
    hide KeepVisible, Safe, Highest, Lowest;
    var moved := TopRow(KeepVisible(offset, row, total, height, buffer), total, height);
    KeepVisibleClamps(offset, row, total, height, buffer);
    SafeInterval(top, row, total, height, buffer);
    SafeInterval(moved, row, total, height, buffer);
  }

  /** Offsets within range and top rows determine each other. */
  lemma {:induction false} OffsetOfTop(a: nat, b: nat, total: nat, height: nat)
    requires a <= SatSub(total, height) && b <= SatSub(total, height)
    ensures TopRow(a, total, height) == TopRow(b, total, height) <==> a == b
  {
  }

  /** A safe view does not move, so keeping the cursor visible twice is keeping it visible once. */
  lemma {:induction false} KeepVisibleSettles(offset: nat, row: nat, total: nat, height: nat, buffer: nat)
    requires height > 0 && row < total
    ensures var once := KeepVisible(offset, row, total, height, buffer);
            KeepVisible(once, row, total, height, buffer) == once
    ensures Safe(TopRow(offset, total, height), row, total, height, buffer) && offset <= SatSub(total, height) ==>
              KeepVisible(offset, row, total, height, buffer) == offset
  {
    var once := KeepVisible(offset, row, total, height, buffer);
    hide KeepVisible, Safe, Highest, Lowest;
    KeepVisibleClamps(offset, row, total, height, buffer);
    KeepVisibleClamps(once, row, total, height, buffer);
    SafeInterval(TopRow(offset, total, height), row, total, height, buffer);
    SafeInterval(TopRow(once, total, height), row, total, height, buffer);
    OffsetOfTop(KeepVisible(once, row, total, height, buffer), once, total, height);
  }
}
