/** The chat view: entries, cursors and row index, carried through journal replay and rebuilds. */
module Viewport {
  import opened Arithmetic
  import opened History
  import opened Display
  import opened Layout
  import opened Entries
  import opened Measuring
  import opened RowIndex
  import opened Tiling
  import opened Sequence
  import opened Resync
  import opened Handover
  import Batch
  import opened OwnNotices
  import opened Clearing
  import opened RoomLog
  import Steps
  import opened Scroll
  import S = Screen
  import Increment

  /** Where the reader stood before a pass moved anything. */
  datatype Follow = Follow(following: bool, cursorAtTail: bool)

  /** How a reconcile went. */
  datatype Pass = Idle | Trimmed | Caught(deltas: seq<Delta>) | Discarded

  /** Whether the list was laid out anew on the way. */
  ghost predicate Relays(how: Pass) {
    how.Trimmed? || how.Discarded? || (how.Caught? && Relaid in how.deltas)
  }

  ghost function DeltasOf(how: Pass): seq<Delta> {
    if how.Caught? then how.deltas else []
  }

  ghost predicate Referring(entries: seq<ViewEntry>) {
    exists i :: 0 <= i < |entries| && entries[i].hasRefs
  }

  /** A newcomer at the end, or new marks: nothing already shown goes or changes its text. */
  predicate Joins(d: Delta) {
    d.Appended? || d.NoticeAdded? || d.Relabelled?
  }

  ghost predicate Arrivals(deltas: seq<Delta>) {
    forall d :: d in deltas ==> Joins(d)
  }

  class ChatViewport {
    var entries: seq<ViewEntry>
    var cursor: Option<ViewCursor>
    var anchor: Option<ViewCursor>
    var scrollAnchor: Option<ScrollAnchor>
    var localNotices: seq<LocalNotice>
    var clearBoundary: Option<ClearBoundary>
    var scrollOffset: nat
    var nextNoticeId: nat
    var maxLocalNotices: nat
    var observedGeneration: Option<nat>
    var observedRevision: nat
    /** A heading mark moved since the blocks were packed; the code regroups nothing for that. */
    ghost var marksMoved: bool
    /** What each entry's line count was last measured from. */
    ghost var texts: Texts
    const measure: Measure
    const index: LayoutIndex

    ghost predicate Valid()
      reads this`entries, this`localNotices, this`clearBoundary, this`nextNoticeId, this`texts, index, index.rows
    {
      && index.InSync() && |entries| < USIZE_LIMIT && CountsOk(entries, KeptCounts(), measure, texts)
      && LocalsAscend(localNotices) && Numbered(localNotices, clearBoundary, nextNoticeId)
    }

    ghost function KeptCounts(): Counts
      reads index
    {
      if index.valid then Some(index.lineCounts) else None
    }

    /** The list as the index has measured it. */
    ghost function Doc(room: Room): seq<Item>
      requires |index.lineCounts| == |entries|
      reads this`entries, this`localNotices, index
    {
      DocOf(entries, index.lineCounts, room, localNotices)
    }

    /** A valid index is the one packed from scratch from its counts. */
    ghost predicate Packed(room: Room)
      reads this`entries, this`localNotices, index, index.rows
    {
      index.valid ==> |index.lineCounts| == |entries| && index.Holds(Doc(room))
    }

    /** Its blocks tile the list, however the marks would group it. */
    ghost predicate Laid(room: Room)
      reads this`entries, this`localNotices, index, index.rows
    {
      index.valid ==> |index.lineCounts| == |entries| && index.Tiles(Doc(room))
    }

    /** Midway through a batch with `rest` to come. */
    ghost predicate Replaying(room: Room, rest: seq<Delta>, fx: Effects)
      reads this`entries, this`localNotices, this`clearBoundary, this`nextNoticeId, this`texts, this`marksMoved,
            index, index.rows
    {
      && Valid() && FlagsOk(entries, room, localNotices, rest)
      && (!fx.repack ==> Laid(room))
      && (!marksMoved && !fx.repack && !AnyTouched(rest, IdsOf(entries)) ==> Packed(room))
    }

    constructor (measure: Measure)
      ensures Valid() && entries == [] && cursor == None && anchor == None && scrollAnchor == None
      ensures localNotices == [] && clearBoundary == None && !index.valid && !marksMoved && texts == map[]
      ensures observedGeneration == None && scrollOffset == 0 && nextNoticeId == 1
      ensures maxLocalNotices == 0xFFFF_FFFF_FFFF_FFFF
      ensures this.measure == measure && fresh(index) && fresh(index.rows)
    {
      entries, cursor, anchor, scrollAnchor := [], None, None, None;
      localNotices, clearBoundary, scrollOffset, marksMoved, texts := [], None, 0, false, map[];
      nextNoticeId, maxLocalNotices, observedGeneration, observedRevision := 1, USIZE_LIMIT - 1, None, 0;
      this.measure := measure;
      index := new LayoutIndex();
    }

    // --- What a pass leaves alone ------------------------------------------------------------

    /** Cursors and scroll anchor on entries that no delta drops are as they were. */
    twostate predicate CursorsHeld(deltas: seq<Delta>, room: Room)
      reads this`cursor, this`anchor, this`scrollAnchor, this`localNotices
    {
      && Held(old(cursor), cursor, EntryAt(old(cursor)), deltas, room, localNotices)
      && Held(old(anchor), anchor, EntryAt(old(anchor)), deltas, room, localNotices)
      && Held(old(scrollAnchor), scrollAnchor, AnchoredTo(old(scrollAnchor)), deltas, room, localNotices)
    }

    /** Cursors and scroll anchor were handed to whoever takes over in the new list. */
    twostate predicate CursorsMoved()
      reads this`cursor, this`anchor, this`scrollAnchor, this`entries
    {
      && Moved(old(cursor), cursor, old(IdsOf(entries)), IdsOf(entries))
      && Moved(old(anchor), anchor, old(IdsOf(entries)), IdsOf(entries))
      && MovedAnchor(old(scrollAnchor), scrollAnchor, old(IdsOf(entries)), IdsOf(entries))
    }

    /** The reader is pinned to the newest entry. */
    ghost predicate AtTail()
      reads this`scrollOffset, this`entries, this`cursor
    {
      && scrollOffset == 0
      && (entries == [] || (cursor.Some? && cursor.value.entry == entries[|entries| - 1].id))
    }

    /** Entries that stay keep their folds; the others start out with the default one. */
    twostate predicate Folds(relaid: bool, deltas: seq<Delta>, room: Room)
      reads this`entries, this`localNotices
    {
      FoldsKept(entries, old(entries), if relaid then [] else deltas, room, localNotices)
    }

    // --- One entry ---------------------------------------------------------------------

    /** Materializes one id at `at`; the end of the list is where appends and notices land. */
    method InsertEntry(room: Room, id: EntryId, at: nat, fx: Effects, ghost rest: seq<Delta>) returns (after: Effects)
      requires Replaying(room, rest, fx) && at <= |entries| && |entries| + 1 < USIZE_LIMIT && id !in IdsOf(entries)
      modifies this`entries, this`texts, index, index.rows
      ensures (index.valid ==> old(index.valid)) && (!fx.repack ==> (index.valid <==> old(index.valid)))
      ensures Replaying(room, rest, after) && after.referencesDirty == fx.referencesDirty
      ensures IdsOf(entries) == Materialize(old(IdsOf(entries)), at, id, room, localNotices, clearBoundary)
      ensures entries == Admitted(old(entries), at, id, room, localNotices, clearBoundary)
      ensures texts == Noted(old(texts), id, room, localNotices, clearBoundary)
      ensures at == |old(entries)| ==> after == fx
      ensures fx.repack ==> after.repack
    {
      if Hidden(clearBoundary, id) || !Visible(room, localNotices, id) {
        return fx;
      }
      var entry := NewEntry(room, localNotices, id);
      if at == |entries| {
        AppendIsInsert(entries, entry);
        AppendEntry(room, entry, fx, rest);
        return fx;
      }
      hide CountsOk, FlagsOk, AnyTouched, Visible, IdsOf, InsertAt, TextOf, TextLines, NewEntry, LayoutIndex.InSync,
           Laid, Packed;
      IdsInsert(entries, at, entry);
      NotAmong(entries, id);
      NewEntryId(room, localNotices, id);
      var counts := [];
      if index.valid {
        counts := InsertAt(index.lineCounts, at, EntryLines(measure, room, localNotices, id));
      }
      ghost var text := TextOf(room, localNotices, id);
      CountsInsert(entries, KeptCounts(), Spliced(counts), measure, texts, at, entry, text);
      FlagsInsert(entries, room, localNotices, rest, at, id);
      after := Splice(room, InsertAt(entries, at, entry), counts, texts[id := text], fx, rest);
    }

    ghost function Spliced(counts: seq<nat>): Counts
      reads index
    {
      if index.valid then Some(counts) else None
    }

    /** Swaps in edited entries with their line counts, leaving a repack for the end, or gives the index up. */
    method Splice(ghost room: Room, edited: seq<ViewEntry>, counts: seq<nat>, ghost noted: Texts, fx: Effects,
                  ghost rest: seq<Delta>) returns (after: Effects)
      requires index.InSync() && |edited| < USIZE_LIMIT
      requires LocalsAscend(localNotices) && Numbered(localNotices, clearBoundary, nextNoticeId)
      requires CountsOk(edited, Spliced(counts), measure, noted) && FlagsOk(edited, room, localNotices, rest)
      modifies this`entries, this`texts, index, index.rows
      ensures index.valid <==> old(index.valid)
      ensures Replaying(room, rest, after) && after == if index.valid then fx.(repack := true) else fx
      ensures entries == edited && texts == noted
    {
      hide CountsOk, FlagsOk, AnyTouched, DocOf;
      entries, texts := edited, noted;
      if index.valid {
        index.lineCounts := counts;
        return fx.(repack := true);
      }
      index.Invalidate();
      return fx;
    }

    method AppendEntry(room: Room, entry: ViewEntry, ghost fx: Effects, ghost rest: seq<Delta>)
      requires Replaying(room, rest, fx) && |entries| + 1 < USIZE_LIMIT
      requires entry == NewEntry(room, localNotices, entry.id) && entry.id !in IdsOf(entries)
      modifies this`entries, this`texts, index, index.rows
      ensures (index.valid ==> old(index.valid)) && (!fx.repack ==> (index.valid <==> old(index.valid)))
      ensures Replaying(room, rest, fx) && entries == old(entries) + [entry]
      ensures IdsOf(entries) == InsertAt(old(IdsOf(entries)), |old(entries)|, entry.id)
      ensures texts == old(texts)[entry.id := TextOf(room, localNotices, entry.id)]
      ensures old(index.valid && Laid(room)) ==> Extended(room, old(Doc(room)), old(index.blocks))
    {
      hide CountsOk, FlagsOk, AnyTouched, DocOf, TextOf, TextLines, InsertAt, IdsOf, LayoutIndex.Holds,
           LayoutIndex.Tiles, LayoutIndex.InSync, LocalsAscend, Numbered, Extended;
      ghost var counts := KeptCounts();
      ghost var was := entries;
      IdsInsert(entries, |entries|, entry);
      AppendIsInsert(entries, entry);
      AnyTouchedGrows(rest, IdsOf(entries), entry.id);
      NotAmong(entries, entry.id);
      CountsLength(entries, counts, measure, texts);
      entries := entries + [entry];
      if index.valid {
        var lines := EntryLines(measure, room, localNotices, entry.id);
        AppendIsInsert(index.lineCounts, lines);
        AppendMeasured(was, index.lineCounts, measure, texts, entry, lines, room, localNotices);
        RepairIndex(room, was, entry, lines);
      }
      ghost var text := TextOf(room, localNotices, entry.id);
      CountsInsert(was, counts, KeptCounts(), measure, texts, |was|, entry, text);
      FlagsInsert(was, room, localNotices, rest, |was|, entry.id);
      texts := texts[entry.id := text];
    }

    /** The index tiles one entry more, and rows moved exactly if the marks divide the block that was last. */
    ghost predicate Extended(room: Room, doc: seq<Item>, blocks: seq<Block>)
      reads this`entries, this`localNotices, index, index.rows
    {
      && index.valid && |index.lineCounts| == |entries| > 0 && index.Tiles(Doc(room))
      && Measured(doc) && Tiled(doc, blocks, 0, |doc|)
      && (Increment.KeepsRows(S.Index(doc, blocks), index.Snapshot(Doc(room))) <==>
          Increment.Undivided(Doc(room), blocks))
    }

    /** Lets the index follow an append; entries stay as they are. */
    method RepairIndex(room: Room, ghost was: seq<ViewEntry>, entry: ViewEntry, lines: nat)
      requires index.valid && index.InSync() && |index.lineCounts| == |was| && entries == was + [entry]
      requires Measured(DocOf(entries, index.lineCounts + [lines], room, localNotices)) && |entries| < USIZE_LIMIT
      modifies index, index.rows
      ensures index.InSync() && (index.valid ==> index.lineCounts == old(index.lineCounts) + [lines])
      ensures var doc := old(DocOf(was, index.lineCounts, room, localNotices));
              && (old(index.Holds(doc)) ==> Packed(room))
              && (old(index.Tiles(doc)) ==> index.valid && Laid(room) && Extended(room, doc, old(index.blocks)))
    {
      hide DocOf, LayoutIndex.Holds, LayoutIndex.InSync, Increment.KeepsRows, Increment.Undivided, Tiled, Measured;
      var doc := DocOf(entries, index.lineCounts + [lines], room, localNotices);
      DocPrefix(entries, index.lineCounts + [lines], room, localNotices, |was|);
      DocLast(entries, index.lineCounts + [lines], room, localNotices);
      index.RepairAfterAppend(doc);
    }

    /** Re-reads a record that was replaced in place; one that no longer resolves goes. */
    method ReplaceEntry(room: Room, d: Delta, fx: Effects, ghost rest: seq<Delta>) returns (after: Effects)
      requires d.Replaced? && Replaying(room, [d] + rest, fx) && Display.Ascending(IdsOf(entries))
      modifies this`entries, this`cursor, this`anchor, this`scrollAnchor, this`texts, index, index.rows
      ensures index.valid <==> old(index.valid)
      ensures Replaying(room, rest, after) && after.referencesDirty == fx.referencesDirty
      ensures IdsOf(entries) == Step(old(IdsOf(entries)), d, room, localNotices, clearBoundary)
      ensures entries == StepEntries(old(entries), d, room, localNotices, clearBoundary)
      ensures texts == StepTexts(old(texts), old(IdsOf(entries)), d, room, localNotices, clearBoundary)
      ensures old(CursorsNamed()) ==> CursorsNamed()
      ensures CursorsHeld([d], room)
      ensures Visible(room, localNotices, Msg(d.id)) || Msg(d.id) !in old(IdsOf(entries)) ==>
                cursor == old(cursor) && anchor == old(anchor) && scrollAnchor == old(scrollAnchor)
      ensures fx.repack ==> after.repack
    {
      hide CountsOk, FlagsOk, AnyTouched, DocOf, TextOf, TextLines, Laid, Packed, LayoutIndex.InSync, Visible, HasRefs,
           Touches, IndexOf, IdsOf, Admitted, KeepEntries, Display.Ascending;
      var id := Msg(d.id);
      var i := IndexOf(IdsOf(entries), id);
      OnlyTouches(IdsOf(entries), d, id);
      if i == |entries| {
        PassBy(room, d, fx, rest);
        return fx;
      }
      if !Visible(room, localNotices, id) {
        assert d in [d] && Batch.Drops(d, id, room, localNotices);
        after := RemoveEntryAt(room, i, d, fx, rest);
        return;
      }
      var counts := [];
      CountsLength(entries, KeptCounts(), measure, texts);
      if index.valid {
        counts := index.lineCounts[i := EntryLines(measure, room, localNotices, id)];
      }
      ghost var text := TextOf(room, localNotices, id);
      var entry := entries[i].(hasRefs := HasRefs(room, localNotices, id));
      AloneAt(entries, i);
      CountsReplace(entries, KeptCounts(), Spliced(counts), measure, texts, i, entry, text);
      FlagsReplace(entries, room, localNotices, d, rest, i);
      IdsSame(entries, entries[i := entry]);
      after := Splice(room, entries[i := entry], counts, texts[id := text], fx, rest);
    }

    /** Drops the entry of an id, if it is shown. */
    method RemoveEntry(room: Room, id: EntryId, d: Delta, fx: Effects, ghost rest: seq<Delta>)
      returns (after: Effects)
      requires Replaying(room, [d] + rest, fx) && Display.Ascending(IdsOf(entries))
      requires (d.Tombstoned? && id == Msg(d.id)) || (d.NoticeRemoved? && id == Shared(d.key))
      modifies this`entries, this`cursor, this`anchor, this`scrollAnchor, this`texts, index, index.rows
      ensures index.valid <==> old(index.valid)
      ensures Replaying(room, rest, after) && after.referencesDirty == fx.referencesDirty && texts == old(texts)
      ensures IdsOf(entries) == Without(old(IdsOf(entries)), id) && entries == Dropped(old(entries), id)
      ensures old(CursorsNamed()) ==> CursorsNamed()
      ensures CursorsHeld([d], room)
      ensures fx.repack ==> after.repack
    {
      hide CountsOk, FlagsOk, AnyTouched, DocOf, Laid, Packed, LayoutIndex.InSync, IndexOf, IdsOf;
      var i := IndexOf(IdsOf(entries), id);
      OnlyTouches(IdsOf(entries), d, id);
      if i == |entries| {
        PassBy(room, d, fx, rest);
        return fx;
      }
      assert d in [d] && Batch.Drops(d, id, room, localNotices);
      after := RemoveEntryAt(room, i, d, fx, rest);
    }

    /** Drops entry `i`; cursors on it move to the newer neighbour, else the older one. */
    method RemoveEntryAt(ghost room: Room, i: nat, ghost d: Delta, fx: Effects, ghost rest: seq<Delta>)
      returns (after: Effects)
      requires Replaying(room, [d] + rest, fx) && i < |entries|
      requires forall j :: 0 <= j < |entries| && j != i ==> !Touches(d, entries[j].id)
      modifies this`entries, this`cursor, this`anchor, this`scrollAnchor, this`texts, index, index.rows
      ensures index.valid <==> old(index.valid)
      ensures Replaying(room, rest, after) && after.referencesDirty == fx.referencesDirty && texts == old(texts)
      ensures entries == RemoveAt(old(entries), i)
      ensures IdsOf(entries) == RemoveAt(old(IdsOf(entries)), i)
      ensures PassedOn(old(cursor), cursor, old(entries), i) && PassedOn(old(anchor), anchor, old(entries), i)
      ensures if AnchoredTo(old(scrollAnchor)) == Some(old(entries)[i].id) then scrollAnchor.None?
              else scrollAnchor == old(scrollAnchor)
      ensures old(CursorsNamed()) ==> CursorsNamed()
      ensures fx.repack ==> after.repack
    {
      hide CountsOk, FlagsOk, AnyTouched, DocOf, Laid, Packed, LayoutIndex.InSync, Touches, IdsOf, RemoveAt;
      var id := entries[i].id;
      var edited := RemoveAt(entries, i);
      IdsRemove(entries, i);
      RemovedLeaves(IdsOf(entries), i);
      CountsLength(entries, KeptCounts(), measure, texts);
      var counts := [];
      if index.valid {
        counts := RemoveAt(index.lineCounts, i);
      }
      CountsRemove(entries, KeptCounts(), Spliced(counts), measure, texts, i);
      FlagsRemove(entries, room, localNotices, d, rest, i);
      HandedPasses(cursor, entries, i);
      HandedPasses(anchor, entries, i);
      var replacement := Neighbour(IdsOf(edited), i);
      after := Splice(room, edited, counts, texts, fx, rest);
      cursor := Handed(cursor, id, replacement);
      anchor := Handed(anchor, id, replacement);
      scrollAnchor := Released(scrollAnchor, id);
    }

    /** Applies the retention watermark: evicted messages go, everything else keeps its place. */
    method DropEvictedFront(ghost room: Room, w: nat, fx: Effects, ghost rest: seq<Delta>) returns (after: Effects)
      requires Replaying(room, [EvictedThrough(w)] + rest, fx)
      modifies this`entries, this`cursor, this`anchor, this`scrollAnchor, this`texts, index, index.rows
      ensures index.valid <==> old(index.valid)
      ensures Replaying(room, rest, after) && after.referencesDirty == fx.referencesDirty && texts == old(texts)
      ensures entries == KeepEntries(old(entries), w)
      ensures IdsOf(entries) == Survivors(old(IdsOf(entries)), w)
      ensures entries == old(entries) ==>
                cursor == old(cursor) && anchor == old(anchor) && scrollAnchor == old(scrollAnchor)
      ensures entries != old(entries) ==>
                && SentToFront(old(cursor), cursor, entries) && SentToFront(old(anchor), anchor, entries)
                && (if old(scrollAnchor).Some? && old(scrollAnchor).value.entry !in IdsOf(entries)
                    then scrollAnchor.None? else scrollAnchor == old(scrollAnchor))
      ensures old(anchor).None? ==> anchor.None?
      ensures old(CursorsNamed()) ==> CursorsNamed() && CursorsHeld([EvictedThrough(w)], room)
      ensures fx.repack ==> after.repack
    {
      hide CountsOk, FlagsOk, AnyTouched, DocOf, Laid, Packed, LayoutIndex.InSync, KeepEntries, KeepCounts, IdsOf,
           Survivors, Touches;
      KeepIds(entries, w);
      CountsLength(entries, KeptCounts(), measure, texts);
      CountsKeep(entries, KeptCounts(), measure, texts, w);
      FlagsKeep(entries, room, localNotices, rest, w);
      KeepAll(entries, w);
      if |KeepEntries(entries, w)| == |entries| {
        PassBy(room, EvictedThrough(w), fx, rest);
      }
      var kept := CompactFront(room, w);
      if kept == |entries| {
        return fx;
      }
      var ids := IdsOf(entries[..kept]);
      RecoveredGoes(cursor, entries[..kept]);
      RecoveredGoes(anchor, entries[..kept]);
      EvictionHolds(ids, old(IdsOf(entries)), w, room, localNotices);
      cursor := Recovered(cursor, ids);
      anchor := Recovered(anchor, ids);
      scrollAnchor := Kept(scrollAnchor, ids);
      after := Splice(room, entries[..kept], if index.valid then index.lineCounts[..kept] else [], texts, fx, rest);
    }

    /** Swaps the entries to keep to the front, and their line counts alike: a stable filter. */
    method CompactFront(ghost room: Room, w: nat) returns (kept: nat)
      requires index.InSync() && (index.valid ==> |index.lineCounts| == |entries|)
      modifies this`entries, index`lineCounts
      ensures index.InSync() && kept <= |entries| == |old(entries)|
      ensures entries[..kept] == KeepEntries(old(entries), w)
      ensures index.valid ==>
                |index.lineCounts| == |entries|
                && index.lineCounts[..kept] == KeepCounts(old(entries), old(index.lineCounts), w)
      ensures kept == |entries| ==> entries == old(entries) && KeptCounts() == old(KeptCounts())
      ensures kept == |entries| && old(Packed(room)) ==> Packed(room)
      ensures kept == |entries| && old(Laid(room)) ==> Laid(room)
    {
      hide KeepEntries, KeepCounts, DocOf, Evicted, LineCounts, Packing, Tiled, Measured, Swap;
      kept := 0;
      KeepNothing(w);
      for i := 0 to |entries|
        invariant kept <= i <= |entries| == |old(entries)| && index.InSync()
        invariant entries[i..] == old(entries)[i..]
        invariant entries[..kept] == KeepEntries(old(entries)[..i], w)
        invariant index.valid ==>
                    && |index.lineCounts| == |entries|
                    && index.lineCounts[i..] == old(index.lineCounts)[i..]
                    && index.lineCounts[..kept] == KeepCounts(old(entries)[..i], old(index.lineCounts)[..i], w)
      {
        KeepNext(old(entries), w, i);
        SwapKeeps(old(entries), entries, kept, i);
        if index.valid {
          KeepNextCount(old(entries), old(index.lineCounts), w, i);
          SwapKeeps(old(index.lineCounts), index.lineCounts, kept, i);
        }
        if Evicted(entries[i].id, w) {
          continue;
        }
        if kept != i {
          entries := Swap(entries, kept, i);
          if index.valid {
            index.lineCounts := Swap(index.lineCounts, kept, i);
          }
        }
        kept := kept + 1;
      }
      assert old(entries)[..|entries|] == old(entries);
      KeepAll(old(entries), w);
      assert kept == |entries| ==> entries[..kept] == entries == old(entries);
      if index.valid {
        assert old(index.lineCounts)[..|entries|] == old(index.lineCounts);
        KeepAllCounts(old(entries), old(index.lineCounts), w);
        assert kept == |entries| ==> index.lineCounts[..kept] == index.lineCounts == old(index.lineCounts);
      }
    }

    /** Nothing shown is touched, so only the batch gets shorter. */
    ghost method PassBy(room: Room, d: Delta, fx: Effects, rest: seq<Delta>)
      requires Replaying(room, [d] + rest, fx)
      requires forall j :: 0 <= j < |entries| ==> !Touches(d, entries[j].id)
      ensures Replaying(room, rest, fx)
    {
      hide CountsOk, FlagsOk, Laid, Packed, LayoutIndex.InSync, Touches;
      FlagsPass(entries, room, localNotices, d, rest);
      AnyTouchedLater(d, rest, IdsOf(entries));
    }

    // --- A batch -------------------------------------------------------------------------

    /** One delta, its records read from the end state `room`. */
    method ApplyDelta(room: Room, d: Delta, fx: Effects, ghost now: Room, ghost next: Room, ghost rest: seq<Delta>,
                      ghost all: bool) returns (after: Effects)
      requires !d.Relaid? && Evolves(now, d, next)
      requires Catching(IdsOf(entries), now, room, localNotices, clearBoundary, all)
      requires Replaying(room, [d] + rest, fx) && |entries| + 1 < USIZE_LIMIT
      modifies this`entries, this`cursor, this`anchor, this`scrollAnchor, this`texts, index, index.rows
      ensures (index.valid ==> old(index.valid)) && (!fx.repack ==> (index.valid <==> old(index.valid)))
      ensures Replaying(room, rest, after) && |entries| <= |old(entries)| + 1
      ensures IdsOf(entries) == Step(old(IdsOf(entries)), d, room, localNotices, clearBoundary)
      ensures entries == StepEntries(old(entries), d, room, localNotices, clearBoundary)
      ensures texts == StepTexts(old(texts), old(IdsOf(entries)), d, room, localNotices, clearBoundary)
      ensures Catching(IdsOf(entries), next, room, localNotices, clearBoundary, all)
      ensures old(anchor).None? ==> anchor.None?
      ensures old(CursorsNamed()) ==> CursorsNamed() && CursorsHeld([d], room)
      ensures CarriesAll(old(entries), entries, d, room, localNotices)
      ensures after.referencesDirty == (fx.referencesDirty || AboutMessages(d))
      ensures !fx.repack && Joins(d) ==> !after.repack
      ensures fx.repack ==> after.repack
    {
      hide Evolves, CarriesAll, Catching, Replaying, CursorsNamed, IdsOf, Visible, Display.Ascending, Materialize,
           Without, Survivors, Admitted, Dropped, Reread, KeepEntries, RemoveAt, Hidden, InsertPosition, AboutMessages,
           LocalsAscend, Numbered, Noted;
      CatchingOrder(IdsOf(entries), now, room, localNotices, clearBoundary, all);
      StepCatches(IdsOf(entries), d, now, next, room, localNotices, clearBoundary, all);
      AddedIsNew(IdsOf(entries), d, now, next, room, localNotices, clearBoundary, all);
      StepGrows(IdsOf(entries), d, room, localNotices, clearBoundary);
      StepCarries(entries, d, room, localNotices, clearBoundary);
      var marked := fx.(referencesDirty := fx.referencesDirty || AboutMessages(d));
      MarkedReplaying(room, [d] + rest, fx, marked);
      match d
      case Appended(m) =>
        after := Admit(room, d, Msg(m), |entries|, marked, rest);
      case Inserted(m) =>
        after := Admit(room, d, Msg(m), InsertPosition(IdsOf(entries), m), marked, rest);
      case Replaced(m) =>
        after := ReplaceEntry(room, d, marked, rest);
      case Tombstoned(m) =>
        after := RemoveEntry(room, Msg(m), d, marked, rest);
      case EvictedThrough(w) =>
        after := DropEvictedFront(room, w, marked, rest);
      case NoticeAdded(k) =>
        after := Admit(room, d, Shared(k), |entries|, marked, rest);
      case NoticeRemoved(k) =>
        after := RemoveEntry(room, Shared(k), d, marked, rest);
      case Relabelled =>
        PassBy(room, d, marked, rest);
        after := marked;
    }

    lemma {:induction false} MarkedReplaying(room: Room, rest: seq<Delta>, fx: Effects, marked: Effects)
      requires Replaying(room, rest, fx) && marked.repack == fx.repack
      ensures Replaying(room, rest, marked)
    {
      hide CountsOk, FlagsOk, AnyTouched, LayoutIndex.InSync, Laid, Packed, IdsOf;
    }

    /** A delta that only adds an id. */
    method Admit(room: Room, ghost d: Delta, id: EntryId, at: nat, fx: Effects, ghost rest: seq<Delta>)
      returns (after: Effects)
      requires Replaying(room, [d] + rest, fx) && at <= |entries| && |entries| + 1 < USIZE_LIMIT
      requires (d.Appended? || d.Inserted? || d.NoticeAdded?) && id !in IdsOf(entries)
      modifies this`entries, this`texts, index, index.rows
      ensures (index.valid ==> old(index.valid)) && (!fx.repack ==> (index.valid <==> old(index.valid)))
      ensures Replaying(room, rest, after) && after.referencesDirty == fx.referencesDirty
      ensures IdsOf(entries) == Materialize(old(IdsOf(entries)), at, id, room, localNotices, clearBoundary)
      ensures entries == Admitted(old(entries), at, id, room, localNotices, clearBoundary)
      ensures texts == Noted(old(texts), id, room, localNotices, clearBoundary)
      ensures old(CursorsNamed()) ==> CursorsNamed()
      ensures at == |old(entries)| ==> after == fx
      ensures fx.repack ==> after.repack
    {
      hide Replaying, IdsOf, Visible, InsertAt, Admitted;
      PassBy(room, d, fx, rest);
      InsertMembers(IdsOf(entries), at, id);
      after := InsertEntry(room, id, at, fx, rest);
    }

    /** The view shows only what `room` would have it show, flagged and laid out as its counts and marks allow. */
    ghost predicate Coherent(room: Room, all: bool)
      reads this`entries, this`localNotices, this`clearBoundary, this`nextNoticeId, this`texts, this`marksMoved,
            index, index.rows
    {
      && Valid() && Showing(IdsOf(entries), room, localNotices, clearBoundary, all)
      && FlagsOk(entries, room, localNotices, []) && Laid(room) && (!marksMoved ==> Packed(room))
    }

    /** ... and shows all of it, like a rebuild against `room`. */
    ghost predicate Current(room: Room)
      reads this`entries, this`localNotices, this`clearBoundary, this`nextNoticeId, this`texts, this`marksMoved,
            index, index.rows
    {
      Coherent(room, true)
    }

    /** Every line count kept is the one `room` calls for. */
    ghost predicate Faithful(room: Room)
      reads this`entries, this`localNotices, this`texts, index
    {
      index.valid ==> Fresh(texts, IdsOf(entries), room, localNotices)
    }

    /** A view that was coherent at the first moment can catch up with the last. */
    ghost method StartReplay(moments: seq<Room>, deltas: seq<Delta>, all: bool)
      requires Chain(moments, deltas) && Coherent(moments[0], all)
      modifies this`marksMoved
      ensures marksMoved == (old(marksMoved) || Relabelled in deltas)
      ensures Replaying(moments[|deltas|], deltas, Effects(false, false))
    {
      hide CountsOk, FlagsOk, DocOf, LayoutIndex.Holds, LayoutIndex.InSync, IdsOf, Showing, Chain, AnyTouched,
           LocalsAscend, AllResident, Numbered, LayoutIndex.Tiles;
      ChainLength(moments, deltas);
      ShownResident(IdsOf(entries), moments[0], localNotices, clearBoundary, all);
      FlagsStart(entries, moments, deltas, localNotices);
      CountsLength(entries, KeptCounts(), measure, texts);
      if index.valid {
        DocUntouched(entries, index.lineCounts, moments, deltas, localNotices);
        LaidAnyway(index, entries, moments[0], moments[|deltas|], localNotices);
      }
      marksMoved := marksMoved || Relabelled in deltas;
    }

    twostate lemma {:induction false} HoldAtFirst(room: Room)
      requires unchanged(this)
      ensures CursorsHeld([], room)
    {
      hide Batch.Drops;
    }

    /** Applies a batch without a re-lay, delta by delta, each against the end state. */
    method ApplyDeltas(room: Room, deltas: seq<Delta>, ghost moments: seq<Room>, ghost all: bool) returns (fx: Effects)
      requires Chain(moments, deltas) && moments[|deltas|] == room && Relaid !in deltas
      requires Replaying(room, deltas, Effects(false, false)) && |entries| + |deltas| < USIZE_LIMIT
      requires Showing(IdsOf(entries), moments[0], localNotices, clearBoundary, all) && Known(texts, IdsOf(entries))
      modifies this`entries, this`cursor, this`anchor, this`scrollAnchor, this`texts, index, index.rows
      ensures Replaying(room, [], fx)
      ensures Showing(IdsOf(entries), room, localNotices, clearBoundary, all)
      ensures IdsOf(entries) == Replayed(old(IdsOf(entries)), deltas, room, localNotices, clearBoundary)
      ensures Halfway(texts, IdsOf(entries), old(texts), old(IdsOf(entries)), deltas, room, localNotices)
      ensures old(anchor).None? ==> anchor.None?
      ensures old(CursorsNamed()) ==> CursorsNamed() && CursorsHeld(deltas, room)
      ensures Folds(false, deltas, room)
      ensures fx.referencesDirty <==> Dirty(deltas)
      ensures (index.valid ==> old(index.valid)) && (Arrivals(deltas) ==> (index.valid <==> old(index.valid)))
    {
      hide Replaying, Catching, Showing, IdsOf, Step, StepTexts, Evolves, CursorsNamed, Replayed, ReplayedTexts, Known,
           Held, FoldsKept, AllStay, CarriesAll;
      ghost var was, prior := IdsOf(entries), texts;
      FoldsAtFirst(entries, room, localNotices);
      HoldAtFirst(room);
      StartCatching(was, moments[0], room, localNotices, clearBoundary, all);
      fx := Effects(false, false);
      assert deltas[0..] == deltas;
      for i := 0 to |deltas|
        invariant Replaying(room, deltas[i..], fx) && |entries| + |deltas| - i < USIZE_LIMIT
        invariant Catching(IdsOf(entries), moments[i], room, localNotices, clearBoundary, all)
        invariant Replayed(IdsOf(entries), deltas[i..], room, localNotices, clearBoundary)
               == Replayed(was, deltas, room, localNotices, clearBoundary)
        invariant ReplayedTexts(texts, IdsOf(entries), deltas[i..], room, localNotices, clearBoundary)
               == ReplayedTexts(prior, was, deltas, room, localNotices, clearBoundary)
        invariant old(anchor).None? ==> anchor.None?
        invariant old(CursorsNamed()) ==> CursorsNamed() && CursorsHeld(deltas[..i], room)
        invariant FoldsKept(entries, old(entries), deltas[..i], room, localNotices)
        invariant AllStay(IdsOf(entries), was, deltas[..i], room, localNotices)
        invariant fx.referencesDirty <==> exists d :: d in deltas[..i] && AboutMessages(d)
        invariant (index.valid ==> old(index.valid)) && (!fx.repack ==> (index.valid <==> old(index.valid)))
        invariant Arrivals(deltas) ==> !fx.repack
      {
        assert deltas[i..] == [deltas[i]] + deltas[i + 1..] && deltas[i] in deltas;
        assert Linked(moments, deltas, i);
        ReplayedNext(texts, IdsOf(entries), deltas, i, room, localNotices, clearBoundary);
        assert deltas[..i + 1] == deltas[..i] + [deltas[i]];
        ghost var before, c, a, s := entries, cursor, anchor, scrollAnchor;
        fx := ApplyDelta(room, deltas[i], fx, moments[i], moments[i + 1], deltas[i + 1..], all);
        FoldsNext(old(entries), before, entries, deltas[..i], deltas[i], room, localNotices);
        if old(CursorsNamed()) {
          HeldNext(old(cursor), c, cursor, EntryAt(old(cursor)), EntryAt(c), deltas[..i], deltas[i], room,
                   localNotices);
          HeldNext(old(anchor), a, anchor, EntryAt(old(anchor)), EntryAt(a), deltas[..i], deltas[i], room,
                   localNotices);
          HeldNext(old(scrollAnchor), s, scrollAnchor, AnchoredTo(old(scrollAnchor)), AnchoredTo(s), deltas[..i],
                   deltas[i], room, localNotices);
        }
      }
      assert deltas[..|deltas|] == deltas && deltas[|deltas|..] == [];
      CaughtUp(IdsOf(entries), room, localNotices, clearBoundary, all);
      ReplayedNothing(texts, IdsOf(entries), room, localNotices, clearBoundary);
      ReplayedHalfway(prior, was, moments, deltas, room, localNotices, clearBoundary, all);
    }

    // --- The end of a batch -----------------------------------------------------------------

    /** Measures the bodies whose pills read other messages again. */
    method RemeasureReferenceBodies(room: Room, fx: Effects) returns (after: Effects)
      requires Replaying(room, [], fx) && Distinct(entries)
      modifies this`texts, index, index.rows
      ensures Replaying(room, [], after) && index.valid == old(index.valid)
      ensures texts == PillsRead(old(texts), entries, |entries|, room, localNotices)
      ensures after == if index.valid && Referring(entries) then fx.(repack := true) else fx
      ensures !Referring(entries) ==> unchanged(index) && unchanged(index.rows)
    {
      hide CountsOk, FlagsOk, DocOf, TextOf, TextLines, AnyTouched, LayoutIndex.InSync, LayoutIndex.Holds,
           LayoutIndex.Tiles, LocalsAscend, Numbered, PillsRead;
      ghost var prior := texts;
      PillsStart(prior, entries, room, localNotices);
      CountsLength(entries, KeptCounts(), measure, texts);
      if forall i :: 0 <= i < |entries| ==> !entries[i].hasRefs {
        NoPills(prior, entries, |entries|, room, localNotices);
        return fx;
      }
      for i := 0 to |entries|
        invariant index.InSync() && index.valid == old(index.valid)
        invariant CountsOk(entries, KeptCounts(), measure, texts)
        invariant texts == PillsRead(prior, entries, i, room, localNotices)
      {
        PillsNext(prior, entries, i, room, localNotices);
        if entries[i].hasRefs {
          RemeasureEntry(room, i);
        }
      }
      if !index.valid {
        InSyncRows(index);
        index.Invalidate();
        return fx;
      }
      return fx.(repack := true);
    }

    method RemeasureEntry(room: Room, i: nat)
      requires index.InSync() && CountsOk(entries, KeptCounts(), measure, texts) && Distinct(entries) && i < |entries|
      modifies this`texts, index`lineCounts
      ensures index.InSync() && CountsOk(entries, KeptCounts(), measure, texts)
      ensures texts == old(texts)[entries[i].id := TextOf(room, localNotices, entries[i].id)]
    {
      hide CountsOk, TextOf, TextLines;
      ghost var counts := KeptCounts();
      ghost var text := TextOf(room, localNotices, entries[i].id);
      CountsLength(entries, KeptCounts(), measure, texts);
      if index.valid {
        index.lineCounts := index.lineCounts[i := EntryLines(measure, room, localNotices, entries[i].id)];
      }
      CountsReplace(entries, counts, KeptCounts(), measure, texts, i, entries[i], text);
      assert entries[i := entries[i]] == entries;
      texts := texts[entries[i].id := text];
    }

    /** Settles what a batch left open: reference bodies, then one repack from the carried line counts. */
    method Finish(room: Room, fx: Effects)
      requires Replaying(room, [], fx) && Distinct(entries)
      modifies this`texts, this`marksMoved, index, index.rows
      ensures Valid() && FlagsOk(entries, room, localNotices, []) && Laid(room)
      ensures index.valid <==> old(index.valid)
      ensures var repacked := index.valid && (fx.repack || (fx.referencesDirty && Referring(entries)));
              && (marksMoved <==> old(marksMoved) && !repacked)
              && (index.valid && !repacked ==> unchanged(index) && unchanged(index.rows))
      ensures !marksMoved ==> Packed(room)
      ensures texts == if fx.referencesDirty then PillsRead(old(texts), entries, |entries|, room, localNotices)
                       else old(texts)
    {
      hide CountsOk, FlagsOk, DocOf, AnyTouched, PillsRead, LayoutIndex.Holds, LayoutIndex.Tiles, LayoutIndex.InSync,
           LocalsAscend, Numbered, Distinct;
      NothingTouched(IdsOf(entries));
      var after := fx;
      if fx.referencesDirty {
        after := RemeasureReferenceBodies(room, fx);
      }
      if after.repack {
        InSyncRows(index);
        if index.valid {
          CountsLength(entries, KeptCounts(), measure, texts);
          DocMeasured(entries, index.lineCounts, measure, texts, room, localNotices);
          ghost var counts := index.lineCounts;
          index.Install(DocOf(entries, index.lineCounts, room, localNotices));
          HoldsCounts(index, entries, counts, room, localNotices);
          index.HoldsTiles(Doc(room));
          marksMoved := false;
        } else {
          index.Invalidate();
        }
      }
    }

    // --- A rebuild ----------------------------------------------------------------------------

    /** Rebuilds the id sequence from the room, carrying entries, counts and cursors across. */
    method ResyncEntries(room: Room, remeasure: bool)
      requires Valid() && Ordered(room) && Distinct(entries)
      requires |room.messages| + |room.notices| + |localNotices| < USIZE_LIMIT
      modifies this`entries, this`cursor, this`anchor, this`scrollAnchor, this`texts, index, index.rows
      ensures Valid() && Packed(room) && Laid(room) && InStep(IdsOf(entries), room, localNotices, clearBoundary)
      ensures Threaded(IdsOf(entries), room, localNotices)
      ensures Rebuilt(entries, KeptCounts(), old(entries), if remeasure then None else old(KeptCounts()),
                      measure, room, localNotices)
      ensures texts == CarriedTexts(old(texts), old(IdsOf(entries)), IdsOf(entries), room, localNotices)
      ensures index.valid <==> old(index.valid) && !remeasure
      ensures CursorsMoved() && Folds(true, [], room)
      ensures old(CursorsNamed()) ==> CursorsNamed()
    {
      hide DocOf, IdsOf, InStep, Rebuilt, Distinct, CountsOk, LayoutIndex.InSync, LayoutIndex.Holds, LayoutIndex.Tiles,
           Ordered, LocalsAscend, Successor, Numbered, CarriedTexts, Threaded, Inherits, FoldsKept;
      InSyncRows(index);
      var previous := IdsOf(entries);
      var built, counts := PlanResync(room, remeasure);
      var ids := IdsOf(built);
      ReanchoredMoves(scrollAnchor, previous, ids);
      RebuiltFolds(built, counts, entries, if remeasure then None else KeptCounts(), measure, room, localNotices);
      ghost var kept := if remeasure then None else KeptCounts();
      CountsForget(entries, KeptCounts(), kept, measure, texts);
      CountsResync(entries, kept, built, counts, measure, texts, room, localNotices);
      entries := built;
      cursor := Remapped(cursor, previous, ids);
      anchor := Remapped(anchor, previous, ids);
      scrollAnchor := Reanchored(scrollAnchor, previous, ids);
      texts := CarriedTexts(texts, previous, ids, room, localNotices);
      if counts.Some? {
        DocMeasured(built, counts.value, measure, texts, room, localNotices);
        index.Install(DocOf(built, counts.value, room, localNotices));
        HoldsCounts(index, built, counts.value, room, localNotices);
        index.HoldsTiles(Doc(room));
      } else {
        index.Invalidate();
      }
    }

    /** The new list and, unless measurements cannot be trusted, its line counts. */
    method PlanResync(room: Room, remeasure: bool) returns (built: seq<ViewEntry>, counts: Counts)
      requires Valid() && Ordered(room) && Distinct(entries)
      requires |room.messages| + |room.notices| + |localNotices| < USIZE_LIMIT
      ensures InStep(IdsOf(built), room, localNotices, clearBoundary) && Threaded(IdsOf(built), room, localNotices)
      ensures |built| < USIZE_LIMIT
      ensures Rebuilt(built, counts, entries, if remeasure then None else KeptCounts(), measure, room, localNotices)
      ensures counts.Some? <==> index.valid && !remeasure
      ensures counts.Some? ==> |counts.value| == |built|
    {
      hide IdsOf, InStep, Assembled, Rebuilt, Distinct, LayoutIndex.InSync, CountsOk, Ordered, LocalsAscend,
           Display.Ascending, Numbered, Threaded;
      CountsLength(entries, KeptCounts(), measure, texts);
      var kept := if index.valid && !remeasure then Some(index.lineCounts) else None;
      var ids := SequenceIds(room, localNotices, clearBoundary);
      AllResolve(ids, room, localNotices, clearBoundary);
      var lines;
      built, lines := Assemble(entries, kept, ids, room, localNotices);
      LinesAligned(built, lines, entries, kept, room, localNotices);
      var filled := FillCounts(built, lines, measure, room, localNotices);
      AssembledRebuilt(built, lines, filled, entries, kept, measure, room, localNotices);
      counts := if kept.Some? then Some(filled) else None;
    }

    /** A batch with a re-lay: the sequence is rebuilt as it stands now, then only rewritten bodies are read again. */
    method ApplyRelaid(room: Room, deltas: seq<Delta>) returns (fx: Effects)
      requires Valid() && Distinct(entries) && Ordered(room) && Relaid in deltas
      requires |room.messages| + |room.notices| + |localNotices| < USIZE_LIMIT
      modifies this`entries, this`cursor, this`anchor, this`scrollAnchor, this`texts, this`marksMoved, index, index.rows
      ensures Replaying(room, [], fx) && InStep(IdsOf(entries), room, localNotices, clearBoundary) && !marksMoved
      ensures Threaded(IdsOf(entries), room, localNotices)
      ensures Halfway(texts, IdsOf(entries), old(texts), old(IdsOf(entries)), deltas, room, localNotices)
      ensures old(CursorsNamed()) ==> CursorsNamed()
      ensures CursorsMoved() && Folds(true, [], room)
      ensures fx.referencesDirty <==> Dirty(deltas)
      ensures index.valid <==> old(index.valid)
    {
      hide Replaying, InStep, IdsOf, CursorsNamed, Ordered, AboutMessages, CarriedTexts, Reread, TextOf, Valid,
           Threaded, Moved, MovedAnchor, FoldsKept;
      ghost var was, prior := IdsOf(entries), texts;
      KnownTexts(this);
      Relay(room);
      fx := Effects(false, false);
      ghost var ids := IdsOf(entries);
      assert deltas[..0] == [];
      RelaidStart(texts, ids, prior, was, room, localNotices);
      for i := 0 to |deltas|
        invariant Replaying(room, [], fx) && IdsOf(entries) == ids
        invariant InStep(ids, room, localNotices, clearBoundary) && !marksMoved
        invariant Reading(texts, ids, prior, was, deltas[..i], room, localNotices)
        invariant old(CursorsNamed()) ==> CursorsNamed()
        invariant CursorsMoved() && FoldsKept(entries, old(entries), [], room, localNotices)
        invariant fx.referencesDirty <==> exists d :: d in deltas[..i] && AboutMessages(d)
        invariant index.valid <==> old(index.valid)
      {
        var d := deltas[i];
        assert deltas[..i + 1] == deltas[..i] + [d];
        ReadingNext(texts, ids, prior, was, deltas, i, room, localNotices, clearBoundary);
        var marked := fx.(referencesDirty := fx.referencesDirty || AboutMessages(d));
        MarkedReplaying(room, [], fx, marked);
        if d.Replaced? {
          InStepStays(ids, d.id, room, localNotices, clearBoundary);
          ExpectReplaced(room, d, marked);
          ghost var before := entries;
          RereadFolds(before, old(entries), d.id, room, localNotices, clearBoundary);
          fx := ReplaceEntry(room, d, marked, []);
        } else {
          fx := marked;
        }
      }
      assert deltas[..|deltas|] == deltas;
      ReadingDone(texts, ids, prior, was, deltas, room, localNotices);
    }

    /** Waiting for one delta more is no less. */
    lemma {:induction false} ExpectReplaced(room: Room, d: Delta, fx: Effects)
      requires Replaying(room, [], fx)
      ensures Replaying(room, [d] + [], fx)
    {
      hide CountsOk, HasRefs, LayoutIndex.InSync, Laid, Packed, IdsOf;
      NothingTouched(IdsOf(entries));
    }

    /** The rebuild that opens such a batch. */
    method Relay(room: Room)
      requires Valid() && Distinct(entries) && Ordered(room)
      requires |room.messages| + |room.notices| + |localNotices| < USIZE_LIMIT
      modifies this`entries, this`cursor, this`anchor, this`scrollAnchor, this`texts, this`marksMoved, index, index.rows
      ensures Replaying(room, [], Effects(false, false)) && InStep(IdsOf(entries), room, localNotices, clearBoundary)
      ensures Threaded(IdsOf(entries), room, localNotices)
      ensures texts == CarriedTexts(old(texts), old(IdsOf(entries)), IdsOf(entries), room, localNotices)
      ensures !marksMoved && (index.valid <==> old(index.valid))
      ensures CursorsMoved() && Folds(true, [], room)
      ensures old(CursorsNamed()) ==> CursorsNamed()
    {
      hide InStep, IdsOf, Ordered, Rebuilt, CountsOk, FlagsOk, LayoutIndex.InSync, Laid, Packed, Distinct, AnyTouched,
           LocalsAscend, Remapped, Numbered, CarriedTexts, CursorsNamed, Threaded, Moved, MovedAnchor, FoldsKept;
      ghost var was, counts := entries, KeptCounts();
      ResyncEntries(room, false);
      FlagsResync(entries, KeptCounts(), was, counts, measure, room, localNotices);
      marksMoved := false;
    }

    // --- Reconciling ----------------------------------------------------------------------------

    /** Whether the reader is pinned to the newest entry. */
    function FollowState(): Follow
      reads this
    {
      Follow(scrollOffset == 0,
             entries == [] || (cursor.Some? && cursor.value.entry == entries[|entries| - 1].id))
    }

    /** Seeds and re-pins the cursor after entries moved under it. */
    method SettleCursor(follow: Follow)
      modifies this`cursor, this`anchor
      ensures cursor.None? ==> entries == []
      ensures Settled(old(cursor), old(anchor), cursor, anchor, follow.following && follow.cursorAtTail, IdsOf(entries))
      ensures old(CursorsNamed()) ==> CursorsNamed()
    {
      hide IdsOf;
      assert entries != [] ==> IdsOf(entries)[|entries| - 1] in IdsOf(entries);
      if cursor.None? && entries != [] {
        cursor := Some(ViewCursor(entries[|entries| - 1].id, 0));
        anchor := None;
      }
      if follow.following && follow.cursorAtTail && anchor.None? {
        cursor := if entries == [] then None else Some(ViewCursor(entries[|entries| - 1].id, U32_MAX));
      }
    }

    /** Brings the list to the room's end state, re-laid if the batch asks for it and delta by delta otherwise. */
    method ApplyBatch(room: Room, deltas: seq<Delta>, ghost moments: seq<Room>, ghost all: bool) returns (fx: Effects)
      requires Chain(moments, deltas) && moments[|deltas|] == room && Coherent(moments[0], all) && Ordered(room)
      requires |room.messages| + |room.notices| + |localNotices| < USIZE_LIMIT && |entries| + |deltas| < USIZE_LIMIT
      modifies this`entries, this`cursor, this`anchor, this`scrollAnchor, this`texts, this`marksMoved, index, index.rows
      ensures Replaying(room, [], fx) && Distinct(entries) && (fx.referencesDirty <==> Dirty(deltas))
      ensures Showing(IdsOf(entries), room, localNotices, clearBoundary, all || Relaid in deltas)
      ensures marksMoved ==> (old(marksMoved) || Relabelled in deltas) && Relaid !in deltas
      ensures Halfway(texts, IdsOf(entries), old(texts), old(IdsOf(entries)), deltas, room, localNotices)
      ensures if Relaid in deltas then Threaded(IdsOf(entries), room, localNotices)
              else IdsOf(entries) == Replayed(old(IdsOf(entries)), deltas, room, localNotices, clearBoundary)
      ensures old(CursorsNamed()) ==> CursorsNamed()
      ensures if Relaid in deltas then CursorsMoved()
              else (old(anchor).None? ==> anchor.None?) && (old(CursorsNamed()) ==> CursorsHeld(deltas, room))
      ensures Folds(Relaid in deltas, deltas, room)
      ensures index.valid ==> old(index.valid)
      ensures Relaid in deltas || Arrivals(deltas) ==> (index.valid <==> old(index.valid))
    {
      hide Chain, Moved, MovedAnchor, Held, FoldsKept, Replaying, Showing, InStep, IdsOf, Ordered, FlagsOk, Valid,
           Packed, Laid, Distinct, Halfway, Known, Dirty, CursorsNamed, Threaded, Replayed, Arrivals;
      ChainLength(moments, deltas);
      CoherentParts(this, moments[0], all);
      if Relaid in deltas {
        fx := ApplyRelaid(room, deltas);
        ShowingAll(IdsOf(entries), room, localNotices, clearBoundary);
      } else {
        StartReplay(moments, deltas, all);
        fx := ApplyDeltas(room, deltas, moments, all);
      }
      ShowingDistinct(entries, room, localNotices, clearBoundary, all || Relaid in deltas);
    }

    /**
     * Replays the changes since the view was coherent. Whatever the batch, the view ends coherent, and showing all of
     * the room if it did before or the batch re-laid it. Each text is read from the room or carried over, as `Passed`
     * says, and without a re-lay counts that were right stay right.
     */
    method Replay(room: Room, deltas: seq<Delta>, follow: Follow, ghost moments: seq<Room>, ghost all: bool)
      requires Chain(moments, deltas) && moments[|deltas|] == room && Coherent(moments[0], all) && Ordered(room)
      requires |room.messages| + |room.notices| + |localNotices| < USIZE_LIMIT && |entries| + |deltas| < USIZE_LIMIT
      modifies this`entries, this`cursor, this`anchor, this`scrollAnchor, this`texts, this`marksMoved, index, index.rows
      ensures Coherent(room, all || Relaid in deltas)
      ensures marksMoved ==> (old(marksMoved) || Relabelled in deltas) && Relaid !in deltas
      ensures Passed(texts, IdsOf(entries), old(texts), old(IdsOf(entries)), deltas, room, localNotices)
      ensures Relaid !in deltas && old(Faithful(moments[0])) ==> Faithful(room)
      ensures if Relaid in deltas then Threaded(IdsOf(entries), room, localNotices)
              else IdsOf(entries) == Replayed(old(IdsOf(entries)), deltas, room, localNotices, clearBoundary)
      ensures old(CursorsNamed()) ==> CursorsNamed()
      ensures cursor.None? ==> entries == []
      ensures Landed(old(cursor), old(anchor), cursor, anchor, follow.following && follow.cursorAtTail,
                     Relaid in deltas, deltas, old(IdsOf(entries)), IdsOf(entries), old(CursorsNamed()), room,
                     localNotices)
      ensures Folds(Relaid in deltas, deltas, room)
      ensures index.valid ==> old(index.valid)
      ensures Relaid in deltas || Arrivals(deltas) ==> (index.valid <==> old(index.valid))
    {
      hide Chain, Landed, Settled, Moved, MovedAnchor, Held, FoldsKept, Replaying, Showing, IdsOf, Ordered, FlagsOk,
           Valid, Packed, Laid, Distinct, Halfway, Passed, Known, Fresh, PillsRead, Dirty, CursorsNamed, Threaded,
           Replayed, Arrivals;
      ChainLength(moments, deltas);
      CoherentParts(this, moments[0], all);
      ghost var was, prior := IdsOf(entries), texts;
      var fx := ApplyBatch(room, deltas, moments, all);
      ghost var mid, c, a := texts, cursor, anchor;
      SettleCursor(follow);
      Landing(old(cursor), old(anchor), c, a, cursor, anchor, follow.following && follow.cursorAtTail, Relaid in deltas,
              deltas, was, IdsOf(entries), old(CursorsNamed()), room, localNotices);
      Finish(room, fx);
      HalfwayPasses(mid, texts, entries, prior, was, deltas, room, localNotices);
      if Relaid !in deltas && Fresh(prior, was, moments[0], localNotices) {
        ReplayUnmoved(IdsOf(entries), was, moments, deltas, localNotices);
        FreshIff(texts, IdsOf(entries), prior, was, deltas, moments[0], localNotices, room, localNotices);
      }
    }

    /** Discards every derived id and rebuilds, measuring nothing: the next draw does. */
    method Rebuild(room: Room, generation: nat, follow: Follow)
      requires Valid() && Ordered(room) && Distinct(entries)
      requires |room.messages| + |room.notices| + |localNotices| < USIZE_LIMIT
      modifies this, index, index.rows
      ensures Current(room) && Threaded(IdsOf(entries), room, localNotices) && !index.valid && !marksMoved
      ensures nextNoticeId == old(nextNoticeId) && maxLocalNotices == old(maxLocalNotices)
      ensures old(CursorsNamed()) ==> CursorsNamed()
      ensures observedGeneration == old(observedGeneration) && |localNotices| <= |old(localNotices)|
      ensures observedGeneration != Some(generation) ==> clearBoundary == None && cursor == None && scrollOffset == 0
      ensures observedGeneration == Some(generation) ==>
                && localNotices == old(localNotices) && clearBoundary == old(clearBoundary)
                && scrollOffset == old(scrollOffset)
      ensures observedGeneration == Some(generation) ==>
                && Landed(old(cursor), old(anchor), cursor, anchor, follow.following && follow.cursorAtTail, true, [],
                          old(IdsOf(entries)), IdsOf(entries), old(CursorsNamed()), room, localNotices)
                && Folds(true, [], room)
    {
      hide InStep, Showing, IdsOf, Ordered, Rebuilt, CountsOk, FlagsOk, LayoutIndex.InSync, Distinct, Laid, Packed,
           LocalsAscend, Numbered, Successor, CarriedTexts, Threaded, Landed, Settled, Inherits,
           MovedAnchor, FoldsKept, CursorsNamed;
      var changed := observedGeneration != Some(generation);
      if changed {
        StartOver();
      }
      ghost var was := entries;
      ResyncEntries(room, true);
      marksMoved := false;
      FlagsResync(entries, KeptCounts(), was, None, measure, room, localNotices);
      ShowingAll(IdsOf(entries), room, localNotices, clearBoundary);
      if !changed {
        ghost var c, a := cursor, anchor;
        SettleCursor(follow);
        Landing(old(cursor), old(anchor), c, a, cursor, anchor, follow.following && follow.cursorAtTail, true, [],
                IdsOf(was), IdsOf(entries), old(CursorsNamed()), room, localNotices);
      }
    }

    /** Ids mean nothing outside their generation, so nothing derived from the outgoing one stays. */
    method StartOver()
      requires Valid() && Distinct(entries)
      modifies this, index, index.rows
      ensures Valid() && Distinct(entries) && CursorsNamed()
      ensures clearBoundary == None && cursor == None && anchor == None && scrollAnchor == None && scrollOffset == 0
      ensures localNotices == (if observedGeneration.Some? then [] else old(localNotices))
      ensures nextNoticeId == old(nextNoticeId) && maxLocalNotices == old(maxLocalNotices)
      ensures observedGeneration == old(observedGeneration)
    {
      if observedGeneration.Some? {
        index.Invalidate();
        entries, localNotices := [], [];
      }
      clearBoundary, scrollOffset, cursor, anchor, scrollAnchor := None, 0, None, None, None;
    }

    method DropLocals(excess: nat)
      requires Valid() && excess <= |localNotices|
      modifies this`localNotices
      ensures Valid() && localNotices == old(localNotices)[excess..]
      ensures (old(CursorsNamed()) ==> CursorsNamed())
    {
      hide LayoutIndex.InSync, CountsOk, LocalsAscend, Numbered, IdsOf;
      TrimmedValid(localNotices, clearBoundary, nextNoticeId, excess);
      localNotices := localNotices[excess..];
    }

    /** This view's own notices over the cap go, and with them ids the journal never mentioned: the list is re-laid. */
    method ReconcileTrimmed(room: Room, excess: nat, follow: Follow)
      requires Valid() && Distinct(entries) && Ordered(room) && excess <= |localNotices|
      requires |room.messages| + |room.notices| + |localNotices| < USIZE_LIMIT
      modifies this`entries, this`cursor, this`anchor, this`scrollAnchor, this`localNotices, this`texts,
               this`marksMoved, index, index.rows
      ensures Current(room) && localNotices == old(localNotices)[excess..] && !marksMoved
      ensures Threaded(IdsOf(entries), room, localNotices)
      ensures Passed(texts, IdsOf(entries), old(texts), old(IdsOf(entries)), [], room, localNotices)
      ensures old(CursorsNamed()) ==> CursorsNamed()
      ensures Landed(old(cursor), old(anchor), cursor, anchor, follow.following && follow.cursorAtTail, true, [],
                     old(IdsOf(entries)), IdsOf(entries), old(CursorsNamed()), room, localNotices)
      ensures Folds(true, [], room)
      ensures index.valid <==> old(index.valid)
    {
      hide InStep, Showing, IdsOf, Ordered, FlagsOk, Valid, Laid, Packed, Replaying, Distinct, CarriedTexts,
           CursorsNamed, Passed, Halfway, Known, Threaded, Landed, Settled, Moved, MovedAnchor, FoldsKept;
      KnownTexts(this);
      ghost var was, prior := IdsOf(entries), texts;
      DropLocals(excess);
      Relay(room);
      CarriedHalfway(prior, was, IdsOf(entries), room, localNotices);
      ShowingAll(IdsOf(entries), room, localNotices, clearBoundary);
      ShowingDistinct(entries, room, localNotices, clearBoundary, true);
      ghost var mid, c, a := texts, cursor, anchor;
      SettleCursor(follow);
      Landing(old(cursor), old(anchor), c, a, cursor, anchor, follow.following && follow.cursorAtTail, true, [], was,
              IdsOf(entries), old(CursorsNamed()), room, localNotices);
      Finish(room, Effects(false, false));
      HalfwayPasses(mid, texts, entries, prior, was, [], room, localNotices);
    }

    /** What the view last saw of a room it still follows. */
    ghost predicate Following(history: RoomHistory, generation: nat)
      reads this, index, index.rows, history
    {
      observedGeneration == Some(generation) ==>
        observedRevision < |history.past| && Coherent(history.past[observedRevision], false)
    }

    /** ... and it showed all of it. */
    ghost predicate Abreast(history: RoomHistory, generation: nat)
      reads this, index, index.rows, history
    {
      observedGeneration == Some(generation) ==>
        observedRevision < |history.past| && Current(history.past[observedRevision])
    }

    /** Replays what the journal still has of the changes since, or rebuilds. */
    method CatchUp(history: RoomHistory, room: Room, generation: nat, follow: Follow) returns (ghost how: Pass)
      requires history.Valid() && room == history.Now() && observedGeneration == Some(generation)
      requires observedRevision < |history.past| && Coherent(history.past[observedRevision], false)
      requires Valid() && Distinct(entries)
      requires |room.messages| + |room.notices| + |localNotices| < USIZE_LIMIT && |entries| + JOURNAL_CAP < USIZE_LIMIT
      modifies this, index, index.rows
      ensures Coherent(room, false) && (how.Caught? || how.Discarded?)
      ensures old(Current(history.past[observedRevision])) ==> Current(room)
      ensures how.Caught? && Relaid in how.deltas ==> Current(room)
      ensures how.Caught? ==>
                && how.deltas == history.told[old(observedRevision)..]
                && Chain(history.past[old(observedRevision)..], how.deltas)
                && Passed(texts, IdsOf(entries), old(texts), old(IdsOf(entries)), how.deltas, room, localNotices)
                && (Relaid !in how.deltas && old(Faithful(history.past[observedRevision])) ==> Faithful(room))
                && (if Relaid in how.deltas then Threaded(IdsOf(entries), room, localNotices)
                    else IdsOf(entries) ==
                         Replayed(old(IdsOf(entries)), how.deltas, room, localNotices, clearBoundary))
      ensures how.Discarded? ==> Current(room) && Threaded(IdsOf(entries), room, localNotices) && !index.valid
      ensures how.Discarded? <==> history.revision - old(observedRevision) > 256
      ensures old(CursorsNamed()) ==> CursorsNamed()
      ensures observedGeneration == old(observedGeneration) && localNotices == old(localNotices)
      ensures clearBoundary == old(clearBoundary) && scrollOffset == old(scrollOffset)
      ensures maxLocalNotices == old(maxLocalNotices)
      ensures Landed(old(cursor), old(anchor), cursor, anchor, follow.following && follow.cursorAtTail, Relays(how),
                     DeltasOf(how), old(IdsOf(entries)), IdsOf(entries), old(CursorsNamed()), room, localNotices)
      ensures Folds(Relays(how), DeltasOf(how), room)
      ensures how.Caught? && (Relaid in how.deltas || Arrivals(how.deltas)) ==> (index.valid <==> old(index.valid))
    {
      hide Showing, InStep, IdsOf, Ordered, FlagsOk, Laid, Packed, Distinct, Chain, Passed, KeysAscend, IdsAscend,
           Valid, Fresh, CursorsNamed, Threaded, Replayed, Landed, FoldsKept;
      var deltas := history.DeltasSince(observedRevision);
      if deltas.Some? {
        ghost var all := Current(history.past[observedRevision]);
        ChainLength(history.past[observedRevision..], deltas.value);
        Replay(room, deltas.value, follow, history.past[observedRevision..], all);
        CoherentAtLeast(this, room, all || Relaid in deltas.value);
        how := Caught(deltas.value);
      } else {
        Rebuild(room, generation, follow);
        CoherentAtLeast(this, room, true);
        how := Discarded;
      }
    }

    /**
     * Brings the view up to date with the room: by replay while the journal reaches back, otherwise by a rebuild. It
     * then shows only what it should; all of it if it did before, or if anything re-laid or rebuilt the list.
     */
    method Reconcile(history: RoomHistory, generation: nat, maxMessages: nat) returns (ghost how: Pass)
      requires history.Valid() && Valid() && Distinct(entries) && Following(history, generation)
      requires |history.messages| + |history.notices| + |localNotices| < USIZE_LIMIT
      requires |entries| + JOURNAL_CAP < USIZE_LIMIT
      modifies this, index, index.rows
      ensures Following(history, generation) && Coherent(history.Now(), false)
      ensures old(Abreast(history, generation)) ==> Current(history.Now())
      ensures how.Trimmed? || how.Discarded? || (how.Caught? && Relaid in how.deltas) ==>
                Current(history.Now()) && Threaded(IdsOf(entries), history.Now(), localNotices)
      ensures how.Caught? && Relaid !in how.deltas ==>
                IdsOf(entries) ==
                Replayed(old(IdsOf(entries)), how.deltas, history.Now(), localNotices, clearBoundary)
      ensures how.Trimmed? <==>
                old(observedGeneration) == Some(generation) && |old(localNotices)| > Max(maxMessages, 1)
      ensures how.Idle? <==>
                && old(observedGeneration) == Some(generation) && |old(localNotices)| <= Max(maxMessages, 1)
                && old(observedRevision) == history.revision
      ensures how.Idle? ==> entries == old(entries) && texts == old(texts)
      ensures how.Caught? ==>
                && old(observedRevision) < |history.past| && how.deltas == history.told[old(observedRevision)..]
                && Chain(history.past[old(observedRevision)..], how.deltas)
                && Passed(texts, IdsOf(entries), old(texts), old(IdsOf(entries)), how.deltas, history.Now(),
                          localNotices)
                && (Relaid !in how.deltas && old(Faithful(history.past[observedRevision])) ==> Faithful(history.Now()))
      ensures how.Trimmed? ==>
                Passed(texts, IdsOf(entries), old(texts), old(IdsOf(entries)), [], history.Now(), localNotices)
      ensures how.Discarded? ==> !index.valid
      ensures how.Discarded? <==>
                old(observedGeneration) != Some(generation)
                || (!how.Trimmed? && history.revision - old(observedRevision) > 256)
      ensures observedGeneration == Some(generation) && observedRevision == history.revision
      ensures old(CursorsNamed()) ==> CursorsNamed()
      ensures old(observedGeneration) == Some(generation) && !how.Idle? ==>
                && Landed(old(cursor), old(anchor), cursor, anchor, old(AtTail()), Relays(how), DeltasOf(how),
                          old(IdsOf(entries)), IdsOf(entries), old(CursorsNamed()), history.Now(), localNotices)
                && Folds(Relays(how), DeltasOf(how), history.Now())
      ensures how.Idle? ==> cursor == old(cursor) && anchor == old(anchor) && scrollAnchor == old(scrollAnchor)
      ensures old(observedGeneration) != Some(generation) ==> cursor == None && scrollOffset == 0
      ensures old(observedGeneration) == Some(generation) ==>
                && localNotices == old(localNotices)[SatSub(|old(localNotices)|, Max(maxMessages, 1))..]
                && clearBoundary == old(clearBoundary) && scrollOffset == old(scrollOffset)
      ensures how.Idle? || how.Trimmed? || (how.Caught? && (Relaid in how.deltas || Arrivals(how.deltas))) ==>
                (index.valid <==> old(index.valid))
      ensures maxLocalNotices == Max(maxMessages, 1) && |localNotices| <= maxLocalNotices
    {
      hide Showing, InStep, IdsOf, Ordered, FlagsOk, Laid, Packed, Distinct, Chain, Passed, KeysAscend, IdsAscend,
           Valid, Fresh, CursorsNamed, Threaded, Replayed, Landed, FoldsKept, Arrivals, Coherent, Faithful,
           RoomHistory.Valid;
      Recorded(history);
      maxLocalNotices := Max(maxMessages, 1);
      var excess := SatSub(|localNotices|, maxLocalNotices);
      var follow := FollowState();
      var room := Room(history.messages, history.notices);
      how := Idle;
      if observedGeneration != Some(generation) {
        DropLocals(excess);
        Rebuild(room, generation, follow);
        how := Discarded;
      } else if excess > 0 {
        ReconcileTrimmed(room, excess, follow);
        how := Trimmed;
      } else if observedRevision != history.revision {
        how := CatchUp(history, room, generation, follow);
      }
      CoherentAtLeast(this, room, true);
      observedGeneration, observedRevision := Some(generation), history.revision;
    }

    /** Whatever the room does next, the view can still catch up. */
    twostate lemma {:induction false} StillFollowing(history: RoomHistory, generation: nat)
      requires old(Following(history, generation)) && old(history.past) <= history.past
      requires unchanged(this) && unchanged(index) && unchanged(index.rows)
      ensures Following(history, generation)
    {
      hide Coherent;
    }

    /** The next draw measures and packs whatever has no layout. */
    method EnsureLayoutIndex(room: Room, ghost all: bool)
      requires Coherent(room, all)
      modifies this`texts, this`marksMoved, index, index.rows
      ensures Coherent(room, all) && index.valid
      ensures !old(index.valid) ==> Faithful(room) && Packed(room) && !marksMoved
      ensures old(index.valid) ==>
                texts == old(texts) && marksMoved == old(marksMoved) && KeptCounts() == old(KeptCounts())
    {
      hide Showing, IdsOf, FlagsOk, DocOf, CountsOk, LayoutIndex.InSync, LayoutIndex.Holds, LayoutIndex.Tiles,
           LocalsAscend, Numbered, Fresh, CarriedTexts;
      if index.valid {
        return;
      }
      var counts := MeasureAll(room);
      texts := CarriedTexts(map[], [], IdsOf(entries), room, localNotices);
      CarriedFresh(entries, room, localNotices);
      DocMeasured(entries, counts, measure, texts, room, localNotices);
      InSyncRows(index);
      index.Install(DocOf(entries, counts, room, localNotices));
      HoldsCounts(index, entries, counts, room, localNotices);
      index.HoldsTiles(Doc(room));
      marksMoved := false;
    }

    method MeasureAll(room: Room) returns (counts: seq<nat>)
      ensures CountsOk(entries, Some(counts), measure, CarriedTexts(map[], [], IdsOf(entries), room, localNotices))
    {
      hide IdsOf, TextOf, TextLines;
      counts := [];
      for i := 0 to |entries|
        invariant |counts| == i
        invariant forall k :: 0 <= k < i ==>
                    counts[k] == TextLines(measure, TextOf(room, localNotices, entries[k].id))
      {
        counts := counts + [EntryLines(measure, room, localNotices, entries[i].id)];
      }
      ghost var ids := IdsOf(entries);
      assert forall i :: 0 <= i < |entries| ==> ids[i] in ids;
    }

    // --- The view's own notices, clearing, scrolling ---------------------------------------------

    /** One notice of the view's own at the end; the oldest goes when there are too many. */
    method PushNotice(body: Body, mark: Label, ghost room: Room, ghost all: bool) returns (id: nat)
      requires Coherent(room, all) && |entries| + 1 < USIZE_LIMIT && maxLocalNotices > 0
      modifies this`entries, this`localNotices, this`nextNoticeId, this`texts, index, index.rows
      ensures Coherent(room, all) && !index.valid && id == old(nextNoticeId) && nextNoticeId == id + 1
      ensures var trim := |old(localNotices)| >= maxLocalNotices;
              var notice := LocalNotice(id, LastMessage(old(IdsOf(entries))), body, mark);
              && localNotices == Pushed(old(localNotices), notice, trim)
              && IdsOf(entries) == Shown(old(IdsOf(entries)), old(localNotices), notice, trim)
              && entries != [] && entries[|entries| - 1] == ViewEntry(Local(id), true, body.hasRefs)
              && (forall i :: 0 <= i < |entries| - 1 ==> entries[i] in old(entries))
              && (old(CursorsNamed()) ==> (CursorsNamed() <==> !(trim && Names(Local(old(localNotices)[0].id)))))
    {
      hide Showing, IdsOf, CountsOk, FlagsOk, LayoutIndex.Holds, LayoutIndex.Tiles, DocOf, Display.Ascending, Without,
           Others, LocalsAscend, Numbered, Distinct, LastMessage, Visible;
      var trim := |localNotices| >= maxLocalNotices;
      id := nextNoticeId;
      var notice := LocalNotice(id, LastMessage(IdsOf(entries)), body, mark);
      PushedNumbered(localNotices, clearBoundary, notice, trim);
      PushedShowing(IdsOf(entries), room, localNotices, clearBoundary, notice, trim, all);
      ShowingDistinct(entries, room, localNotices, clearBoundary, all);
      var kept := entries;
      if trim {
        OthersLeave(entries, Local(localNotices[0].id));
        kept := Others(entries, Local(localNotices[0].id));
      }
      ShownMembers(IdsOf(entries), localNotices, clearBoundary, notice, trim);
      ShowingSome(IdsOf(entries), room, localNotices, clearBoundary, all);
      PushedFlags(entries, kept, room, localNotices, clearBoundary, notice, trim);
      PushedTexts(entries, kept, KeptCounts(), measure, texts, notice, Blank);
      IdsPush(kept, NoticeEntry(notice));
      InSyncRows(index);
      nextNoticeId := nextNoticeId + 1;
      localNotices := Pushed(localNotices, notice, trim);
      entries := kept + [NoticeEntry(notice)];
      texts := texts[Local(id) := Blank];
      index.Invalidate();
    }

    predicate Names(id: EntryId)
      reads this`cursor, this`anchor, this`scrollAnchor
    {
      || (cursor.Some? && cursor.value.entry == id)
      || (anchor.Some? && anchor.value.entry == id)
      || (scrollAnchor.Some? && scrollAnchor.value.entry == id)
    }

    /**
     * Hides everything shown and starts with an empty screen. What then should be shown but is not is what an earlier
     * clear alone had hidden: nothing exactly when, of messages and of shared notices alike, one was on screen or none
     * is visible at all.
     */
    method ClearScrollback(ghost room: Room)
      requires Coherent(room, false)
      modifies this, index, index.rows
      ensures Coherent(room, false) && CursorsNamed()
      ensures entries == [] && localNotices == [] && cursor == None && scrollOffset == 0
      ensures clearBoundary == ClearedTo(old(IdsOf(entries)))
      ensures old(Current(room)) ==>
                (Current(room) <==>
                 Covered(old(IdsOf(entries)), room, Messages) && Covered(old(IdsOf(entries)), room, Notices))
      ensures observedGeneration == old(observedGeneration) && observedRevision == old(observedRevision)
    {
      hide Showing, InStep, IdsOf, Covered, LayoutIndex.InSync, Numbered, BoundaryOf, Coherent, Valid, CursorsNamed;
      var shown := IdsOf(entries);
      CoherentShows(this, room);
      if InStep(shown, room, localNotices, clearBoundary) {
        ClearIsComplete(shown, room, localNotices, clearBoundary);
      }
      ClearedNumbered(entries, room, localNotices, clearBoundary, nextNoticeId);
      InSyncRows(index);
      var boundary := ObserveAll(shown);
      clearBoundary := if entries == [] then None else Some(boundary);
      localNotices, entries, scrollOffset := [], [], 0;
      scrollAnchor, cursor, anchor := None, None, None;
      index.Invalidate();
      EmptyView(this, room);
    }

    /** Scrolls the least that brings the cursor's row into the safe band. */
    method KeepCursorVisible(room: Room, pos: Steps.Pos, height: nat, buffer: nat) returns (done: bool)
      requires index.valid && Valid() && Laid(room)
      modifies this`scrollOffset, this`scrollAnchor
      ensures done <==> height > 0 && pos.message < |entries|
      ensures !done ==> scrollOffset == old(scrollOffset) && scrollAnchor == old(scrollAnchor)
      ensures done ==>
                var ix := index.Snapshot(Doc(room));
                var row, total := Steps.RowOfPos(ix, Clamped(Doc(room), pos)), |S.RowsOf(ix)|;
                && row < total
                && scrollOffset == KeepVisible(old(scrollOffset), row, total, height, buffer)
                && Safe(TopRow(scrollOffset, total, height), row, total, height, buffer)
                && scrollAnchor == if scrollOffset == Min(old(scrollOffset), SatSub(total, height))
                                   then old(scrollAnchor) else None
    {
      hide LayoutIndex.Tiles, LayoutIndex.InSync, S.RowsOf, DocOf, Steps.RowOfPos, Steps.Visible, VisibleBodyLines,
           KeepVisible, Safe, TopRow, CountsOk, LocalsAscend, Numbered;
      var doc := DocOf(entries, index.lineCounts, room, localNotices);
      if height == 0 {
        return false;
      }
      var found := index.PosRowAndTotal(doc, pos);
      if found.None? {
        return false;
      }
      var (row, total) := found.value;
      Steps.RowBelowTotal(index.Snapshot(doc), Clamped(doc, pos));
      ScrollToRow(row, total, height, buffer);
      return true;
    }

    /** The arithmetic of it, on a row and a row count. */
    method ScrollToRow(row: nat, total: nat, height: nat, buffer: nat)
      requires row < total && height > 0
      modifies this`scrollOffset, this`scrollAnchor
      ensures scrollOffset == KeepVisible(old(scrollOffset), row, total, height, buffer)
      ensures Safe(TopRow(scrollOffset, total, height), row, total, height, buffer)
      ensures scrollAnchor == if scrollOffset == Min(old(scrollOffset), SatSub(total, height)) then old(scrollAnchor)
                              else None
    {
      hide Safe, Distance;
      KeepVisibleIsMinimal(scrollOffset, row, total, height, buffer, 0);
      var maxScroll := SatSub(total, height);
      scrollOffset := Min(scrollOffset, maxScroll);
      var top := SatSub(total, scrollOffset + height);
      var bottom := top + height;
      var before := Min(buffer, height / 2);
      var after := Min(buffer, SatSub(height, 1) / 2);
      var previous := scrollOffset;
      if row < top + before {
        var desiredTop := Min(SatSub(row, before), maxScroll);
        scrollOffset := Min(SatSub(total, desiredTop + height), maxScroll);
      } else if row >= SatSub(bottom, after) {
        var desiredBottom := Min(row + after + 1, total);
        var desiredTop := Min(SatSub(desiredBottom, height), maxScroll);
        scrollOffset := Min(SatSub(total, desiredTop + height), maxScroll);
      }
      if scrollOffset != previous {
        scrollAnchor := None;
      }
    }

    /** Cursor, visual anchor and scroll anchor each name a shown entry, or are unset. */
    ghost predicate CursorsNamed()
      reads this`entries, this`cursor, this`anchor, this`scrollAnchor
    {
      var ids := IdsOf(entries);
      && (cursor.Some? ==> cursor.value.entry in ids)
      && (anchor.Some? ==> anchor.value.entry in ids)
      && (scrollAnchor.Some? ==> scrollAnchor.value.entry in ids)
    }
  }

  /** The smallest case in which a cursor is lost: the only notice there is room for, trimmed from under it. */
  method TrimUnderCursor(measure: Measure, body: Body, mark: Label) returns (view: ChatViewport)
    ensures fresh(view) && view.Coherent(Room([], []), true)
    ensures view.cursor == Some(ViewCursor(Local(1), 0)) && !view.CursorsNamed()
  {
    hide ChatViewport.Coherent, Showing, LastMessage, IdsOf;
    view := new ChatViewport(measure);
    assert IdsOf([]) == [];
    EmptyRoom(view);
    view.maxLocalNotices := 1;
    var first := view.PushNotice(body, mark, Room([], []), true);
    view.cursor := Some(ViewCursor(Local(first), 0));
    assert IdsOf(view.entries) == [] + [Local(first)];
    var _ := view.PushNotice(body, mark, Room([], []), true);
  }

  lemma {:induction false} EmptyRoom(view: ChatViewport)
    requires view.Valid() && view.entries == [] && view.localNotices == [] && !view.index.valid
    requires view.clearBoundary == None
    ensures view.Coherent(Room([], []), true)
  {
  }

  function Swap<T>(s: seq<T>, i: nat, j: nat): (t: seq<T>)
    requires i < j < |s|
    ensures |t| == |s|
  {
    s[i := s[j]][j := s[i]]
  }

  /** Bringing element `i` to the end of the kept ones, by a swap or by leaving it, touches nothing after it. */
  lemma {:induction false} SwapKeeps<T>(was: seq<T>, now: seq<T>, kept: nat, i: nat)
    requires kept <= i < |now| == |was| && now[i..] == was[i..]
    ensures now[i] == was[i] && now[i + 1..] == was[i + 1..]
    ensures var after := if kept == i then now else Swap(now, kept, i);
            after[..kept + 1] == now[..kept] + [was[i]] && after[i + 1..] == was[i + 1..]
  {
    assert now[i] == now[i..][0] && was[i] == was[i..][0];
    assert now[i + 1..] == now[i..][1..] && was[i + 1..] == was[i..][1..];
  }

  lemma {:induction false} KeepNothing(w: nat)
    ensures KeepEntries([], w) == [] && KeepCounts([], [], w) == []
  {
  }

  lemma {:induction false} KeepNext(entries: seq<ViewEntry>, w: nat, i: nat)
    requires i < |entries|
    ensures KeepEntries(entries[..i + 1], w) ==
            KeepEntries(entries[..i], w) + if Evicted(entries[i].id, w) then [] else [entries[i]]
  {
    assert entries[..i + 1][..i] == entries[..i];
  }

  lemma {:induction false} KeepNextCount(entries: seq<ViewEntry>, counts: seq<nat>, w: nat, i: nat)
    requires i < |entries| == |counts|
    ensures KeepCounts(entries[..i + 1], counts[..i + 1], w) ==
            KeepCounts(entries[..i], counts[..i], w) + if Evicted(entries[i].id, w) then [] else [counts[i]]
  {
    assert entries[..i + 1][..i] == entries[..i] && counts[..i + 1][..i] == counts[..i];
  }

  lemma {:induction false} KeepAllCounts(entries: seq<ViewEntry>, counts: seq<nat>, w: nat)
    requires |counts| == |entries|
    ensures |KeepEntries(entries, w)| == |entries| ==> KeepCounts(entries, counts, w) == counts
  {
    if entries != [] {
      var n := |entries| - 1;
      assert counts == counts[..n] + [counts[n]] && entries[..n + 1] == entries && counts[..n + 1] == counts;
      KeepNext(entries, w, n);
      KeepNextCount(entries, counts, w, n);
      hide KeepEntries, KeepCounts, Evicted;
      KeepAll(entries[..n], w);
      KeepAllCounts(entries[..n], counts[..n], w);
    }
  }

  lemma {:induction false} KeepAll(entries: seq<ViewEntry>, w: nat)
    ensures |KeepEntries(entries, w)| <= |entries|
    ensures |KeepEntries(entries, w)| == |entries| ==>
              KeepEntries(entries, w) == entries
              && forall i :: 0 <= i < |entries| ==> !Touches(EvictedThrough(w), entries[i].id)
  {
    if entries != [] {
      KeepAll(entries[..|entries| - 1], w);
    }
  }

  lemma {:induction false} OnlyTouches(ids: seq<EntryId>, d: Delta, id: EntryId)
    requires Display.Ascending(ids)
    requires (d.Replaced? && id == Msg(d.id)) || (d.Tombstoned? && id == Msg(d.id))
             || (d.NoticeRemoved? && id == Shared(d.key))
    ensures forall j :: 0 <= j < |ids| && Touches(d, ids[j]) ==> j == IndexOf(ids, id)
  {
    hide IndexOf;
    forall j | 0 <= j < |ids| && Touches(d, ids[j])
      ensures j == IndexOf(ids, id)
    {
      var i := IndexOf(ids, id);
      assert ids[j] in ids;
      assert i < j ==> Precedes(ids[i], ids[j]);
      assert j < i ==> Precedes(ids[j], ids[i]);
    }
  }

  lemma {:induction false} StepGrows(ids: seq<EntryId>, d: Delta, end: Room, locals: seq<LocalNotice>,
                                     boundary: Option<ClearBoundary>)
    ensures |Step(ids, d, end, locals, boundary)| <= |ids| + 1
  {
    hide Visible, Survivors;
    if d.EvictedThrough? {
      SurvivorsShrink(ids, d.watermark);
    }
  }

  lemma {:induction false} SurvivorsShrink(ids: seq<EntryId>, w: nat)
    ensures |Survivors(ids, w)| <= |ids|
  {
    if ids != [] {
      SurvivorsShrink(ids[..|ids| - 1], w);
    }
  }

  lemma {:induction false} NothingTouched(ids: seq<EntryId>)
    ensures !AnyTouched([], ids)
  {
  }

  /** A batch that touches and relabels nothing leaves the measured list alone. */
  lemma {:induction false} DocUntouched(entries: seq<ViewEntry>, counts: seq<nat>, moments: seq<Room>,
                                        deltas: seq<Delta>, locals: seq<LocalNotice>)
    requires |counts| == |entries| && Chain(moments, deltas) && AllResident(IdsOf(entries), moments[0], locals)
    ensures !AnyTouched(deltas, IdsOf(entries)) && Relabelled !in deltas ==>
              DocOf(entries, counts, moments[|deltas|], locals) == DocOf(entries, counts, moments[0], locals)
  {
    assert |moments| == |deltas| + 1;
    hide IdsOf, Resident, Touched, Resolve, Chain, DocOf;
    if !AnyTouched(deltas, IdsOf(entries)) && Relabelled !in deltas {
      forall i | 0 <= i < |entries|
        ensures ItemOf(entries[i], counts[i], moments[|deltas|], locals) ==
                ItemOf(entries[i], counts[i], moments[0], locals)
      {
        assert Resident(moments[0], locals, IdsOf(entries)[i]) && !Touched(deltas, IdsOf(entries)[i]);
        UntouchedRecord(moments, deltas, locals, entries[i].id);
      }
    }
  }

  lemma {:induction false} AllResolve(ids: seq<EntryId>, room: Room, locals: seq<LocalNotice>,
                                      boundary: Option<ClearBoundary>)
    requires InStep(ids, room, locals, boundary)
    ensures Resolvable(ids, |ids|, room, locals) == ids && Display.Ascending(ids)
  {
    hide Visible, Resolvable;
    assert forall i :: 0 <= i < |ids| ==> ids[i] in ids;
    assert ids[..|ids|] == ids;
  }

  lemma {:induction false} LinesAligned(entries: seq<ViewEntry>, lines: seq<Option<nat>>, was: seq<ViewEntry>,
                                        counts: Counts, room: Room, locals: seq<LocalNotice>)
    requires (counts.Some? ==> |counts.value| == |was|) && Assembled(entries, lines, was, counts, room, locals)
    ensures |lines| == |entries|
  {
    hide CarriedEntry, CarriedLines;
  }

  lemma {:induction false} InSyncRows(index: LayoutIndex)
    requires index.InSync()
    ensures index.rows.Valid()
  {
  }

  lemma {:induction false} AssembledRebuilt(entries: seq<ViewEntry>, lines: seq<Option<nat>>, filled: seq<nat>,
                                            was: seq<ViewEntry>, counts: Counts, measure: Measure, room: Room,
                                            locals: seq<LocalNotice>)
    requires (counts.Some? ==> |counts.value| == |was|) && Assembled(entries, lines, was, counts, room, locals)
    requires |filled| == |entries|
    requires forall i :: 0 <= i < |filled| ==> filled[i] == Filled(lines[i], measure, room, locals, entries[i].id)
    ensures Rebuilt(entries, if counts.Some? then Some(filled) else None, was, counts, measure, room, locals)
  {
    hide CarriedEntry, CarriedLines, Filled;
  }

  lemma {:induction false} ChainLength(moments: seq<Room>, deltas: seq<Delta>)
    requires Chain(moments, deltas)
    ensures |moments| == |deltas| + 1
  {
    hide Linked;
  }

  /** What is shown is visible, so re-reading a replaced record drops nothing. */
  lemma {:induction false} InStepStays(ids: seq<EntryId>, m: nat, room: Room, locals: seq<LocalNotice>,
                                       boundary: Option<ClearBoundary>)
    requires InStep(ids, room, locals, boundary)
    ensures Display.Ascending(ids) && Step(ids, Replaced(m), room, locals, boundary) == ids
  {
    hide Visible, Display.Ascending, IndexOf, RemoveAt;
  }

  lemma {:induction false} TrimmedValid(locals: seq<LocalNotice>, boundary: Option<ClearBoundary>, next: nat,
                                        excess: nat)
    requires LocalsAscend(locals) && Numbered(locals, boundary, next) && excess <= |locals|
    ensures LocalsAscend(locals[excess..]) && Numbered(locals[excess..], boundary, next)
  {
  }

  /** A position with its line clamped to what its message shows. */
  function Clamped(doc: seq<Item>, pos: Steps.Pos): Steps.Pos
    requires pos.message < |doc|
  {
    Steps.Pos(pos.message, Min(pos.line, SatSub(VisibleBodyLines(doc[pos.message]), 1)))
  }

  lemma {:induction false} IdsSame(a: seq<ViewEntry>, b: seq<ViewEntry>)
    requires |a| == |b| && forall i :: 0 <= i < |a| ==> a[i].id == b[i].id
    ensures IdsOf(a) == IdsOf(b)
  {
    hide IdsOf;
  }

  lemma {:induction false} RemovedLeaves(ids: seq<EntryId>, i: nat)
    requires i < |ids|
    ensures forall x :: x in ids && x != ids[i] ==> x in RemoveAt(ids, i)
  {
    var left := RemoveAt(ids, i);
    forall x | x in ids && x != ids[i]
      ensures x in left
    {
      var j :| 0 <= j < |ids| && ids[j] == x;
      assert left[if j < i then j else j - 1] == x;
    }
  }

  lemma {:induction false} IdsConcat(a: seq<ViewEntry>, b: seq<ViewEntry>)
    ensures IdsOf(a + b) == IdsOf(a) + IdsOf(b)
  {
    hide IdsOf;
  }

  lemma {:induction false} IdsTakeDrop(entries: seq<ViewEntry>, n: nat)
    requires n <= |entries|
    ensures IdsOf(entries[..n]) == IdsOf(entries)[..n]
    ensures IdsOf(entries[n..]) == IdsOf(entries)[n..]
  {
    hide IdsOf;
  }

  lemma {:induction false} IdsInsert(entries: seq<ViewEntry>, at: nat, entry: ViewEntry)
    requires at <= |entries|
    ensures IdsOf(InsertAt(entries, at, entry)) == InsertAt(IdsOf(entries), at, entry.id)
    ensures |InsertAt(entries, at, entry)| == |entries| + 1
  {
    hide IdsOf;
    IdsConcat(entries[..at] + [entry], entries[at..]);
    IdsConcat(entries[..at], [entry]);
    IdsTakeDrop(entries, at);
    assert IdsOf([entry]) == [entry.id];
  }

  lemma {:induction false} IdsRemove(entries: seq<ViewEntry>, at: nat)
    requires at < |entries|
    ensures IdsOf(RemoveAt(entries, at)) == RemoveAt(IdsOf(entries), at) && |RemoveAt(entries, at)| == |entries| - 1
  {
    hide IdsOf;
    IdsConcat(entries[..at], entries[at + 1..]);
    IdsTakeDrop(entries, at);
    IdsTakeDrop(entries, at + 1);
  }

  lemma {:induction false} AppendIsInsert<T>(s: seq<T>, x: T)
    ensures InsertAt(s, |s|, x) == s + [x]
  {
  }

  lemma {:induction false} AnyTouchedGrows(rest: seq<Delta>, ids: seq<EntryId>, id: EntryId)
    ensures AnyTouched(rest, ids) ==> AnyTouched(rest, InsertAt(ids, |ids|, id))
  {
    hide Touched;
    if AnyTouched(rest, ids) {
      var i :| 0 <= i < |ids| && Touched(rest, ids[i]);
      assert InsertAt(ids, |ids|, id)[i] == ids[i];
    }
  }

  // --- Counts and layout ---------------------------------------------------------------------

  lemma {:induction false} CountsLength(entries: seq<ViewEntry>, counts: Counts, measure: Measure, texts: Texts)
    requires CountsOk(entries, counts, measure, texts)
    ensures counts.Some? ==> |counts.value| == |entries|
  {
    hide CountOk;
  }

  /** Counts that are given up were still known. */
  lemma {:induction false} CountsForget(entries: seq<ViewEntry>, counts: Counts, kept: Counts, measure: Measure,
                                        texts: Texts)
    requires CountsOk(entries, counts, measure, texts) && (kept == counts || kept == None)
    ensures CountsOk(entries, kept, measure, texts)
  {
    hide TextLines;
    forall i | 0 <= i < |entries|
      ensures CountOk(entries[i], CountAt(kept, i), measure, texts)
    {
      assert CountOk(entries[i], CountAt(counts, i), measure, texts);
    }
  }

  lemma {:induction false} DocMeasured(entries: seq<ViewEntry>, counts: seq<nat>, measure: Measure, texts: Texts,
                                       room: Room, locals: seq<LocalNotice>)
    requires CountsOk(entries, Some(counts), measure, texts)
    ensures |counts| == |entries|
    ensures Measured(DocOf(entries, counts, room, locals))
    ensures LineCounts(DocOf(entries, counts, room, locals)) == counts
  {
    hide DocOf, LineCounts, Resolve, TextLines;
    forall i | 0 <= i < |entries|
      ensures counts[i] >= 1
    {
      assert CountOk(entries[i], CountAt(Some(counts), i), measure, texts);
    }
  }

  lemma {:induction false} AppendMeasured(entries: seq<ViewEntry>, counts: seq<nat>, measure: Measure, texts: Texts,
                                          entry: ViewEntry, lines: nat, room: Room, locals: seq<LocalNotice>)
    requires CountsOk(entries, Some(counts), measure, texts) && lines >= 1
    ensures |counts| == |entries|
    ensures Measured(DocOf(entries + [entry], counts + [lines], room, locals))
  {
    hide DocOf, Resolve, TextLines;
    forall i | 0 <= i < |entries|
      ensures counts[i] >= 1
    {
      assert CountOk(entries[i], CountAt(Some(counts), i), measure, texts);
    }
  }

  lemma {:induction false} DocLast(entries: seq<ViewEntry>, counts: seq<nat>, room: Room, locals: seq<LocalNotice>)
    requires |counts| == |entries| > 0
    ensures DocOf(entries, counts, room, locals)[|entries| - 1].lines == counts[|entries| - 1]
  {
    hide DocOf, Resolve;
  }

  lemma {:induction false} HoldsCounts(index: LayoutIndex, entries: seq<ViewEntry>, counts: seq<nat>, room: Room,
                                       locals: seq<LocalNotice>)
    requires |counts| == |entries| && index.Holds(DocOf(entries, counts, room, locals))
    ensures index.valid && index.lineCounts == counts
  {
    hide DocOf, Resolve, LineCounts, Packing, Measured, S.Weights;
  }

  /** Tiling does not look at the marks, so it is the same at every moment of the room. */
  lemma {:induction false} LaidAnyway(index: LayoutIndex, entries: seq<ViewEntry>, a: Room, b: Room,
                                      locals: seq<LocalNotice>)
    requires |index.lineCounts| == |entries| && index.Tiles(DocOf(entries, index.lineCounts, a, locals))
    ensures index.Tiles(DocOf(entries, index.lineCounts, b, locals))
  {
    hide DocOf, Resolve, LineCounts, Tiled, S.Weights;
    var doc, other := DocOf(entries, index.lineCounts, a, locals), DocOf(entries, index.lineCounts, b, locals);
    assert SameButMarks(doc, other);
    assert doc[..|doc|] == doc && other[..|doc|] == other;
    TiledAgrees(doc, other, index.blocks, 0, |doc|);
    assert LineCounts(doc) == LineCounts(other);
  }

  /** Whatever marks moved: the index is the one packed from scratch exactly when they still group it so. */
  lemma {:induction false} PackedIff(view: ChatViewport, room: Room)
    requires view.Laid(room)
    ensures view.Packed(room) <==> (view.index.valid ==> Grouped(view.Doc(room), view.index.blocks))
  {
    hide DocOf, LayoutIndex.Holds, LayoutIndex.Tiles, Grouped;
    if view.index.valid {
      view.index.HoldsIff(view.Doc(room));
    }
  }

  /** In a packed view whatever stands under one heading resolves, and is of one voice. */
  lemma {:induction false} HeadingsAgree(view: ChatViewport, room: Room, k: nat, i: nat, j: nat)
    requires view.index.valid && view.Packed(room) && k < |view.index.blocks|
    requires view.index.blocks[k].first <= i < j <= view.index.blocks[k].last
    ensures j < |view.entries|
    ensures var a := Resolve(room, view.localNotices, view.entries[i].id);
            var b := Resolve(room, view.localNotices, view.entries[j].id);
            a.Some? && b.Some? && SameVoice(a.value.mark, b.value.mark)
    ensures view.entries[i].id.Msg? && view.entries[j].id.Msg? ==>
              var a, b := Find(room, view.entries[i].id.id), Find(room, view.entries[j].id.id);
              a.Some? && b.Some? && SameVoice(a.value.mark, b.value.mark)
  {
    hide DocOf, Packing, Find, FindNotice, FindLocal;
    OneVoice(view.Doc(room), view.index.blocks, k, i, j);
  }

  /** ... and two neighbours under different headings are of different voices, or would take more than twelve lines. */
  lemma {:induction false} HeadingsPart(view: ChatViewport, room: Room, k: nat)
    requires view.index.valid && view.Packed(room) && k < |view.index.blocks|
    requires view.index.blocks[k].last + 1 < |view.entries| == |view.index.lineCounts|
    ensures var i := view.index.blocks[k].last;
            var a := Resolve(room, view.localNotices, view.entries[i].id);
            var b := Resolve(room, view.localNotices, view.entries[i + 1].id);
            && a.Some? && b.Some? && SameVoice(a.value.mark, b.value.mark)
            && 0 < a.value.mark.timestampMs && 0 < b.value.mark.timestampMs <= a.value.mark.timestampMs + 90_000
            && view.index.lineCounts[i] <= 40 && view.index.lineCounts[i + 1] <= 40 ==>
              view.index.blocks[k].bodyLines + view.index.lineCounts[i + 1] > 12
  {
    hide DocOf, Packing, Find, FindNotice, FindLocal, Lines, Resolve;
    PackingShows(view.Doc(room), view.index.blocks);
    assert Headed(view.Doc(room), view.index.blocks, k);
  }

  // --- Texts --------------------------------------------------------------------------------------

  lemma {:induction false} NotAmong(entries: seq<ViewEntry>, id: EntryId)
    requires id !in IdsOf(entries)
    ensures forall i :: 0 <= i < |entries| ==> entries[i].id != id
  {
    hide IdsOf;
    forall i | 0 <= i < |entries|
      ensures entries[i].id != id
    {
      assert IdsOf(entries)[i] in IdsOf(entries);
    }
  }

  lemma {:induction false} NewEntryId(room: Room, locals: seq<LocalNotice>, id: EntryId)
    ensures NewEntry(room, locals, id).id == id
  {
    hide HasRefs;
  }

  lemma {:induction false} AloneAt(entries: seq<ViewEntry>, i: nat)
    requires Display.Ascending(IdsOf(entries)) && i < |entries|
    ensures forall j :: 0 <= j < |entries| && j != i ==> entries[j].id != entries[i].id
  {
    hide IdsOf;
    var ids := IdsOf(entries);
    forall j | 0 <= j < |entries| && j != i
      ensures entries[j].id != entries[i].id
    {
      assert Precedes(ids[if j < i then j else i], ids[if j < i then i else j]);
    }
  }

  lemma {:induction false} KnownTexts(view: ChatViewport)
    requires view.Valid()
    ensures Known(view.texts, IdsOf(view.entries))
  {
    hide IdsOf, LayoutIndex.InSync, LocalsAscend, Numbered, TextLines;
    var ids := IdsOf(view.entries);
    forall id | id in ids
      ensures id in view.texts
    {
      var i :| 0 <= i < |ids| && ids[i] == id;
      assert CountOk(view.entries[i], CountAt(view.KeptCounts(), i), view.measure, view.texts);
    }
  }

  lemma {:induction false} CoherentParts(view: ChatViewport, room: Room, all: bool)
    requires view.Coherent(room, all)
    ensures view.Valid() && Distinct(view.entries) && Known(view.texts, IdsOf(view.entries))
    ensures Showing(IdsOf(view.entries), room, view.localNotices, view.clearBoundary, all)
    ensures AllResident(IdsOf(view.entries), room, view.localNotices)
  {
    hide ChatViewport.Valid, Showing, IdsOf, FlagsOk, ChatViewport.Laid, ChatViewport.Packed, Distinct, Known,
         AllResident;
    KnownTexts(view);
    ShowingDistinct(view.entries, room, view.localNotices, view.clearBoundary, all);
    ShownResident(IdsOf(view.entries), room, view.localNotices, view.clearBoundary, all);
  }

  /** What a valid history says of its present. */
  lemma {:induction false} Recorded(history: RoomHistory)
    requires history.Valid()
    ensures |history.past| == history.revision + 1 && |history.told| == history.revision
    ensures history.past[history.revision] == history.Now() && Ordered(history.Now())
  {
    hide Chain, Ordered;
  }

  lemma {:induction false} CoherentAtLeast(view: ChatViewport, room: Room, all: bool)
    ensures view.Coherent(room, all) ==> view.Coherent(room, false)
  {
    hide ChatViewport.Valid, IdsOf, FlagsOk, ChatViewport.Laid, ChatViewport.Packed, Visible, Hidden, Display.Ascending;
  }

  lemma {:induction false} ShowingDistinct(entries: seq<ViewEntry>, room: Room, locals: seq<LocalNotice>,
                                           boundary: Option<ClearBoundary>, all: bool)
    requires Showing(IdsOf(entries), room, locals, boundary, all)
    ensures Distinct(entries) && Display.Ascending(IdsOf(entries))
  {
    hide Visible, IdsOf;
    forall i, j | 0 <= i < j < |entries|
      ensures entries[i].id != entries[j].id
    {
      assert Precedes(IdsOf(entries)[i], IdsOf(entries)[j]);
    }
  }

  lemma {:induction false} ShownResident(ids: seq<EntryId>, room: Room, locals: seq<LocalNotice>,
                                         boundary: Option<ClearBoundary>, all: bool)
    requires Showing(ids, room, locals, boundary, all)
    ensures AllResident(ids, room, locals)
  {
    hide Find, FindNotice, FindLocal;
    forall i | 0 <= i < |ids|
      ensures Resident(room, locals, ids[i])
    {
      assert ids[i] in ids;
    }
  }

  /** Flags that were right at the start are right at the end, but for entries the batch touches. */
  lemma {:induction false} FlagsStart(entries: seq<ViewEntry>, moments: seq<Room>, deltas: seq<Delta>,
                                      locals: seq<LocalNotice>)
    requires Chain(moments, deltas) && AllResident(IdsOf(entries), moments[0], locals)
    requires FlagsOk(entries, moments[0], locals, [])
    ensures |moments| == |deltas| + 1 && FlagsOk(entries, moments[|deltas|], locals, deltas)
  {
    assert |moments| == |deltas| + 1;
    hide IdsOf, Resident, Resolve, Chain;
    forall i | 0 <= i < |entries|
      ensures FlagOk(entries[i], moments[|deltas|], locals, deltas)
    {
      var id := entries[i].id;
      assert FlagOk(entries[i], moments[0], locals, []);
      assert Resident(moments[0], locals, IdsOf(entries)[i]);
      if !Touched(deltas, id) {
        UntouchedRecord(moments, deltas, locals, id);
      }
    }
  }

  lemma {:induction false} ReplayedNext(texts: Texts, ids: seq<EntryId>, deltas: seq<Delta>, i: nat, end: Room,
                                        locals: seq<LocalNotice>, boundary: Option<ClearBoundary>)
    requires i < |deltas|
    ensures Replayed(ids, deltas[i..], end, locals, boundary)
         == Replayed(Step(ids, deltas[i], end, locals, boundary), deltas[i + 1..], end, locals, boundary)
    ensures ReplayedTexts(texts, ids, deltas[i..], end, locals, boundary)
         == ReplayedTexts(StepTexts(texts, ids, deltas[i], end, locals, boundary),
                          Step(ids, deltas[i], end, locals, boundary), deltas[i + 1..], end, locals, boundary)
  {
    hide Step, StepTexts;
    assert deltas[i..][1..] == deltas[i + 1..];
  }

  lemma {:induction false} ReplayedNothing(texts: Texts, ids: seq<EntryId>, end: Room, locals: seq<LocalNotice>,
                                           boundary: Option<ClearBoundary>)
    ensures Replayed(ids, [], end, locals, boundary) == ids
    ensures ReplayedTexts(texts, ids, [], end, locals, boundary) == texts
  {
  }

  lemma {:induction false} CarriedFresh(entries: seq<ViewEntry>, room: Room, locals: seq<LocalNotice>)
    ensures Fresh(CarriedTexts(map[], [], IdsOf(entries), room, locals), IdsOf(entries), room, locals)
  {
    hide IdsOf, TextOf;
  }

  lemma {:induction false} ShowingVisible(entries: seq<ViewEntry>, room: Room, locals: seq<LocalNotice>,
                                          boundary: Option<ClearBoundary>)
    requires Showing(IdsOf(entries), room, locals, boundary, false)
    ensures forall i :: 0 <= i < |entries| ==> Visible(room, locals, entries[i].id)
  {
    hide Visible, IdsOf;
    forall i | 0 <= i < |entries|
      ensures Visible(room, locals, entries[i].id)
    {
      assert IdsOf(entries)[i] in IdsOf(entries);
    }
  }

  lemma {:induction false} ClearedNumbered(entries: seq<ViewEntry>, room: Room, locals: seq<LocalNotice>,
                                           boundary: Option<ClearBoundary>, next: nat)
    requires Showing(IdsOf(entries), room, locals, boundary, false) && Numbered(locals, boundary, next)
    ensures LocalsAscend([]) && Numbered([], ClearedTo(IdsOf(entries)), next)
  {
    hide IdsOf, BoundaryOf, Showing;
    var ids := IdsOf(entries);
    var cleared := BoundaryOf(ids);
    if cleared.local.Some? {
      BoundaryHides(ids, Local(cleared.local.value));
      var i :| 0 <= i < |ids| && NoLater(Local(cleared.local.value), ids[i]);
      ShowingVisible(entries, room, locals, boundary);
      EarlierLocal(room, locals, entries[i].id, boundary, next);
    }
  }

  lemma {:induction false} CoherentShows(view: ChatViewport, room: Room)
    requires view.Coherent(room, false)
    ensures Showing(IdsOf(view.entries), room, view.localNotices, view.clearBoundary, false) && view.index.InSync()
    ensures Numbered(view.localNotices, view.clearBoundary, view.nextNoticeId)
    ensures view.Coherent(room, true) ==> InStep(IdsOf(view.entries), room, view.localNotices, view.clearBoundary)
  {
    hide Showing, InStep, IdsOf, CountsOk, FlagsOk, LayoutIndex.InSync, LocalsAscend, Numbered, ChatViewport.Laid,
         ChatViewport.Packed;
    ShowingAll(IdsOf(view.entries), room, view.localNotices, view.clearBoundary);
  }

  /** An empty screen is coherent, and current once nothing is left to show. */
  lemma {:induction false} EmptyView(view: ChatViewport, room: Room)
    requires view.entries == [] && view.localNotices == [] && !view.index.valid && view.index.InSync()
    requires Numbered([], view.clearBoundary, view.nextNoticeId)
    requires view.cursor.None? && view.anchor.None? && view.scrollAnchor.None?
    ensures view.Coherent(room, false) && view.CursorsNamed()
    ensures view.Coherent(room, true) <==> InStep([], room, [], view.clearBoundary)
  {
    hide Showing, InStep, IdsOf, CountsOk, FlagsOk, LayoutIndex.InSync, Numbered;
    NoEntries(view.measure, room, view.texts, view.clearBoundary);
    ShowingAll([], room, [], view.clearBoundary);
  }

  lemma {:induction false} NoEntries(measure: Measure, room: Room, texts: Texts, boundary: Option<ClearBoundary>)
    ensures CountsOk([], None, measure, texts) && FlagsOk([], room, [], []) && IdsOf([]) == []
    ensures Showing([], room, [], boundary, false)
  {
  }
}
