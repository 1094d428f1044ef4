/** What entries and cursors keep through a pass over a batch: folds, and the place a lost entry hands on. */
module Handover {
  import opened Arithmetic
  import opened History
  import opened Display
  import opened Entries
  import opened Resync
  import opened Batch
  import Order
  import S = Screen

  datatype ScrollAnchor = ScrollAnchor(entry: EntryId, line: nat, kind: S.Kind)

  // --- Cursors -----------------------------------------------------------------------------

  /** The entry that stands in for one removed at `i`. */
  function Neighbour(left: seq<EntryId>, i: nat): (id: Option<EntryId>)
    requires i <= |left|
    ensures id.Some? ==> id.value in left
  {
    if i < |left| then Some(left[i])
    else if i > 0 then Some(left[i - 1])
    else None
  }

  /** A cursor on the entry that went is handed on. */
  function Handed(at: Option<ViewCursor>, gone: EntryId, to: Option<EntryId>): Option<ViewCursor> {
    if at.Some? && at.value.entry == gone then
      if to.Some? then Some(ViewCursor(to.value, 0)) else None
    else at
  }

  /** A cursor whose entry was evicted goes to the front. */
  function Recovered(at: Option<ViewCursor>, left: seq<EntryId>): Option<ViewCursor> {
    if at.Some? && at.value.entry !in left then
      if left != [] then Some(ViewCursor(left[0], 0)) else None
    else at
  }

  /** A scroll anchor on an entry that went is let go. */
  function Released(at: Option<ScrollAnchor>, gone: EntryId): Option<ScrollAnchor> {
    if at.Some? && at.value.entry == gone then None else at
  }

  function Kept(at: Option<ScrollAnchor>, left: seq<EntryId>): Option<ScrollAnchor> {
    if at.Some? && at.value.entry !in left then None else at
  }

  /** A rebuild hands the scroll anchor on like a cursor. */
  function Reanchored(at: Option<ScrollAnchor>, previous: seq<EntryId>, left: seq<EntryId>): Option<ScrollAnchor> {
    if at.None? then None
    else
      var heir := Successor(at.value.entry, previous, left);
      if heir.Some? then Some(at.value.(entry := heir.value)) else None
  }

  ghost function AnchoredTo(at: Option<ScrollAnchor>): Option<EntryId> {
    if at.Some? then Some(at.value.entry) else None
  }

  /** The scroll anchor goes to whoever takes over, with the line it names. */
  ghost predicate MovedAnchor(at: Option<ScrollAnchor>, now: Option<ScrollAnchor>, previous: seq<EntryId>,
                              left: seq<EntryId>) {
    && (at.None? ==> now.None?)
    && (at.Some? ==> Inherits(at.value.entry, previous, left, AnchoredTo(now)))
    && (at.Some? && now.Some? ==> now.value.line == at.value.line && now.value.kind == at.value.kind)
  }

  lemma {:induction false} ReanchoredMoves(at: Option<ScrollAnchor>, previous: seq<EntryId>, left: seq<EntryId>)
    ensures MovedAnchor(at, Reanchored(at, previous, left), previous, left)
  {
    hide Inherits, Successor;
  }

  /** A cursor on entry `i` of `was` goes to the next one, or to the one before the last; any other stays. */
  ghost predicate PassedOn(at: Option<ViewCursor>, now: Option<ViewCursor>, was: seq<ViewEntry>, i: nat)
    requires i < |was|
  {
    if at.None? || at.value.entry != was[i].id then now == at
    else if i + 1 < |was| then now == Some(ViewCursor(was[i + 1].id, 0))
    else if i > 0 then now == Some(ViewCursor(was[i - 1].id, 0))
    else now.None?
  }

  lemma {:induction false} HandedPasses(at: Option<ViewCursor>, was: seq<ViewEntry>, i: nat)
    requires i < |was|
    ensures PassedOn(at, Handed(at, was[i].id, Neighbour(IdsOf(RemoveAt(was, i)), i)), was, i)
  {
    hide IdsOf;
  }

  /** A cursor whose entry is gone from `left` goes to the front; any other stays. */
  ghost predicate SentToFront(at: Option<ViewCursor>, now: Option<ViewCursor>, left: seq<ViewEntry>) {
    if at.None? || (exists e :: e in left && e.id == at.value.entry) then now == at
    else if left != [] then now == Some(ViewCursor(left[0].id, 0))
    else now.None?
  }

  lemma {:induction false} RecoveredGoes(at: Option<ViewCursor>, left: seq<ViewEntry>)
    ensures SentToFront(at, Recovered(at, IdsOf(left)), left)
  {
    hide IdsOf;
    if at.Some? && at.value.entry in IdsOf(left) {
      var i :| 0 <= i < |left| && IdsOf(left)[i] == at.value.entry;
      assert left[i] in left;
    }
    if at.Some? && at.value.entry !in IdsOf(left) {
      forall e | e in left
        ensures e.id != at.value.entry
      {
        var i :| 0 <= i < |left| && left[i] == e;
        assert IdsOf(left)[i] in IdsOf(left);
      }
    }
  }

  /** Through a batch an unset cursor stays unset, and one on an entry that nothing drops stays as it is. */
  ghost predicate Held<T(!new)>(at: Option<T>, now: Option<T>, entry: Option<EntryId>, deltas: seq<Delta>, end: Room,
                                locals: seq<LocalNotice>) {
    && (at.None? ==> now.None?)
    && (at.Some? && entry.Some? && Stays(entry.value, deltas, end, locals) ==> now == at)
  }

  lemma {:induction false} HeldNext<T(!new)>(at: Option<T>, mid: Option<T>, now: Option<T>, entry: Option<EntryId>,
                                             later: Option<EntryId>, done: seq<Delta>, d: Delta, end: Room,
                                             locals: seq<LocalNotice>)
    requires Held(at, mid, entry, done, end, locals) && Held(mid, now, later, [d], end, locals)
    requires mid == at ==> later == entry
    ensures Held(at, now, entry, done + [d], end, locals)
  {
    hide Drops;
    if entry.Some? && Stays(entry.value, done + [d], end, locals) {
      assert d in done + [d];
      assert forall e :: e in done ==> e in done + [d];
    }
  }

  const U32_MAX: nat := 0xFFFF_FFFF

  /**
   * What settling does: a reader pinned to the tail with no selection goes to the end of the last entry, an unset
   * cursor to its start, and any other stays.
   */
  ghost predicate Settled(at: Option<ViewCursor>, anchor: Option<ViewCursor>, now: Option<ViewCursor>,
                          nowAnchor: Option<ViewCursor>, atTail: bool, ids: seq<EntryId>) {
    && (if at.None? && ids != [] then nowAnchor.None? else nowAnchor == anchor)
    && (if atTail && nowAnchor.None? then
          now == if ids == [] then None else Some(ViewCursor(ids[|ids| - 1], 0xFFFF_FFFF))
        else if at.None? && ids != [] then now == Some(ViewCursor(ids[|ids| - 1], 0))
        else now == at)
  }

  /**
   * Where a pass leaves the cursor: at the end of the newest entry if the reader was pinned there with no selection
   * open; otherwise where it was if its entry stays, and after a re-lay with whoever took over for it, or on the
   * newest entry if nobody is left to.
   */
  ghost predicate Landed(at: Option<ViewCursor>, anchor: Option<ViewCursor>, now: Option<ViewCursor>,
                         nowAnchor: Option<ViewCursor>, atTail: bool, relaid: bool, deltas: seq<Delta>,
                         was: seq<EntryId>, ids: seq<EntryId>, named: bool, room: Room, locals: seq<LocalNotice>) {
    && (atTail && anchor.None? && ids != [] ==> now == Some(ViewCursor(ids[|ids| - 1], 0xFFFF_FFFF)))
    && (at.Some? && !(atTail && nowAnchor.None?) ==>
          if relaid then
            if at.value.entry !in was || exists x :: x in was && x in ids then Moved(at, now, was, ids)
            else now == if ids == [] then None else Some(ViewCursor(ids[|ids| - 1], 0))
          else named && Stays(at.value.entry, deltas, room, locals) ==> now == at)
  }

  lemma {:induction false} Landing(at: Option<ViewCursor>, anchor: Option<ViewCursor>, mid: Option<ViewCursor>,
                                   midAnchor: Option<ViewCursor>, now: Option<ViewCursor>,
                                   nowAnchor: Option<ViewCursor>, atTail: bool, relaid: bool, deltas: seq<Delta>,
                                   was: seq<EntryId>, ids: seq<EntryId>, named: bool, room: Room,
                                   locals: seq<LocalNotice>)
    requires Settled(mid, midAnchor, now, nowAnchor, atTail, ids)
    requires if relaid then Moved(at, mid, was, ids) && Moved(anchor, midAnchor, was, ids)
             else (anchor.None? ==> midAnchor.None?)
    requires !relaid && named ==>
               && Held(at, mid, EntryAt(at), deltas, room, locals)
               && Held(anchor, midAnchor, EntryAt(anchor), deltas, room, locals)
    ensures Landed(at, anchor, now, nowAnchor, atTail, relaid, deltas, was, ids, named, room, locals)
  {
    hide Stays;
  }

  // --- Lists -------------------------------------------------------------------------------

  /** The list with a new entry for `id`, folded unless it is a notice. */
  function Admitted(entries: seq<ViewEntry>, at: nat, id: EntryId, end: Room, locals: seq<LocalNotice>,
                    boundary: Option<ClearBoundary>): seq<ViewEntry>
    requires at <= |entries|
  {
    if Hidden(boundary, id) || !Visible(end, locals, id) then entries
    else InsertAt(entries, at, NewEntry(end, locals, id))
  }

  function Dropped(entries: seq<ViewEntry>, id: EntryId): seq<ViewEntry> {
    var i := IndexOf(IdsOf(entries), id);
    if i < |entries| then RemoveAt(entries, i) else entries
  }

  function Reread(entries: seq<ViewEntry>, id: EntryId, end: Room, locals: seq<LocalNotice>): seq<ViewEntry> {
    var i := IndexOf(IdsOf(entries), id);
    if i == |entries| then entries
    else if Visible(end, locals, id) then entries[i := entries[i].(hasRefs := HasRefs(end, locals, id))]
    else RemoveAt(entries, i)
  }

  /** The whole list after one delta: who stays keeps its fold, who is new starts with the default one. */
  function StepEntries(entries: seq<ViewEntry>, d: Delta, end: Room, locals: seq<LocalNotice>,
                       boundary: Option<ClearBoundary>): seq<ViewEntry> {
    match d
    case Appended(m) => Admitted(entries, |entries|, Msg(m), end, locals, boundary)
    case Inserted(m) => Admitted(entries, InsertPosition(IdsOf(entries), m), Msg(m), end, locals, boundary)
    case Replaced(m) => Reread(entries, Msg(m), end, locals)
    case Tombstoned(m) => Dropped(entries, Msg(m))
    case EvictedThrough(w) => KeepEntries(entries, w)
    case NoticeAdded(k) => Admitted(entries, |entries|, Shared(k), end, locals, boundary)
    case NoticeRemoved(k) => Dropped(entries, Shared(k))
    case Relaid => entries
    case Relabelled => entries
  }

  // --- Folds -------------------------------------------------------------------------------

  ghost predicate HasFold(was: seq<ViewEntry>, e: ViewEntry) {
    exists j :: 0 <= j < |was| && was[j].id == e.id && was[j].expanded == e.expanded
  }

  /** An entry that was there and is not dropped keeps its fold; any other starts out, messages folded, notices open. */
  ghost predicate FoldOk(e: ViewEntry, was: seq<ViewEntry>, deltas: seq<Delta>, end: Room, locals: seq<LocalNotice>) {
    if e.id in IdsOf(was) && Stays(e.id, deltas, end, locals) then HasFold(was, e)
    else e.expanded <==> e.id.Shared? || e.id.Local?
  }

  ghost predicate FoldsKept(entries: seq<ViewEntry>, was: seq<ViewEntry>, deltas: seq<Delta>, end: Room,
                            locals: seq<LocalNotice>) {
    forall i :: 0 <= i < |entries| ==> FoldOk(entries[i], was, deltas, end, locals)
  }

  /** Who was there and is not dropped is still there. */
  ghost predicate AllStay(ids: seq<EntryId>, was: seq<EntryId>, deltas: seq<Delta>, end: Room,
                          locals: seq<LocalNotice>) {
    forall x :: x in was && Stays(x, deltas, end, locals) ==> x in ids
  }

  /** How one delta treats an entry of the list after it. */
  ghost predicate Carried(entries: seq<ViewEntry>, e: ViewEntry, d: Delta, end: Room, locals: seq<LocalNotice>) {
    if e.id in IdsOf(entries) then !Drops(d, e.id, end, locals) && HasFold(entries, e)
    else e.expanded <==> e.id.Shared? || e.id.Local?
  }

  ghost predicate CarriesAll(entries: seq<ViewEntry>, next: seq<ViewEntry>, d: Delta, end: Room,
                             locals: seq<LocalNotice>) {
    && (forall i :: 0 <= i < |next| ==> Carried(entries, next[i], d, end, locals))
    && forall x :: x in IdsOf(entries) && !Drops(d, x, end, locals) ==> x in IdsOf(next)
  }

  lemma {:induction false} FoldsNext(was: seq<ViewEntry>, entries: seq<ViewEntry>, next: seq<ViewEntry>,
                                     done: seq<Delta>, d: Delta, end: Room, locals: seq<LocalNotice>)
    requires FoldsKept(entries, was, done, end, locals) && AllStay(IdsOf(entries), IdsOf(was), done, end, locals)
    requires CarriesAll(entries, next, d, end, locals)
    ensures FoldsKept(next, was, done + [d], end, locals)
    ensures AllStay(IdsOf(next), IdsOf(was), done + [d], end, locals)
  {
    hide Drops, Stays, IdsOf;
    forall x
      ensures Stays(x, done + [d], end, locals) <==> Stays(x, done, end, locals) && !Drops(d, x, end, locals)
    {
      StaysToo(x, done, d, end, locals);
    }
    forall i | 0 <= i < |next|
      ensures FoldOk(next[i], was, done + [d], end, locals)
    {
      var e := next[i];
      assert Carried(entries, e, d, end, locals);
      if e.id in IdsOf(entries) {
        var j :| 0 <= j < |entries| && entries[j].id == e.id && entries[j].expanded == e.expanded;
        assert FoldOk(entries[j], was, done, end, locals);
      }
    }
  }

  lemma {:induction false} StaysToo(x: EntryId, done: seq<Delta>, d: Delta, end: Room, locals: seq<LocalNotice>)
    ensures Stays(x, done + [d], end, locals) <==> Stays(x, done, end, locals) && !Drops(d, x, end, locals)
  {
    hide Drops;
    assert d in done + [d];
    assert forall e :: e in done ==> e in done + [d];
  }

  lemma {:induction false} FoldsAtFirst(entries: seq<ViewEntry>, end: Room, locals: seq<LocalNotice>)
    ensures FoldsKept(entries, entries, [], end, locals) && AllStay(IdsOf(entries), IdsOf(entries), [], end, locals)
  {
    hide Drops, IdsOf;
    forall i | 0 <= i < |entries|
      ensures FoldOk(entries[i], entries, [], end, locals)
    {
      assert IdsOf(entries)[i] in IdsOf(entries);
    }
  }

  lemma {:induction false} SelfFold(entries: seq<ViewEntry>, j: nat, e: ViewEntry)
    requires j < |entries| && entries[j].id == e.id && entries[j].expanded == e.expanded
    ensures HasFold(entries, e) && e.id in IdsOf(entries)
  {
    hide IdsOf;
    assert IdsOf(entries)[j] in IdsOf(entries);
  }

  lemma {:induction false} InsertCarries(entries: seq<ViewEntry>, at: nat, e: ViewEntry, d: Delta, end: Room,
                                         locals: seq<LocalNotice>)
    requires at <= |entries| && e.id !in IdsOf(entries) && (d.Appended? || d.Inserted? || d.NoticeAdded?)
    requires e.expanded <==> e.id.Shared? || e.id.Local?
    ensures CarriesAll(entries, InsertAt(entries, at, e), d, end, locals)
  {
    hide IdsOf, HasFold;
    var next := InsertAt(entries, at, e);
    forall i | 0 <= i < |next|
      ensures Carried(entries, next[i], d, end, locals)
    {
      if i != at {
        SelfFold(entries, if i < at then i else i - 1, next[i]);
      }
    }
    forall x | x in IdsOf(entries)
      ensures x in IdsOf(next)
    {
      var j :| 0 <= j < |entries| && IdsOf(entries)[j] == x;
      assert IdsOf(next)[if j < at then j else j + 1] == x;
    }
  }

  lemma {:induction false} RemoveCarries(entries: seq<ViewEntry>, at: nat, d: Delta, end: Room,
                                         locals: seq<LocalNotice>)
    requires Display.Ascending(IdsOf(entries)) && at < |entries|
    requires forall x :: Drops(d, x, end, locals) <==> x == entries[at].id
    ensures CarriesAll(entries, RemoveAt(entries, at), d, end, locals)
  {
    hide IdsOf, HasFold, Drops;
    var next := RemoveAt(entries, at);
    forall i | 0 <= i < |next|
      ensures Carried(entries, next[i], d, end, locals)
    {
      var j := if i < at then i else i + 1;
      SelfFold(entries, j, next[i]);
      if next[i].id == entries[at].id {
        OnePlace(IdsOf(entries), j, at);
      }
    }
    forall x | x in IdsOf(entries) && x != entries[at].id
      ensures x in IdsOf(next)
    {
      var j :| 0 <= j < |entries| && IdsOf(entries)[j] == x;
      assert IdsOf(next)[if j < at then j else j - 1] == x;
    }
  }

  lemma {:induction false} SameCarries(entries: seq<ViewEntry>, next: seq<ViewEntry>, d: Delta, end: Room,
                                       locals: seq<LocalNotice>)
    requires |next| == |entries|
    requires forall i :: 0 <= i < |next| ==> next[i].id == entries[i].id && next[i].expanded == entries[i].expanded
    requires forall x :: x in IdsOf(entries) ==> !Drops(d, x, end, locals)
    ensures CarriesAll(entries, next, d, end, locals)
  {
    hide IdsOf, HasFold, Drops;
    assert IdsOf(next) == IdsOf(entries);
    forall i | 0 <= i < |next|
      ensures Carried(entries, next[i], d, end, locals)
    {
      SelfFold(entries, i, next[i]);
    }
  }

  lemma {:induction false} KeepMembers(entries: seq<ViewEntry>, w: nat)
    ensures forall e :: e in KeepEntries(entries, w) <==> e in entries && !Evicted(e.id, w)
  {
    if entries != [] {
      var front, last := entries[..|entries| - 1], entries[|entries| - 1];
      assert entries == front + [last];
      KeepMembers(front, w);
    }
  }

  lemma {:induction false} KeepCarries(entries: seq<ViewEntry>, w: nat, end: Room, locals: seq<LocalNotice>)
    ensures CarriesAll(entries, KeepEntries(entries, w), EvictedThrough(w), end, locals)
  {
    hide IdsOf, HasFold, KeepEntries, Evicted;
    var next := KeepEntries(entries, w);
    KeepMembers(entries, w);
    forall i | 0 <= i < |next|
      ensures Carried(entries, next[i], EvictedThrough(w), end, locals)
    {
      assert next[i] in entries;
      var j :| 0 <= j < |entries| && entries[j] == next[i];
      SelfFold(entries, j, next[i]);
    }
    forall x | x in IdsOf(entries) && !Evicted(x, w)
      ensures x in IdsOf(next)
    {
      var j :| 0 <= j < |entries| && IdsOf(entries)[j] == x;
      assert entries[j] in next;
      var i :| 0 <= i < |next| && next[i] == entries[j];
      assert IdsOf(next)[i] == x;
    }
  }

  /** One delta: who stays keeps its fold, who comes starts with the default one, and who is not dropped stays. */
  lemma {:induction false} StepCarries(entries: seq<ViewEntry>, d: Delta, end: Room, locals: seq<LocalNotice>,
                                       boundary: Option<ClearBoundary>)
    requires Display.Ascending(IdsOf(entries)) && !d.Relaid?
    requires d.Appended? || d.Inserted? ==> Msg(d.id) !in IdsOf(entries)
    requires d.NoticeAdded? ==> Shared(d.key) !in IdsOf(entries)
    ensures CarriesAll(entries, StepEntries(entries, d, end, locals, boundary), d, end, locals)
  {
    hide IdsOf, CarriesAll, Display.Ascending, InsertAt, RemoveAt, IndexOf, KeepEntries, Visible, Hidden,
         InsertPosition, HasRefs, Evicted;
    match d
    case Appended(m) =>
      SameOrInserted(entries, |entries|, Msg(m), d, end, locals);
    case Inserted(m) =>
      SameOrInserted(entries, InsertPosition(IdsOf(entries), m), Msg(m), d, end, locals);
    case NoticeAdded(key) =>
      SameOrInserted(entries, |entries|, Shared(key), d, end, locals);
    case Replaced(m) =>
      var i := IndexOf(IdsOf(entries), Msg(m));
      if i == |entries| || Visible(end, locals, Msg(m)) {
        SameCarries(entries, Reread(entries, Msg(m), end, locals), d, end, locals);
      } else {
        RemoveCarries(entries, i, d, end, locals);
      }
    case Tombstoned(m) =>
      DroppedCarries(entries, Msg(m), d, end, locals);
    case NoticeRemoved(key) =>
      DroppedCarries(entries, Shared(key), d, end, locals);
    case EvictedThrough(w) =>
      KeepCarries(entries, w, end, locals);
    case Relabelled =>
      SameCarries(entries, entries, d, end, locals);
  }

  lemma {:induction false} SameOrInserted(entries: seq<ViewEntry>, at: nat, id: EntryId, d: Delta, end: Room,
                                          locals: seq<LocalNotice>)
    requires at <= |entries| && id !in IdsOf(entries) && (d.Appended? || d.Inserted? || d.NoticeAdded?)
    ensures CarriesAll(entries, entries, d, end, locals)
    ensures CarriesAll(entries, InsertAt(entries, at, NewEntry(end, locals, id)), d, end, locals)
  {
    hide IdsOf, CarriesAll, InsertAt, HasRefs;
    SameCarries(entries, entries, d, end, locals);
    InsertCarries(entries, at, NewEntry(end, locals, id), d, end, locals);
  }

  lemma {:induction false} DroppedCarries(entries: seq<ViewEntry>, id: EntryId, d: Delta, end: Room,
                                          locals: seq<LocalNotice>)
    requires Display.Ascending(IdsOf(entries)) && forall x :: Drops(d, x, end, locals) <==> x == id
    ensures CarriesAll(entries, Dropped(entries, id), d, end, locals)
  {
    hide IdsOf, CarriesAll, RemoveAt, IndexOf, Drops, Display.Ascending;
    var i := IndexOf(IdsOf(entries), id);
    if i < |entries| {
      RemoveCarries(entries, i, d, end, locals);
    } else {
      SameCarries(entries, entries, d, end, locals);
    }
  }

  /** A rebuilt list carries folds over by id. */
  lemma {:induction false} ResyncFolds(entries: seq<ViewEntry>, was: seq<ViewEntry>, room: Room,
                                       locals: seq<LocalNotice>)
    requires forall i :: 0 <= i < |entries| ==> entries[i] == CarriedEntry(was, room, locals, entries[i].id)
    ensures FoldsKept(entries, was, [], room, locals)
  {
    hide IdsOf, IndexOf, HasRefs, HasFold, Drops;
    forall i | 0 <= i < |entries|
      ensures FoldOk(entries[i], was, [], room, locals)
    {
      var e := entries[i];
      var j := IndexOf(IdsOf(was), e.id);
      assert e == CarriedEntry(was, room, locals, e.id);
      if j < |was| {
        SelfFold(was, j, e);
      }
    }
  }

  lemma {:induction false} RebuiltFolds(entries: seq<ViewEntry>, counts: Counts, was: seq<ViewEntry>, wasCounts: Counts,
                                        measure: Measure, room: Room, locals: seq<LocalNotice>)
    requires Rebuilt(entries, counts, was, wasCounts, measure, room, locals)
    ensures FoldsKept(entries, was, [], room, locals)
  {
    hide IdsOf, FoldsKept, CarriedEntry, CarriedLines, EntryLines;
    ResyncFolds(entries, was, room, locals);
  }

  /** Reading a body again leaves the folds alone. */
  lemma {:induction false} RereadFolds(entries: seq<ViewEntry>, was: seq<ViewEntry>, m: nat, room: Room,
                                       locals: seq<LocalNotice>, boundary: Option<ClearBoundary>)
    requires FoldsKept(entries, was, [], room, locals) && (Msg(m) in IdsOf(entries) ==> Visible(room, locals, Msg(m)))
    ensures FoldsKept(StepEntries(entries, Replaced(m), room, locals, boundary), was, [], room, locals)
  {
    hide IdsOf, HasRefs, IndexOf, Visible, Stays, HasFold;
    var next := Reread(entries, Msg(m), room, locals);
    forall i | 0 <= i < |next|
      ensures FoldOk(next[i], was, [], room, locals)
    {
      assert FoldOk(entries[i], was, [], room, locals);
      SameFold(was, entries[i], next[i]);
    }
  }

  lemma {:induction false} SameFold(was: seq<ViewEntry>, a: ViewEntry, b: ViewEntry)
    requires a.id == b.id && a.expanded == b.expanded
    ensures HasFold(was, a) ==> HasFold(was, b)
  {
  }

  /** What an eviction does not drop is left. */
  lemma {:induction false} EvictionHolds(left: seq<EntryId>, ids: seq<EntryId>, w: nat, end: Room,
                                         locals: seq<LocalNotice>)
    requires left == Survivors(ids, w)
    ensures forall x :: x in ids && Stays(x, [EvictedThrough(w)], end, locals) ==> x in left
  {
    hide Survivors, Evicted;
    assert EvictedThrough(w) in [EvictedThrough(w)];
    forall x
      ensures x in left <==> x in ids && !Evicted(x, w)
    {
      Order.SurvivorsBefore(ids, w, x, x);
    }
  }
}
