/** A view's own notices: numbered as they come, threaded at the end, the oldest dropped over the cap. */
module OwnNotices {
  import opened Arithmetic
  import opened History
  import opened Display
  import opened Layout
  import opened Entries
  import opened Sequence
  import opened Resync
  import opened Order
  import opened OneDelta

  /** New own notices are later than every one there is or a clear has hidden. */
  ghost predicate Numbered(locals: seq<LocalNotice>, boundary: Option<ClearBoundary>, next: nat) {
    && (forall i :: 0 <= i < |locals| ==> locals[i].id < next)
    && (boundary.Some? && boundary.value.local.Some? ==> boundary.value.local.value < next)
  }

  /** The newest message shown, under which a new notice threads. */
  function LastMessage(ids: seq<EntryId>): Option<nat> {
    if ids == [] then None
    else if ids[|ids| - 1].Msg? then Some(ids[|ids| - 1].id)
    else LastMessage(ids[..|ids| - 1])
  }

  /** The notices after one more, the oldest dropped to make room if need be. */
  function Pushed(locals: seq<LocalNotice>, notice: LocalNotice, trim: bool): seq<LocalNotice> {
    if trim then (locals + [notice])[1..] else locals + [notice]
  }

  /** ... and the ids shown with them. */
  ghost function Shown(ids: seq<EntryId>, locals: seq<LocalNotice>, notice: LocalNotice, trim: bool): seq<EntryId>
    requires trim ==> locals != []
  {
    (if trim then Without(ids, Local(locals[0].id)) else ids) + [Local(notice.id)]
  }

  lemma {:induction false} PushedFinds(locals: seq<LocalNotice>, notice: LocalNotice, trim: bool, n: nat)
    requires LocalsAscend(locals) && (trim ==> locals != [])
    requires forall i :: 0 <= i < |locals| ==> locals[i].id < notice.id
    ensures FindLocal(Pushed(locals, notice, trim), n) ==
            if n == notice.id then Some(notice)
            else if trim && n == locals[0].id then None
            else FindLocal(locals, n)
  {
    var all := locals + [notice];
    assert all[..|locals|] == locals;
    assert FindLocal(all, n) == if n == notice.id then Some(notice) else FindLocal(locals, n);
    if trim {
      hide FindLocal;
      if FindLocal(all[1..], n).Some? {
        TrimmedLocal(all, 1, n);
        var i :| 0 <= i < |all[1..]| && all[1..][i] == FindLocal(all[1..], n).value;
        assert all[1 + i].id == n;
      } else if FindLocal(all, n).Some? {
        assert all == [all[0]] + all[1..];
      }
    }
  }

  lemma {:induction false} PushedNumbered(locals: seq<LocalNotice>, boundary: Option<ClearBoundary>,
                                          notice: LocalNotice, trim: bool)
    requires LocalsAscend(locals) && Numbered(locals, boundary, notice.id)
    ensures LocalsAscend(Pushed(locals, notice, trim))
    ensures Numbered(Pushed(locals, notice, trim), boundary, notice.id + 1)
  {
    var all := locals + [notice];
    assert LocalsAscend(all) && Numbered(all, boundary, notice.id + 1);
  }

  /** The view shows what it should of its own notices too. */
  lemma {:induction false} PushedShowing(ids: seq<EntryId>, room: Room, locals: seq<LocalNotice>,
                                         boundary: Option<ClearBoundary>, notice: LocalNotice, trim: bool, all: bool)
    requires Showing(ids, room, locals, boundary, all) && LocalsAscend(locals) && Numbered(locals, boundary, notice.id)
    requires trim ==> locals != []
    ensures Showing(Shown(ids, locals, notice, trim), room, Pushed(locals, notice, trim), boundary, all)
  {
    hide Find, FindNotice, FindLocal, Without, Pushed, LocalsAscend;
    var after := Pushed(locals, notice, trim);
    var left := if trim then Without(ids, Local(locals[0].id)) else ids;
    if trim {
      RemoveMembers(ids, Local(locals[0].id));
    }
    forall id
      ensures id in Shown(ids, locals, notice, trim) ==> Visible(room, after, id) && !Hidden(boundary, id)
      ensures all && Visible(room, after, id) && !Hidden(boundary, id) ==> id in Shown(ids, locals, notice, trim)
    {
      if id.Local? {
        PushedFinds(locals, notice, trim, id.notice);
      }
    }
    forall i | 0 <= i < |left|
      ensures Precedes(left[i], Local(notice.id))
    {
      assert left[i] in ids;
      EarlierLocal(room, locals, left[i], boundary, notice.id);
    }
    AppendAscends(left, Local(notice.id));
  }

  lemma {:induction false} ShownMembers(ids: seq<EntryId>, locals: seq<LocalNotice>, boundary: Option<ClearBoundary>,
                                        notice: LocalNotice, trim: bool)
    requires Display.Ascending(ids) && Numbered(locals, boundary, notice.id) && (trim ==> locals != [])
    ensures forall x :: x in ids ==>
              (x in Shown(ids, locals, notice, trim) <==> !(trim && x == Local(locals[0].id)))
  {
    hide Without;
    if trim {
      RemoveMembers(ids, Local(locals[0].id));
    }
  }

  lemma {:induction false} EarlierLocal(room: Room, locals: seq<LocalNotice>, id: EntryId,
                                        boundary: Option<ClearBoundary>, next: nat)
    requires Visible(room, locals, id) && Numbered(locals, boundary, next)
    ensures Precedes(id, Local(next))
  {
    hide FindLocal, Find, FindNotice;
    if id.Local? {
      var i :| 0 <= i < |locals| && locals[i] == FindLocal(locals, id.notice).value;
    }
  }

  /** The entries of every other id. */
  function Others(entries: seq<ViewEntry>, id: EntryId): seq<ViewEntry> {
    if entries == [] then []
    else
      var last := entries[|entries| - 1];
      Others(entries[..|entries| - 1], id) + if last.id == id then [] else [last]
  }

  lemma {:induction false} OthersAll(entries: seq<ViewEntry>, id: EntryId)
    requires forall i :: 0 <= i < |entries| ==> entries[i].id != id
    ensures Others(entries, id) == entries
  {
    if entries != [] {
      OthersAll(entries[..|entries| - 1], id);
    }
  }

  lemma {:induction false} OthersButOne(entries: seq<ViewEntry>, i: nat)
    requires Distinct(entries) && i < |entries|
    ensures Others(entries, entries[i].id) == RemoveAt(entries, i)
  {
    var front, last := entries[..|entries| - 1], entries[|entries| - 1];
    if i == |entries| - 1 {
      OthersAll(front, last.id);
    } else {
      OthersButOne(front, i);
    }
  }

  /** The entry of the new notice, at the end. */
  function NoticeEntry(notice: LocalNotice): ViewEntry {
    ViewEntry(Local(notice.id), true, notice.body.hasRefs)
  }

  lemma {:induction false} OthersLeave(entries: seq<ViewEntry>, id: EntryId)
    requires Distinct(entries)
    ensures IdsOf(Others(entries, id)) == Without(IdsOf(entries), id)
    ensures forall e :: e in Others(entries, id) ==> e in entries && e.id != id
    ensures |Others(entries, id)| <= |entries|
  {
    hide IndexOf, IdsOf, Others;
    var i := IndexOf(IdsOf(entries), id);
    if i < |entries| {
      OthersButOne(entries, i);
      var left := RemoveAt(entries, i);
      assert IdsOf(left) == RemoveAt(IdsOf(entries), i);
      forall j | 0 <= j < |left|
        ensures left[j] in entries && left[j].id != id
      {
        assert left[j] == entries[if j < i then j else j + 1];
      }
    } else {
      forall j | 0 <= j < |entries|
        ensures entries[j].id != id
      {
        assert IdsOf(entries)[j] in IdsOf(entries);
      }
      OthersAll(entries, id);
    }
  }

  /** Everyone else's flags are untouched, and the newcomer's is read from its body. */
  lemma {:induction false} PushedFlags(entries: seq<ViewEntry>, kept: seq<ViewEntry>, room: Room,
                                       locals: seq<LocalNotice>, boundary: Option<ClearBoundary>, notice: LocalNotice,
                                       trim: bool)
    requires Showing(IdsOf(entries), room, locals, boundary, false) && FlagsOk(entries, room, locals, [])
    requires LocalsAscend(locals) && Numbered(locals, boundary, notice.id) && (trim ==> locals != [])
    requires forall e :: e in kept ==> e in entries && (trim ==> e.id != Local(locals[0].id))
    ensures FlagsOk(kept + [NoticeEntry(notice)], room, Pushed(locals, notice, trim), [])
  {
    hide IdsOf, Pushed, LocalsAscend, Showing, Find, FindNotice, FindLocal;
    var after := Pushed(locals, notice, trim);
    forall i | 0 <= i < |kept|
      ensures FlagOk(kept[i], room, after, [])
    {
      assert kept[i] in entries;
      var j :| 0 <= j < |entries| && entries[j] == kept[i];
      assert FlagOk(entries[j], room, locals, []);
      if kept[i].id.Local? {
        PushedFinds(locals, notice, trim, kept[i].id.notice);
        ShownEarlier(entries, room, locals, boundary, notice.id, j);
      }
    }
    PushedFinds(locals, notice, trim, notice.id);
  }

  lemma {:induction false} ShownEarlier(entries: seq<ViewEntry>, room: Room, locals: seq<LocalNotice>,
                                        boundary: Option<ClearBoundary>, next: nat, i: nat)
    requires Showing(IdsOf(entries), room, locals, boundary, false) && Numbered(locals, boundary, next) && i < |entries|
    ensures entries[i].id != Local(next)
  {
    hide IdsOf, Visible;
    assert IdsOf(entries)[i] in IdsOf(entries);
    EarlierLocal(room, locals, entries[i].id, boundary, next);
  }

  /** Texts stay known, the newcomer's among them. */
  lemma {:induction false} PushedTexts(entries: seq<ViewEntry>, kept: seq<ViewEntry>, counts: Counts, measure: Measure,
                                       texts: Texts, notice: LocalNotice, text: Text)
    requires CountsOk(entries, counts, measure, texts) && forall e :: e in kept ==> e in entries
    ensures CountsOk(kept + [NoticeEntry(notice)], None, measure, texts[Local(notice.id) := text])
  {
    hide TextLines;
    forall i | 0 <= i < |kept|
      ensures kept[i].id in texts
    {
      assert kept[i] in entries;
      var j :| 0 <= j < |entries| && entries[j] == kept[i];
      assert CountOk(entries[j], CountAt(counts, j), measure, texts);
    }
  }

  // --- Whether a new own notice is in order ---------------------------------------------------------------

  /** The own notices that are left when the oldest makes room. */
  function Rest(locals: seq<LocalNotice>, trim: bool): seq<LocalNotice> {
    if trim && locals != [] then locals[1..] else locals
  }

  /** No own notice but the dropped one changes its place without it. */
  ghost predicate DropTurnsNone(ids: seq<EntryId>, room: Room, locals: seq<LocalNotice>, trim: bool) {
    var rest := Rest(locals, trim);
    forall n: nat :: Local(n) in ids && !(trim && locals != [] && n == locals[0].id) ==>
      && (forall m: nat :: Msg(m) in ids && BehindLocal(locals, n, m) ==> BehindLocal(rest, n, m))
      && (forall key: nat :: Shared(key) in ids && Parted(room, rest, n, key) ==> Parted(room, locals, n, key))
  }

  /** No shared notice that is shown stands behind a message later than the new own one. */
  ghost predicate NoneLater(ids: seq<EntryId>, room: Room, locals: seq<LocalNotice>, n: nat) {
    forall key: nat :: Shared(key) in ids ==> !Parted(room, locals, n, key)
  }

  lemma {:induction false} PushedBehind(locals: seq<LocalNotice>, notice: LocalNotice, trim: bool, n: nat, m: nat)
    requires n < notice.id && (trim ==> locals != [])
    ensures BehindLocal(Pushed(locals, notice, trim), n, m) <==> BehindLocal(Rest(locals, trim), n, m)
    ensures BehindLocal(Rest(locals, trim), n, m) ==> BehindLocal(locals, n, m)
  {
    var rest, after := Rest(locals, trim), Pushed(locals, notice, trim);
    assert after == rest + [notice];
    if BehindLocal(rest, n, m) {
      var l :| 0 <= l < |rest| && rest[l].id <= n && rest[l].after.Some? && rest[l].after.value >= m;
      assert after[l] == rest[l] && locals[if trim then l + 1 else l] == rest[l];
    }
  }

  lemma {:induction false} PushedParts(room: Room, locals: seq<LocalNotice>, notice: LocalNotice, trim: bool, n: nat,
                                       key: nat)
    requires n < notice.id && (trim ==> locals != [])
    ensures Parted(room, Pushed(locals, notice, trim), n, key) <==> Parted(room, Rest(locals, trim), n, key)
    ensures Parted(room, locals, n, key) ==> Parted(room, Rest(locals, trim), n, key)
  {
    hide BehindLocal, BehindNotice, Pushed, Rest, Find;
    forall m: nat
      ensures Parts(room, Pushed(locals, notice, trim), n, key, m) <==> Parts(room, Rest(locals, trim), n, key, m)
      ensures Parts(room, locals, n, key, m) ==> Parts(room, Rest(locals, trim), n, key, m)
    {
      PushedBehind(locals, notice, trim, n, m);
    }
  }

  lemma {:induction false} PushedAgrees(left: seq<EntryId>, room: Room, locals: seq<LocalNotice>, notice: LocalNotice,
                                        trim: bool)
    requires (trim ==> locals != [] && Local(locals[0].id) !in left)
    requires forall x :: x in left && x.Local? ==> x.notice < notice.id
    ensures Agrees(left, room, locals, room, Pushed(locals, notice, trim)) <==> DropTurnsNone(left, room, locals, trim)
  {
    hide BehindLocal, BehindNotice, Parted, Pushed, Rest;
    var after, rest := Pushed(locals, notice, trim), Rest(locals, trim);
    forall n: nat, m: nat | n < notice.id
      ensures BehindLocal(after, n, m) <==> BehindLocal(rest, n, m)
      ensures BehindLocal(rest, n, m) ==> BehindLocal(locals, n, m)
    {
      PushedBehind(locals, notice, trim, n, m);
    }
    forall n: nat, key: nat | n < notice.id
      ensures Parted(room, after, n, key) <==> Parted(room, rest, n, key)
      ensures Parted(room, locals, n, key) ==> Parted(room, rest, n, key)
    {
      PushedParts(room, locals, notice, trim, n, key);
    }
    if Agrees(left, room, locals, room, after) {
      forall n: nat, m: nat | Local(n) in left && Msg(m) in left
        ensures BehindLocal(locals, n, m) ==> BehindLocal(after, n, m)
      {
        assert Earlier(room, locals, Msg(m), Local(n)) ==> Earlier(room, after, Msg(m), Local(n));
      }
      forall n: nat, key: nat | Local(n) in left && Shared(key) in left
        ensures Parted(room, after, n, key) ==> Parted(room, locals, n, key)
      {
        assert Earlier(room, locals, Shared(key), Local(n)) ==> Earlier(room, after, Shared(key), Local(n));
      }
    }
  }

  lemma {:induction false} LastMessageIs(ids: seq<EntryId>, m: nat)
    requires Display.Ascending(ids) && Msg(m) in ids
    ensures LastMessage(ids).Some? && LastMessage(ids).value >= m
  {
    var i :| 0 <= i < |ids| && ids[i] == Msg(m);
    var front, last := ids[..|ids| - 1], ids[|ids| - 1];
    if last.Msg? {
      assert i < |ids| - 1 ==> Precedes(ids[i], last);
    } else {
      assert front[i] == Msg(m);
      LastMessageIs(front, m);
    }
  }

  /** Anchored at the newest message shown, the new notice is behind every message shown. */
  lemma {:induction false} NewestBehind(left: seq<EntryId>, ids: seq<EntryId>, room: Room, locals: seq<LocalNotice>,
                                        notice: LocalNotice)
    requires Display.Ascending(ids) && (forall x :: x in left ==> x in ids) && notice.after == LastMessage(ids)
    requires notice in locals && forall x :: x in left && x.Local? ==> x.notice < notice.id
    ensures (forall i :: 0 <= i < |left| ==> Earlier(room, locals, left[i], Local(notice.id))) <==>
            NoneLater(left, room, locals, notice.id)
  {
    hide BehindNotice, Parted, Display.Ascending, LastMessage;
    forall m: nat | Msg(m) in left
      ensures BehindLocal(locals, notice.id, m)
    {
      LastMessageIs(ids, m);
      var l :| 0 <= l < |locals| && locals[l] == notice;
      assert locals[l].after.value >= m;
    }
    hide BehindLocal;
    if forall i :: 0 <= i < |left| ==> Earlier(room, locals, left[i], Local(notice.id)) {
      forall key: nat | Shared(key) in left
        ensures !Parted(room, locals, notice.id, key)
      {
        var i :| 0 <= i < |left| && left[i] == Shared(key);
        assert Earlier(room, locals, left[i], Local(notice.id));
      }
    }
    if NoneLater(left, room, locals, notice.id) {
      forall i | 0 <= i < |left|
        ensures Earlier(room, locals, left[i], Local(notice.id))
      {
        assert left[i] in left;
      }
    }
  }

  /**
   * A new own notice goes behind everything. A rebuild agrees exactly when dropping the oldest turns no order and no
   * shared notice shown stands behind a later message.
   */
  lemma {:induction false} PushThreads(ids: seq<EntryId>, room: Room, locals: seq<LocalNotice>,
                                       boundary: Option<ClearBoundary>, notice: LocalNotice, trim: bool)
    requires Threaded(ids, room, locals) && Showing(ids, room, locals, boundary, false)
    requires Numbered(locals, boundary, notice.id) && (trim ==> locals != []) && notice.after == LastMessage(ids)
    ensures var after := Pushed(locals, notice, trim);
            Threaded(Shown(ids, locals, notice, trim), room, after) <==>
            DropTurnsNone(ids, room, locals, trim) && NoneLater(ids, room, after, notice.id)
  {
    hide Threaded, Display.Ascending, Visible, Hidden, Numbered, LastMessage, Without, Agrees, Sublist, Parted,
         BehindLocal, Rest, Earlier;
    var after := Pushed(locals, notice, trim);
    var left := if trim then Without(ids, Local(locals[0].id)) else ids;
    WholeList(ids);
    if trim {
      RemoveMembers(ids, Local(locals[0].id));
      WithoutSublist(ids, Local(locals[0].id));
    }
    forall x | x in left && x.Local?
      ensures x.notice < notice.id
    {
      EarlierLocal(room, locals, x, boundary, notice.id);
    }
    LeftThreads(left, ids, room, locals, room, after);
    PushedAgrees(left, room, locals, notice, trim);
    assert after[|after| - 1] == notice;
    NewestBehind(left, ids, room, after, notice);
    InsertThreads(left, |left|, Local(notice.id), room, after);
    assert InsertAt(left, |left|, Local(notice.id)) == Shown(ids, locals, notice, trim);
  }

  /** A view that shows every message and drops nothing puts its new notice where a rebuild would. */
  lemma {:induction false} PushKeeps(ids: seq<EntryId>, room: Room, locals: seq<LocalNotice>, notice: LocalNotice)
    requires Display.Ascending(ids) && notice.after == LastMessage(ids)
    requires forall m: nat :: Visible(room, locals, Msg(m)) ==> Msg(m) in ids
    ensures DropTurnsNone(ids, room, locals, false) && NoneLater(ids, room, Pushed(locals, notice, false), notice.id)
  {
    hide Display.Ascending, BehindNotice, LastMessage, Find;
    var after := locals + [notice];
    forall m: nat | Visible(room, after, Msg(m))
      ensures BehindLocal(after, notice.id, m)
    {
      assert Visible(room, locals, Msg(m));
      LastMessageIs(ids, m);
      assert after[|locals|].after.value >= m;
    }
  }

  /**
   * Dropping the oldest can turn the order: it was anchored at a message deleted since and held the next one behind a
   * message that it stands ahead of by itself.
   */
  lemma {:induction false} DroppedHoldsNext()
    ensures var room := Room([Said(5, false), Said(7, false), Said(10, true)], []);
            var locals, notice := [Own(1, 10), Own(2, 5)], Own(3, 7);
            var ids := [Msg(5), Msg(7), Local(1), Local(2)];
            var shown, rebuilt := [Msg(5), Msg(7), Local(2), Local(3)], [Msg(5), Local(2), Msg(7), Local(3)];
            && Threaded(ids, room, locals) && InStep(ids, room, locals, None)
            && Numbered(locals, None, 3) && notice.after == LastMessage(ids)
            && Shown(ids, locals, notice, true) == shown && Pushed(locals, notice, true) == [Own(2, 5), Own(3, 7)]
            && !Threaded(shown, room, Pushed(locals, notice, true))
            && Threaded(rebuilt, room, Pushed(locals, notice, true))
  {
    hide Find, FindNotice, FindLocal, BehindNotice, Parted, IndexOf, BehindLocal, Visible;
    var room := Room([Said(5, false), Said(7, false), Said(10, true)], []);
    var locals, notice := [Own(1, 10), Own(2, 5)], Own(3, 7);
    var ids := [Msg(5), Msg(7), Local(1), Local(2)];
    var after := [Own(2, 5), Own(3, 7)];
    assert (locals + [notice])[1..] == after;
    assert ids[2] == Local(1) && IndexOf(ids, Local(1)) == 2;
    assert ids[..2] + ids[3..] + [Local(3)] == [Msg(5), Msg(7), Local(2), Local(3)];
    LastShown();
    forall m: nat
      ensures BehindLocal(locals, 1, m) <==> m <= 10
      ensures BehindLocal(locals, 2, m) <==> m <= 10
      ensures BehindLocal(after, 2, m) <==> m <= 5
      ensures BehindLocal(after, 3, m) <==> m <= 7
    {
      TwoOwn(1, 10, 2, 5, m);
      TwoOwn(2, 5, 3, 7, m);
    }
    var shown := [Msg(5), Msg(7), Local(2), Local(3)];
    assert !Earlier(room, after, shown[1], shown[2]);
    ShownThere(room, locals, ids);
  }

  lemma {:induction false} LastShown()
    ensures LastMessage([Msg(5), Msg(7), Local(1), Local(2)]) == Some(7)
  {
    var ids := [Msg(5), Msg(7), Local(1), Local(2)];
    assert ids[..3] == [Msg(5), Msg(7), Local(1)] && ids[..3][..2] == [Msg(5), Msg(7)];
    assert LastMessage([Msg(5), Msg(7)]) == Some(7);
    assert LastMessage(ids[..3]) == Some(7);
  }

  lemma {:induction false} TwoOwn(a: nat, x: nat, b: nat, y: nat, m: nat)
    requires a < b
    ensures BehindLocal([Own(a, x), Own(b, y)], a, m) <==> m <= x
    ensures BehindLocal([Own(a, x), Own(b, y)], b, m) <==> m <= x || m <= y
  {
    var both := [Own(a, x), Own(b, y)];
    assert both[0].after.value == x && both[1].after.value == y;
  }

  lemma {:induction false} ShownThere(room: Room, locals: seq<LocalNotice>, ids: seq<EntryId>)
    requires room == Room([Said(5, false), Said(7, false), Said(10, true)], [])
    requires locals == [Own(1, 10), Own(2, 5)] && ids == [Msg(5), Msg(7), Local(1), Local(2)]
    ensures InStep(ids, room, locals, None)
  {
    hide Visible;
    forall id
      ensures id in ids <==> Visible(room, locals, id)
    {
      VisibleAt(room, locals, id);
      assert room.messages[0].id == 5 && room.messages[1].id == 7 && room.messages[2].deleted;
      assert locals[0].id == 1 && locals[1].id == 2;
    }
  }
}
