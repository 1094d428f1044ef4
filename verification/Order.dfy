/** Lists against the order of the anchors: which of two ids comes first, before and after a change. */
module Order {
  import opened History
  import opened Display
  import opened Sequence

  // --- Which of two ids is shown first -------------------------------------------------------------

  ghost predicate Before(ids: seq<EntryId>, x: EntryId, y: EntryId) {
    exists i, j :: 0 <= i < j < |ids| && ids[i] == x && ids[j] == y
  }

  lemma {:induction false} BeforeThreads(ids: seq<EntryId>, room: Room, locals: seq<LocalNotice>)
    ensures Threaded(ids, room, locals) <==> forall x, y :: Before(ids, x, y) ==> Earlier(room, locals, x, y)
  {
    hide Earlier;
    if forall x, y :: Before(ids, x, y) ==> Earlier(room, locals, x, y) {
      forall i, j | 0 <= i < j < |ids|
        ensures Earlier(room, locals, ids[i], ids[j])
      {
        assert Before(ids, ids[i], ids[j]);
      }
    }
  }

  lemma {:induction false} OneEarlier(room: Room, locals: seq<LocalNotice>, x: EntryId, y: EntryId)
    ensures if x == y then !Earlier(room, locals, x, y)
            else Earlier(room, locals, x, y) <==> !Earlier(room, locals, y, x)
  {
    hide BehindNotice, BehindLocal, Parted;
  }

  /** A threaded list shows exactly the earlier one first. */
  lemma {:induction false} ShownOrder(ids: seq<EntryId>, room: Room, locals: seq<LocalNotice>, x: EntryId, y: EntryId)
    requires Threaded(ids, room, locals) && x in ids && y in ids
    ensures Before(ids, x, y) <==> Earlier(room, locals, x, y)
  {
    hide Earlier;
    OneEarlier(room, locals, x, y);
    var i :| 0 <= i < |ids| && ids[i] == x;
    var j :| 0 <= j < |ids| && ids[j] == y;
  }

  lemma {:induction false} BeforeJoined(a: seq<EntryId>, b: seq<EntryId>, x: EntryId, y: EntryId)
    ensures Before(a + b, x, y) <==> Before(a, x, y) || Before(b, x, y) || (x in a && y in b)
  {
    var all := a + b;
    if Before(all, x, y) {
      var i, j :| 0 <= i < j < |all| && all[i] == x && all[j] == y;
      assert i < |a| ==> a[i] == x;
      assert j < |a| ==> a[j] == y;
      assert |a| <= j ==> b[j - |a|] == y;
      assert |a| <= i ==> b[i - |a|] == x;
    }
    if Before(a, x, y) {
      var i, j :| 0 <= i < j < |a| && a[i] == x && a[j] == y;
      assert all[i] == x && all[j] == y;
    }
    if Before(b, x, y) {
      var i, j :| 0 <= i < j < |b| && b[i] == x && b[j] == y;
      assert all[|a| + i] == x && all[|a| + j] == y;
    }
    if x in a && y in b {
      var i :| 0 <= i < |a| && a[i] == x;
      var j :| 0 <= j < |b| && b[j] == y;
      assert all[i] == x && all[|a| + j] == y;
    }
  }

  lemma {:induction false} BeforePush(ids: seq<EntryId>, z: EntryId, x: EntryId, y: EntryId)
    ensures Before(ids + [z], x, y) <==> Before(ids, x, y) || (x in ids && y == z)
  {
    BeforeJoined(ids, [z], x, y);
  }

  lemma {:induction false} InsertBefore(ids: seq<EntryId>, at: nat, z: EntryId, x: EntryId, y: EntryId)
    requires at <= |ids|
    ensures Before(InsertAt(ids, at, z), x, y) <==>
            Before(ids, x, y) || (x in ids[..at] && y == z) || (x == z && y in ids[at..])
  {
    hide Before;
    var front, back := ids[..at], ids[at..];
    assert ids == front + back;
    BeforeJoined(front, back, x, y);
    BeforeJoined(front + [z], back, x, y);
    BeforePush(front, z, x, y);
  }

  // --- What is left of a list ------------------------------------------------------------------------

  /** `left` is part of `ids`, in the same order. */
  ghost predicate Sublist(left: seq<EntryId>, ids: seq<EntryId>) {
    && (forall x :: x in left ==> x in ids)
    && forall x, y :: Before(left, x, y) <==> Before(ids, x, y) && x in left && y in left
  }

  lemma {:induction false} WholeList(ids: seq<EntryId>)
    ensures Sublist(ids, ids)
  {
    hide Before;
    forall x, y
      ensures Before(ids, x, y) ==> x in ids && y in ids
    {
      BeforeShown(ids, x, y);
    }
  }

  lemma {:induction false} RemovedBefore(ids: seq<EntryId>, at: nat, x: EntryId, y: EntryId)
    requires at < |ids| && x != ids[at] && y != ids[at]
    ensures Before(RemoveAt(ids, at), x, y) <==> Before(ids, x, y)
  {
    hide Before;
    var front, back := ids[..at], ids[at + 1..];
    assert ids == front + [ids[at]] + back;
    BeforeJoined(front, back, x, y);
    BeforeJoined(front + [ids[at]], back, x, y);
    BeforePush(front, ids[at], x, y);
  }

  lemma {:induction false} WithoutSublist(ids: seq<EntryId>, id: EntryId)
    requires Display.Ascending(ids)
    ensures Sublist(Without(ids, id), ids)
  {
    hide Display.Ascending, IndexOf, Before, RemoveAt;
    RemoveMembers(ids, id);
    var at, left := IndexOf(ids, id), Without(ids, id);
    if at < |ids| {
      forall x, y
        ensures Before(left, x, y) <==> Before(ids, x, y) && x in left && y in left
      {
        BeforeShown(left, x, y);
        if x in left && y in left {
          RemovedBefore(ids, at, x, y);
        }
      }
    } else {
      WholeList(ids);
    }
  }

  lemma {:induction false} SurvivorsBefore(ids: seq<EntryId>, w: nat, x: EntryId, y: EntryId)
    ensures x in Survivors(ids, w) <==> x in ids && !Evicted(x, w)
    ensures Before(Survivors(ids, w), x, y) <==> Before(ids, x, y) && !Evicted(x, w) && !Evicted(y, w)
  {
    hide Before;
    if ids == [] {
      assert !Before([], x, y) by {
        NothingBefore(x, y);
      }
    } else {
      var front, last := ids[..|ids| - 1], ids[|ids| - 1];
      assert ids == front + [last];
      SurvivorsBefore(front, w, x, y);
      BeforePush(front, last, x, y);
      BeforePush(Survivors(front, w), last, x, y);
      assert Survivors(ids, w) == if Evicted(last, w) then Survivors(front, w) else Survivors(front, w) + [last];
      BeforeShown(front, x, y);
    }
  }

  lemma {:induction false} NothingBefore(x: EntryId, y: EntryId)
    ensures !Before([], x, y)
  {
  }

  lemma {:induction false} SurvivorsSublist(ids: seq<EntryId>, w: nat)
    ensures Sublist(Survivors(ids, w), ids)
  {
    hide Survivors, Before, Evicted;
    forall x, y
      ensures x in Survivors(ids, w) ==> x in ids
      ensures Before(Survivors(ids, w), x, y) <==>
              Before(ids, x, y) && x in Survivors(ids, w) && y in Survivors(ids, w)
    {
      SurvivorsBefore(ids, w, x, y);
      SurvivorsBefore(ids, w, y, x);
      BeforeShown(ids, x, y);
    }
  }

  lemma {:induction false} BeforeShown(ids: seq<EntryId>, x: EntryId, y: EntryId)
    ensures Before(ids, x, y) ==> x in ids && y in ids
  {
  }

  lemma {:induction false} WithoutBefore(ids: seq<EntryId>, id: EntryId, x: EntryId, y: EntryId)
    requires Display.Ascending(ids)
    ensures Before(Without(ids, id), x, y) <==> Before(ids, x, y) && x != id && y != id
  {
    hide Before, Display.Ascending, Without;
    RemoveMembers(ids, id);
    WithoutSublist(ids, id);
    BeforeShown(ids, x, y);
  }

  // --- Two orders of one list ----------------------------------------------------------------------

  /** What is earlier among `ids` in one state is earlier in the other. */
  ghost predicate Agrees(ids: seq<EntryId>, a: Room, was: seq<LocalNotice>, b: Room, locals: seq<LocalNotice>) {
    forall x, y :: x in ids && y in ids && Earlier(a, was, x, y) ==> Earlier(b, locals, x, y)
  }

  /** What is left of a threaded list is threaded in a new state exactly when the two states agree about it. */
  lemma {:induction false} LeftThreads(left: seq<EntryId>, ids: seq<EntryId>, a: Room, was: seq<LocalNotice>, b: Room,
                                       locals: seq<LocalNotice>)
    requires Threaded(ids, a, was) && Sublist(left, ids)
    ensures Threaded(left, b, locals) <==> Agrees(left, a, was, b, locals)
  {
    hide Earlier, Before;
    BeforeThreads(left, b, locals);
    forall x, y | x in left && y in left
      ensures Before(left, x, y) <==> Earlier(a, was, x, y)
    {
      ShownOrder(ids, a, was, x, y);
    }
    forall x, y | Before(left, x, y)
      ensures x in left && y in left
    {
      BeforeShown(left, x, y);
    }
  }

  /** Shared notices stand behind the same messages in both rooms. */
  ghost predicate SameAnchors(a: Room, b: Room) {
    forall key: nat, m: nat :: BehindNotice(b.notices, key, m) <==> BehindNotice(a.notices, key, m)
  }

  ghost predicate SameParting(ids: seq<EntryId>, a: Room, b: Room, locals: seq<LocalNotice>) {
    forall n: nat, key: nat :: Local(n) in ids && Shared(key) in ids ==>
      (Parted(a, locals, n, key) <==> Parted(b, locals, n, key))
  }

  /** While anchors stay, only the order between the two kinds of notices can turn. */
  lemma {:induction false} PartingDecides(ids: seq<EntryId>, a: Room, b: Room, locals: seq<LocalNotice>)
    requires SameAnchors(a, b)
    ensures Agrees(ids, a, locals, b, locals) <==> SameParting(ids, a, b, locals)
  {
    hide BehindNotice, BehindLocal, Parted;
    if Agrees(ids, a, locals, b, locals) {
      forall n: nat, key: nat | Local(n) in ids && Shared(key) in ids
        ensures Parted(a, locals, n, key) <==> Parted(b, locals, n, key)
      {
        assert Earlier(a, locals, Local(n), Shared(key)) <==> Parted(a, locals, n, key);
        assert Earlier(b, locals, Local(n), Shared(key)) <==> Parted(b, locals, n, key);
        assert Earlier(a, locals, Shared(key), Local(n)) <==> !Parted(a, locals, n, key);
        assert Earlier(b, locals, Shared(key), Local(n)) <==> !Parted(b, locals, n, key);
      }
    }
  }

  lemma {:induction false} InsertThreads(ids: seq<EntryId>, at: nat, z: EntryId, room: Room, locals: seq<LocalNotice>)
    requires at <= |ids|
    ensures Threaded(InsertAt(ids, at, z), room, locals) <==>
            && Threaded(ids, room, locals)
            && (forall i :: 0 <= i < at ==> Earlier(room, locals, ids[i], z))
            && (forall i :: at <= i < |ids| ==> Earlier(room, locals, z, ids[i]))
  {
    hide Earlier;
    var more := InsertAt(ids, at, z);
    assert forall i :: 0 <= i < |ids| ==> more[if i < at then i else i + 1] == ids[i];
    if Threaded(more, room, locals) {
      forall i, j | 0 <= i < j < |ids|
        ensures Earlier(room, locals, ids[i], ids[j])
      {
        assert Earlier(room, locals, more[if i < at then i else i + 1], more[if j < at then j else j + 1]);
      }
      assert forall i :: 0 <= i < at ==> Earlier(room, locals, more[i], more[at]);
      forall i | at <= i < |ids|
        ensures Earlier(room, locals, z, ids[i])
      {
        assert Earlier(room, locals, more[at], more[i + 1]);
      }
    }
  }
}
