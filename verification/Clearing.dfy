/** What a `/clear` hides, and when it hides everything. */
module Clearing {
  import opened Arithmetic
  import opened History
  import opened Display
  import opened Layout

  function Raised(highest: Option<nat>, id: nat): Option<nat> {
    Some(if highest.Some? then Max(highest.value, id) else id)
  }

  function Observe(boundary: ClearBoundary, id: EntryId): ClearBoundary {
    match id
    case Msg(m) => boundary.(message := Raised(boundary.message, m))
    case Shared(k) => boundary.(notice := Raised(boundary.notice, k))
    case Local(n) => boundary.(local := Raised(boundary.local, n))
  }

  /** The boundary that the shown ids give. */
  function BoundaryOf(ids: seq<EntryId>): ClearBoundary {
    if ids == [] then ClearBoundary(None, None, None)
    else Observe(BoundaryOf(ids[..|ids| - 1]), ids[|ids| - 1])
  }

  /** The boundary a clear leaves; none when nothing was shown. */
  function ClearedTo(ids: seq<EntryId>): Option<ClearBoundary> {
    if ids == [] then None else Some(BoundaryOf(ids))
  }

  method ObserveAll(ids: seq<EntryId>) returns (boundary: ClearBoundary)
    ensures boundary == BoundaryOf(ids)
  {
    boundary := ClearBoundary(None, None, None);
    for i := 0 to |ids|
      invariant boundary == BoundaryOf(ids[..i])
    {
      assert ids[..i + 1][..i] == ids[..i];
      boundary := Observe(boundary, ids[i]);
    }
    assert ids[..|ids|] == ids;
  }

  predicate NoLater(a: EntryId, b: EntryId) {
    match (a, b)
    case (Msg(m), Msg(n)) => m <= n
    case (Shared(m), Shared(n)) => m <= n
    case (Local(m), Local(n)) => m <= n
    case _ => false
  }

  /** It hides exactly the ids no later than a shown one of their kind. */
  lemma {:induction false} BoundaryHides(ids: seq<EntryId>, id: EntryId)
    ensures BoundaryOf(ids).Hides(id) <==> exists i :: 0 <= i < |ids| && NoLater(id, ids[i])
  {
    if ids != [] {
      var front, last := ids[..|ids| - 1], ids[|ids| - 1];
      BoundaryHides(front, id);
      hide BoundaryOf;
      ObserveHides(BoundaryOf(front), last, id);
      assert BoundaryOf(ids) == Observe(BoundaryOf(front), last) by {
        BoundaryNext(ids);
      }
      assert forall i :: 0 <= i < |front| ==> front[i] == ids[i];
    }
  }

  lemma {:induction false} BoundaryNext(ids: seq<EntryId>)
    requires ids != []
    ensures BoundaryOf(ids) == Observe(BoundaryOf(ids[..|ids| - 1]), ids[|ids| - 1])
  {
  }

  lemma {:induction false} ObserveHides(boundary: ClearBoundary, last: EntryId, id: EntryId)
    ensures Observe(boundary, last).Hides(id) <==> boundary.Hides(id) || NoLater(id, last)
  {
  }

  /** The kinds a room keeps across a clear; a view's own notices are discarded by it. */
  ghost predicate Covered(ids: seq<EntryId>, room: Room, sort: Sort) {
    (exists id :: id in ids && OfSort(id, sort)) || forall id :: OfSort(id, sort) ==> !Visible(room, [], id)
  }

  /**
   * Clearing a view that is in step leaves nothing to show exactly when, of messages and of shared notices alike,
   * one was on screen or none is visible at all. A kind hidden by an earlier clear alone comes back.
   */
  lemma {:induction false} ClearIsComplete(ids: seq<EntryId>, room: Room, locals: seq<LocalNotice>,
                                           boundary: Option<ClearBoundary>)
    requires InStep(ids, room, locals, boundary)
    ensures InStep([], room, [], ClearedTo(ids)) <==>
              Covered(ids, room, Messages) && Covered(ids, room, Notices)
  {
    hide Find, FindNotice, FindLocal, BoundaryOf, Display.Ascending, ClearBoundary.Hides;
    forall id
      ensures BoundaryOf(ids).Hides(id) <==> exists i :: 0 <= i < |ids| && NoLater(id, ids[i])
    {
      BoundaryHides(ids, id);
    }
    CoveredHides(ids, room, locals, boundary, Messages);
    CoveredHides(ids, room, locals, boundary, Notices);
    NoLocals(room);
  }

  lemma {:induction false} NoLocals(room: Room)
    ensures forall id: EntryId :: id.Local? ==> !Visible(room, [], id)
    ensures Display.Ascending([])
  {
  }

  lemma {:induction false} CoveredHides(ids: seq<EntryId>, room: Room, locals: seq<LocalNotice>,
                                        boundary: Option<ClearBoundary>, sort: Sort)
    requires InStep(ids, room, locals, boundary) && sort != Locals
    ensures Covered(ids, room, sort) <==>
              forall id :: OfSort(id, sort) && Visible(room, [], id) ==> BoundaryOf(ids).Hides(id)
  {
    hide Find, FindNotice, FindLocal, BoundaryOf;
    forall id | OfSort(id, sort) && Visible(room, [], id)
      ensures BoundaryOf(ids).Hides(id) <==> exists x :: x in ids && OfSort(x, sort)
    {
      BoundaryHides(ids, id);
      if x :| x in ids && OfSort(x, sort) {
        ShownHides(ids, room, locals, boundary, id, x);
      }
      if i :| 0 <= i < |ids| && NoLater(id, ids[i]) {
        assert ids[i] in ids && OfSort(ids[i], sort);
      }
    }
  }

  /** With one of its kind on screen, a visible id is on screen or was already hidden below that one. */
  lemma {:induction false} ShownHides(ids: seq<EntryId>, room: Room, locals: seq<LocalNotice>,
                                      boundary: Option<ClearBoundary>, id: EntryId, shown: EntryId)
    requires InStep(ids, room, locals, boundary) && shown in ids
    requires (id.Msg? && shown.Msg?) || (id.Shared? && shown.Shared?)
    requires Visible(room, [], id)
    ensures exists i :: 0 <= i < |ids| && NoLater(id, ids[i])
  {
    hide Find, FindNotice, FindLocal;
    assert Visible(room, locals, id);
    if id in ids {
      var i :| 0 <= i < |ids| && ids[i] == id;
      assert NoLater(id, ids[i]);
    } else {
      var i :| 0 <= i < |ids| && ids[i] == shown;
      assert !Hidden(boundary, shown) && Hidden(boundary, id);
      assert NoLater(id, ids[i]);
    }
  }

  /** The smallest case: a second clear of an empty screen forgets the first. */
  lemma {:induction false} SecondClearForgets()
    ensures var body := Body(0, []);
            var room := Room([Message(1, false, body, Label("", 0, false, false, false))], []);
            InStep([], room, [], ClearedTo([Msg(1)])) && !InStep([], room, [], ClearedTo([]))
  {
    var body := Body(0, []);
    var message := Message(1, false, body, Label("", 0, false, false, false));
    var room := Room([message], []);
    assert ClearedTo([Msg(1)]) == Some(ClearBoundary(Some(1), None, None)) by {
      assert [Msg(1)][..0] == [];
    }
    forall id
      ensures Visible(room, [], id) <==> id == Msg(1)
    {
      assert room.messages[..0] == [];
    }
    assert Visible(room, [], Msg(1)) && !Hidden(ClearedTo([]), Msg(1));
  }
}
