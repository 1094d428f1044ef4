/** When a list that replays a whole batch against its end is the list a rebuild would give. */
module Batch {
  import opened Arithmetic
  import opened History
  import opened Display
  import opened Sequence
  import opened Order

  /** Whether `d`, read against `end`, takes `x` off the list. */
  predicate Drops(d: Delta, x: EntryId, end: Room, locals: seq<LocalNotice>) {
    match d
    case Replaced(m) => x == Msg(m) && !Visible(end, locals, x)
    case Tombstoned(m) => x == Msg(m)
    case EvictedThrough(w) => Evicted(x, w)
    case NoticeRemoved(key) => x == Shared(key)
    case _ => false
  }

  ghost predicate Stays(x: EntryId, deltas: seq<Delta>, end: Room, locals: seq<LocalNotice>) {
    forall d :: d in deltas ==> !Drops(d, x, end, locals)
  }

  /** Whom `d` puts on the list, if anyone. */
  function Newcomer(d: Delta, end: Room, locals: seq<LocalNotice>, boundary: Option<ClearBoundary>): Option<EntryId> {
    match d
    case Appended(m) => Entrant(Msg(m), end, locals, boundary)
    case Inserted(m) => Entrant(Msg(m), end, locals, boundary)
    case NoticeAdded(key) => Entrant(Shared(key), end, locals, boundary)
    case _ => None
  }

  function Entrant(x: EntryId, end: Room, locals: seq<LocalNotice>, boundary: Option<ClearBoundary>): Option<EntryId> {
    if Hidden(boundary, x) || !Visible(end, locals, x) then None else Some(x)
  }

  /** ... and where. */
  function Place(ids: seq<EntryId>, d: Delta): (at: nat)
    ensures at <= |ids|
  {
    if d.Inserted? then InsertPosition(ids, d.id) else |ids|
  }

  /** Of two ids that stay, the earlier one at the end is shown first. */
  ghost predicate InOrder(ids: seq<EntryId>, deltas: seq<Delta>, end: Room, locals: seq<LocalNotice>) {
    forall x, y :: Before(ids, x, y) && Stays(x, deltas, end, locals) && Stays(y, deltas, end, locals) ==>
      Earlier(end, locals, x, y)
  }

  /** A newcomer that stays is put behind those that stay and are earlier at the end, and ahead of the later ones. */
  ghost predicate Fits(ids: seq<EntryId>, d: Delta, rest: seq<Delta>, end: Room, locals: seq<LocalNotice>,
                       boundary: Option<ClearBoundary>) {
    var z := Newcomer(d, end, locals, boundary);
    z.Some? && Stays(z.value, rest, end, locals) ==>
      && (forall x :: x in ids[..Place(ids, d)] && Stays(x, rest, end, locals) ==> Earlier(end, locals, x, z.value))
      && (forall x :: x in ids[Place(ids, d)..] && Stays(x, rest, end, locals) ==> Earlier(end, locals, z.value, x))
  }

  ghost predicate AllFit(ids: seq<EntryId>, deltas: seq<Delta>, end: Room, locals: seq<LocalNotice>,
                         boundary: Option<ClearBoundary>)
    decreases deltas
  {
    deltas != [] ==>
      && Fits(ids, deltas[0], deltas[1..], end, locals, boundary)
      && AllFit(Step(ids, deltas[0], end, locals, boundary), deltas[1..], end, locals, boundary)
  }

  /** What one delta makes of the order on the list. */
  lemma {:induction false} StepBefore(ids: seq<EntryId>, d: Delta, end: Room, locals: seq<LocalNotice>,
                                      boundary: Option<ClearBoundary>, x: EntryId, y: EntryId)
    requires Display.Ascending(ids) && !d.Relaid?
    ensures var z, at := Newcomer(d, end, locals, boundary), Place(ids, d);
            Before(Step(ids, d, end, locals, boundary), x, y) <==>
            || (Before(ids, x, y) && !Drops(d, x, end, locals) && !Drops(d, y, end, locals))
            || (z.Some? && ((x in ids[..at] && y == z.value) || (x == z.value && y in ids[at..])))
  {
    hide Before, Display.Ascending, Visible, Hidden, InsertPosition, InsertAt, Without, Survivors;
    BeforeShown(ids, x, y);
    match d
    case Appended(m) => InsertBefore(ids, |ids|, Msg(m), x, y);
    case Inserted(m) => InsertBefore(ids, InsertPosition(ids, m), Msg(m), x, y);
    case NoticeAdded(key) => InsertBefore(ids, |ids|, Shared(key), x, y);
    case Replaced(m) => WithoutBefore(ids, Msg(m), x, y);
    case Tombstoned(m) => WithoutBefore(ids, Msg(m), x, y);
    case NoticeRemoved(key) => WithoutBefore(ids, Shared(key), x, y);
    case EvictedThrough(w) => SurvivorsBefore(ids, w, x, y);
    case Relabelled =>
  }

  lemma {:induction false} StepInOrder(ids: seq<EntryId>, d: Delta, rest: seq<Delta>, end: Room,
                                       locals: seq<LocalNotice>, boundary: Option<ClearBoundary>)
    requires Display.Ascending(ids) && !d.Relaid?
    ensures InOrder(Step(ids, d, end, locals, boundary), rest, end, locals) <==>
            InOrder(ids, [d] + rest, end, locals) && Fits(ids, d, rest, end, locals, boundary)
  {
    hide Before, Display.Ascending, Earlier, Newcomer, Place, Step, Stays, Drops;
    var next := Step(ids, d, end, locals, boundary);
    var z, at := Newcomer(d, end, locals, boundary), Place(ids, d);
    forall x, y
      ensures Before(next, x, y) <==>
              || (Before(ids, x, y) && !Drops(d, x, end, locals) && !Drops(d, y, end, locals))
              || (z.Some? && ((x in ids[..at] && y == z.value) || (x == z.value && y in ids[at..])))
    {
      StepBefore(ids, d, end, locals, boundary, x, y);
    }
    forall x
      ensures Stays(x, [d] + rest, end, locals) <==> !Drops(d, x, end, locals) && Stays(x, rest, end, locals)
    {
      StaysOn(x, d, rest, end, locals);
    }
    if InOrder(next, rest, end, locals) && z.Some? {
      assert forall x :: x in ids[..at] ==> Before(next, x, z.value);
      assert forall x :: x in ids[at..] ==> Before(next, z.value, x);
    }
  }

  lemma {:induction false} StaysOn(x: EntryId, d: Delta, rest: seq<Delta>, end: Room, locals: seq<LocalNotice>)
    ensures Stays(x, [d] + rest, end, locals) <==> !Drops(d, x, end, locals) && Stays(x, rest, end, locals)
  {
    hide Drops;
    assert d in [d] + rest;
    assert forall e :: e in rest ==> e in [d] + rest;
  }

  lemma {:induction false} StaysNothing(ids: seq<EntryId>, end: Room, locals: seq<LocalNotice>)
    ensures InOrder(ids, [], end, locals) <==> Threaded(ids, end, locals)
  {
    hide Earlier, Before;
    BeforeThreads(ids, end, locals);
  }

  /** The list a batch leaves is in order exactly when what stays was in order and every newcomer that stays fits. */
  lemma {:induction false} BatchThreads(ids: seq<EntryId>, moments: seq<Room>, deltas: seq<Delta>, end: Room,
                                        locals: seq<LocalNotice>, boundary: Option<ClearBoundary>, all: bool)
    requires Chain(moments, deltas) && Relaid !in deltas && Catching(ids, moments[0], end, locals, boundary, all)
    ensures Threaded(Replayed(ids, deltas, end, locals, boundary), end, locals) <==>
            InOrder(ids, deltas, end, locals) && AllFit(ids, deltas, end, locals, boundary)
    decreases deltas
  {
    hide Evolves, Catching, Step, InOrder, Fits, Threaded;
    if deltas == [] {
      StaysNothing(ids, end, locals);
    } else {
      var d, rest := deltas[0], deltas[1..];
      assert deltas == [d] + rest && d in deltas && Linked(moments, deltas, 0);
      CatchingAscends(ids, moments[0], end, locals, boundary, all);
      StepInOrder(ids, d, rest, end, locals, boundary);
      StepCatches(ids, d, moments[0], moments[1], end, locals, boundary, all);
      ChainTail(moments, deltas);
      BatchThreads(Step(ids, d, end, locals, boundary), moments[1..], rest, end, locals, boundary, all);
    }
  }

  lemma {:induction false} CatchingAscends(ids: seq<EntryId>, now: Room, end: Room, locals: seq<LocalNotice>,
                                           boundary: Option<ClearBoundary>, all: bool)
    requires Catching(ids, now, end, locals, boundary, all)
    ensures Display.Ascending(ids)
  {
    hide Display.Ascending, Resident, Visible, Hidden;
  }

  /** The earlier of two shown ids that stay is still the earlier one at the end. */
  ghost predicate Settled(ids: seq<EntryId>, deltas: seq<Delta>, start: Room, end: Room, locals: seq<LocalNotice>) {
    forall x, y ::
      x in ids && y in ids && Earlier(start, locals, x, y)
      && Stays(x, deltas, end, locals) && Stays(y, deltas, end, locals) ==>
        Earlier(end, locals, x, y)
  }

  /**
   * From a list in order, replaying a batch against the end state gives the very list a rebuild gives exactly when the
   * order of what stays did not turn and every newcomer that stays fits.
   */
  lemma {:induction false} ReplayIsSequence(ids: seq<EntryId>, moments: seq<Room>, deltas: seq<Delta>,
                                            locals: seq<LocalNotice>, boundary: Option<ClearBoundary>,
                                            rebuilt: seq<EntryId>)
    requires Chain(moments, deltas) && Relaid !in deltas
    requires InStep(ids, moments[0], locals, boundary) && Threaded(ids, moments[0], locals)
    requires InStep(rebuilt, moments[|deltas|], locals, boundary) && Threaded(rebuilt, moments[|deltas|], locals)
    ensures var end := moments[|deltas|];
            Replayed(ids, deltas, end, locals, boundary) == rebuilt <==>
            Settled(ids, deltas, moments[0], end, locals) && AllFit(ids, deltas, end, locals, boundary)
  {
    hide Evolves, Threaded, Replayed, AllFit, Stays, Visible, Hidden, Earlier, Before, Display.Ascending;
    var start, end := moments[0], moments[|deltas|];
    var replayed := Replayed(ids, deltas, end, locals, boundary);
    assert InStep(replayed, end, locals, boundary) by {
      ReplayIsRebuild(ids, moments, deltas, locals, boundary);
    }
    assert Catching(ids, start, end, locals, boundary, true) by {
      ShowingAll(ids, start, locals, boundary);
      StartCatching(ids, start, end, locals, boundary, true);
    }
    hide Catching;
    BatchThreads(ids, moments, deltas, end, locals, boundary, true);
    forall x, y
      ensures Before(ids, x, y) <==> x in ids && y in ids && Earlier(start, locals, x, y)
    {
      BeforeShown(ids, x, y);
      if x in ids && y in ids {
        ShownOrder(ids, start, locals, x, y);
      }
    }
    if Threaded(replayed, end, locals) {
      ThreadedUnique(replayed, rebuilt, end, locals);
    }
  }
}
