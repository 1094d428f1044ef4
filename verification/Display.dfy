/** Which entries a view shows, and why catching up one delta at a time against the end state gets there. */
module Display {
  import opened Arithmetic
  import opened History
  import opened Layout

  datatype EntryId = Msg(id: nat) | Shared(key: nat) | Local(notice: nat)

  /** A notice of this view alone, threaded after a message. */
  datatype LocalNotice = LocalNotice(id: nat, after: Option<nat>, body: Body, mark: Label)

  /** The highest message, shared notice and own notice a `/clear` hid. */
  datatype ClearBoundary = ClearBoundary(message: Option<nat>, notice: Option<nat>, local: Option<nat>) {
    predicate Hides(id: EntryId) {
      match id
      case Msg(m) => message.Some? && m <= message.value
      case Shared(k) => notice.Some? && k <= notice.value
      case Local(n) => local.Some? && n <= local.value
    }
  }

  predicate Hidden(boundary: Option<ClearBoundary>, id: EntryId) {
    boundary.Some? && boundary.value.Hides(id)
  }

  function FindLocal(locals: seq<LocalNotice>, id: nat): (found: Option<LocalNotice>)
    ensures found.Some? ==> found.value in locals && found.value.id == id
    ensures found.None? ==> forall i :: 0 <= i < |locals| ==> locals[i].id != id
  {
    if locals == [] then None
    else if locals[|locals| - 1].id == id then Some(locals[|locals| - 1])
    else FindLocal(locals[..|locals| - 1], id)
  }

  /** Whether the id still names something in the log, hidden tombstones included. */
  ghost predicate Resident(room: Room, locals: seq<LocalNotice>, id: EntryId) {
    match id
    case Msg(m) => Find(room, m).Some?
    case Shared(k) => FindNotice(room, k).Some?
    case Local(n) => FindLocal(locals, n).Some?
  }

  /** Whether the id resolves to a record a view may show. */
  predicate Visible(room: Room, locals: seq<LocalNotice>, id: EntryId) {
    match id
    case Msg(m) => Find(room, m).Some? && !Find(room, m).value.deleted
    case Shared(k) => FindNotice(room, k).Some?
    case Local(n) => FindLocal(locals, n).Some?
  }

  ghost predicate Precedes(a: EntryId, b: EntryId) {
    match (a, b)
    case (Msg(m), Msg(n)) => m < n
    case (Shared(m), Shared(n)) => m < n
    case (Local(m), Local(n)) => m < n
    case _ => true
  }

  /** Each kind of entry comes in ascending order; in particular no entry comes twice. */
  ghost predicate Ascending(ids: seq<EntryId>) {
    forall i, j :: 0 <= i < j < |ids| ==> Precedes(ids[i], ids[j])
  }

  /** The view shows exactly what it should: visible, not cleared, in order. */
  ghost predicate InStep(ids: seq<EntryId>, room: Room, locals: seq<LocalNotice>, boundary: Option<ClearBoundary>) {
    Ascending(ids) && forall id :: id in ids <==> Visible(room, locals, id) && !Hidden(boundary, id)
  }

  /** The view shows only what it should, in order, and `all` of it if so claimed. */
  ghost predicate Showing(ids: seq<EntryId>, room: Room, locals: seq<LocalNotice>, boundary: Option<ClearBoundary>,
                          all: bool) {
    && Ascending(ids)
    && (forall id :: id in ids ==> Visible(room, locals, id) && !Hidden(boundary, id))
    && (all ==> forall id :: Visible(room, locals, id) && !Hidden(boundary, id) ==> id in ids)
  }

  lemma {:induction false} ShowingSome(ids: seq<EntryId>, room: Room, locals: seq<LocalNotice>,
                                       boundary: Option<ClearBoundary>, all: bool)
    requires Showing(ids, room, locals, boundary, all)
    ensures Showing(ids, room, locals, boundary, false)
  {
    hide Visible, Hidden, Ascending;
  }

  lemma {:induction false} ShowingAll(ids: seq<EntryId>, room: Room, locals: seq<LocalNotice>,
                                      boundary: Option<ClearBoundary>)
    ensures Showing(ids, room, locals, boundary, true) <==> InStep(ids, room, locals, boundary)
  {
    hide Visible, Hidden, Ascending;
  }

  /**
   * Midway through a batch: the log stands at `now`, but each delta is applied against `end`. Whatever is shown is in
   * the log and visible at one of the two moments, and if `all` was shown, whatever is visible at both is.
   */
  ghost predicate Catching(ids: seq<EntryId>, now: Room, end: Room, locals: seq<LocalNotice>,
                           boundary: Option<ClearBoundary>, all: bool) {
    && Ascending(ids)
    && (forall id :: id in ids ==>
          Resident(now, locals, id) && !Hidden(boundary, id)
          && (Visible(now, locals, id) || Visible(end, locals, id)))
    && (all ==>
          forall id :: Visible(now, locals, id) && Visible(end, locals, id) && !Hidden(boundary, id) ==> id in ids)
  }

  lemma {:induction false} StartCatching(ids: seq<EntryId>, start: Room, end: Room, locals: seq<LocalNotice>,
                                         boundary: Option<ClearBoundary>, all: bool)
    requires Showing(ids, start, locals, boundary, all)
    ensures Catching(ids, start, end, locals, boundary, all)
  {
    hide Find, FindNotice, FindLocal;
  }

  lemma {:induction false} CaughtUp(ids: seq<EntryId>, end: Room, locals: seq<LocalNotice>,
                                    boundary: Option<ClearBoundary>, all: bool)
    requires Catching(ids, end, end, locals, boundary, all)
    ensures Showing(ids, end, locals, boundary, all)
  {
    hide Find, FindNotice, FindLocal;
  }

  // --- One delta -------------------------------------------------------------------------

  /** Where a message threaded into the log lands: ahead of the first newer message. */
  function InsertPosition(ids: seq<EntryId>, id: nat): (at: nat)
    ensures at <= |ids|
    ensures at < |ids| ==> ids[at].Msg? && ids[at].id > id
    ensures forall i :: 0 <= i < at ==> !(ids[i].Msg? && ids[i].id > id)
  {
    InsertPositionFrom(ids, id, 0)
  }

  function InsertPositionFrom(ids: seq<EntryId>, id: nat, from: nat): (at: nat)
    requires from <= |ids|
    ensures from <= at <= |ids|
    ensures at < |ids| ==> ids[at].Msg? && ids[at].id > id
    ensures forall i :: from <= i < at ==> !(ids[i].Msg? && ids[i].id > id)
    decreases |ids| - from
  {
    if from == |ids| || (ids[from].Msg? && ids[from].id > id) then from
    else InsertPositionFrom(ids, id, from + 1)
  }

  function InsertAt<T>(s: seq<T>, at: nat, x: T): seq<T>
    requires at <= |s|
  {
    s[..at] + [x] + s[at..]
  }

  function RemoveAt<T>(s: seq<T>, at: nat): seq<T>
    requires at < |s|
  {
    s[..at] + s[at + 1..]
  }

  /** Where an id is shown. */
  function IndexOf(ids: seq<EntryId>, id: EntryId): (i: nat)
    ensures i <= |ids|
    ensures i < |ids| ==> ids[i] == id
    ensures i == |ids| ==> id !in ids
  {
    if id in ids then FirstIndex(ids, id, 0) else |ids|
  }

  function FirstIndex(ids: seq<EntryId>, id: EntryId, from: nat): (i: nat)
    requires from <= |ids| && id in ids[from..]
    ensures from <= i < |ids| && ids[i] == id
    decreases |ids| - from
  {
    if ids[from] == id then from else FirstIndex(ids, id, from + 1)
  }

  function Without(ids: seq<EntryId>, id: EntryId): seq<EntryId> {
    var i := IndexOf(ids, id);
    if i < |ids| then RemoveAt(ids, i) else ids
  }

  predicate Evicted(id: EntryId, watermark: nat) {
    id.Msg? && id.id <= watermark
  }

  /** The ids left once every message up to the watermark is gone. */
  function Survivors(ids: seq<EntryId>, watermark: nat): seq<EntryId> {
    if ids == [] then []
    else Survivors(ids[..|ids| - 1], watermark)
         + if Evicted(ids[|ids| - 1], watermark) then [] else [ids[|ids| - 1]]
  }

  /** The ids shown after one delta, each record read from `end`. */
  function Step(ids: seq<EntryId>, d: Delta, end: Room, locals: seq<LocalNotice>,
                boundary: Option<ClearBoundary>): seq<EntryId> {
    match d
    case Appended(m) => Materialize(ids, |ids|, Msg(m), end, locals, boundary)
    case Inserted(m) => Materialize(ids, InsertPosition(ids, m), Msg(m), end, locals, boundary)
    case Replaced(m) => if Visible(end, locals, Msg(m)) then ids else Without(ids, Msg(m))
    case Tombstoned(m) => Without(ids, Msg(m))
    case EvictedThrough(w) => Survivors(ids, w)
    case NoticeAdded(k) => Materialize(ids, |ids|, Shared(k), end, locals, boundary)
    case NoticeRemoved(k) => Without(ids, Shared(k))
    case Relaid => ids
    case Relabelled => ids
  }

  function Materialize(ids: seq<EntryId>, at: nat, id: EntryId, end: Room, locals: seq<LocalNotice>,
                       boundary: Option<ClearBoundary>): seq<EntryId>
    requires at <= |ids|
  {
    if Hidden(boundary, id) || !Visible(end, locals, id) then ids else InsertAt(ids, at, id)
  }

  // --- How the lists change ------------------------------------------------------------------

  lemma {:induction false} InsertMembers(ids: seq<EntryId>, at: nat, id: EntryId)
    requires at <= |ids|
    ensures forall x :: x in InsertAt(ids, at, id) <==> x == id || x in ids
  {
    var after := InsertAt(ids, at, id);
    forall x | x in ids
      ensures x in after
    {
      var i :| 0 <= i < |ids| && ids[i] == x;
      assert after[if i < at then i else i + 1] == x;
    }
    assert after[at] == id;
  }

  lemma {:induction false} InsertAscends(ids: seq<EntryId>, at: nat, id: EntryId)
    requires Ascending(ids) && at <= |ids|
    requires forall i :: 0 <= i < at ==> Precedes(ids[i], id)
    requires forall i :: at <= i < |ids| ==> Precedes(id, ids[i])
    ensures Ascending(InsertAt(ids, at, id))
  {
  }

  lemma {:induction false} RemoveMembers(ids: seq<EntryId>, id: EntryId)
    requires Ascending(ids)
    ensures Ascending(Without(ids, id))
    ensures forall x :: x in Without(ids, id) <==> x in ids && x != id
  {
    hide IndexOf;
    var i := IndexOf(ids, id);
    if i < |ids| {
      var after := RemoveAt(ids, i);
      forall x | x in ids && x != id
        ensures x in after
      {
        var j :| 0 <= j < |ids| && ids[j] == x;
        assert after[if j < i then j else j - 1] == x;
      }
      forall j | 0 <= j < |after|
        ensures after[j] in ids && after[j] != id
      {
        assert after[j] == ids[if j < i then j else j + 1];
        assert Precedes(ids[if j < i then j else i], ids[if j < i then i else j + 1]);
      }
    }
  }

  lemma {:induction false} SurvivorMembers(ids: seq<EntryId>, w: nat)
    requires Ascending(ids)
    ensures Ascending(Survivors(ids, w))
    ensures forall x :: x in Survivors(ids, w) <==> x in ids && !Evicted(x, w)
  {
    if ids != [] {
      var front, last := ids[..|ids| - 1], ids[|ids| - 1];
      SurvivorMembers(front, w);
      assert ids == front + [last];
      var kept := Survivors(front, w);
      forall i | 0 <= i < |kept|
        ensures Precedes(kept[i], last)
      {
        assert kept[i] in front;
        var j :| 0 <= j < |front| && front[j] == kept[i];
        assert Precedes(ids[j], ids[|ids| - 1]);
      }
    }
  }

  // --- One delta keeps the view catching up ----------------------------------------------------

  lemma {:induction false} TailAscends(ids: seq<EntryId>, id: EntryId)
    requires Ascending(ids) && forall x :: x in ids ==> Precedes(x, id)
    ensures Ascending(InsertAt(ids, |ids|, id))
  {
    assert forall i :: 0 <= i < |ids| ==> ids[i] in ids;
    InsertAscends(ids, |ids|, id);
  }

  lemma {:induction false} AppendStep(ids: seq<EntryId>, m: nat, now: Room, next: Room, end: Room,
                                      locals: seq<LocalNotice>, boundary: Option<ClearBoundary>, all: bool)
    requires Evolves(now, Appended(m), next) && Catching(ids, now, end, locals, boundary, all)
    ensures Catching(Materialize(ids, |ids|, Msg(m), end, locals, boundary), next, end, locals, boundary, all)
  {
    hide Find, FindNotice, FindLocal, Ordered, Ascending, InsertAt;
    InsertMembers(ids, |ids|, Msg(m));
    TailAscends(ids, Msg(m));
  }

  lemma {:induction false} AddNoticeStep(ids: seq<EntryId>, key: nat, now: Room, next: Room, end: Room,
                                         locals: seq<LocalNotice>, boundary: Option<ClearBoundary>, all: bool)
    requires Evolves(now, NoticeAdded(key), next) && Catching(ids, now, end, locals, boundary, all)
    ensures Catching(Materialize(ids, |ids|, Shared(key), end, locals, boundary), next, end, locals, boundary, all)
  {
    hide Find, FindNotice, FindLocal, Ordered, Ascending, InsertAt;
    InsertMembers(ids, |ids|, Shared(key));
    TailAscends(ids, Shared(key));
  }

  lemma {:induction false} InsertStep(ids: seq<EntryId>, m: nat, now: Room, next: Room, end: Room,
                                      locals: seq<LocalNotice>, boundary: Option<ClearBoundary>, all: bool)
    requires Evolves(now, Inserted(m), next) && Catching(ids, now, end, locals, boundary, all)
    ensures Catching(Step(ids, Inserted(m), end, locals, boundary), next, end, locals, boundary, all)
  {
    hide Find, FindNotice, FindLocal, Ordered, InsertPosition, InsertAt;
    var at := InsertPosition(ids, m);
    InsertMembers(ids, at, Msg(m));
    forall i | 0 <= i < |ids|
      ensures if i < at then Precedes(ids[i], Msg(m)) else Precedes(Msg(m), ids[i])
    {
      assert ids[i] in ids && ids[i] != Msg(m);
      assert at < i ==> Precedes(ids[at], ids[i]);
    }
    InsertAscends(ids, at, Msg(m));
  }

  lemma {:induction false} RemoveStep(ids: seq<EntryId>, id: EntryId, d: Delta, now: Room, next: Room, end: Room,
                                      locals: seq<LocalNotice>, boundary: Option<ClearBoundary>, all: bool)
    requires Evolves(now, d, next) && Catching(ids, now, end, locals, boundary, all)
    requires (d.Tombstoned? && id == Msg(d.id)) || (d.NoticeRemoved? && id == Shared(d.key))
             || (d.Replaced? && id == Msg(d.id) && !Visible(end, locals, id))
    ensures Catching(Without(ids, id), next, end, locals, boundary, all)
  {
    hide Find, FindNotice, FindLocal, Ordered, Without;
    RemoveMembers(ids, id);
  }

  lemma {:induction false} EvictStep(ids: seq<EntryId>, w: nat, now: Room, next: Room, end: Room,
                                     locals: seq<LocalNotice>, boundary: Option<ClearBoundary>, all: bool)
    requires Evolves(now, EvictedThrough(w), next) && Catching(ids, now, end, locals, boundary, all)
    ensures Catching(Survivors(ids, w), next, end, locals, boundary, all)
  {
    hide Find, FindNotice, FindLocal, Ordered, Survivors;
    SurvivorMembers(ids, w);
  }

  lemma {:induction false} StillStep(ids: seq<EntryId>, d: Delta, now: Room, next: Room, end: Room,
                                     locals: seq<LocalNotice>, boundary: Option<ClearBoundary>, all: bool)
    requires Evolves(now, d, next) && Catching(ids, now, end, locals, boundary, all)
    requires d.Relabelled? || (d.Replaced? && Visible(end, locals, Msg(d.id)))
    ensures Catching(ids, next, end, locals, boundary, all)
  {
    hide Find, FindNotice, FindLocal, Ordered;
  }

  /** Any delta but a re-lay keeps the view catching up. */
  lemma {:induction false} StepCatches(ids: seq<EntryId>, d: Delta, now: Room, next: Room, end: Room,
                                       locals: seq<LocalNotice>, boundary: Option<ClearBoundary>, all: bool)
    requires Evolves(now, d, next) && !d.Relaid? && Catching(ids, now, end, locals, boundary, all)
    ensures Catching(Step(ids, d, end, locals, boundary), next, end, locals, boundary, all)
  {
    hide Evolves, Catching, Materialize, Without, Survivors, Visible;
    match d
    case Appended(m) => AppendStep(ids, m, now, next, end, locals, boundary, all);
    case Inserted(m) => InsertStep(ids, m, now, next, end, locals, boundary, all);
    case Replaced(m) =>
      if Visible(end, locals, Msg(m)) {
        StillStep(ids, d, now, next, end, locals, boundary, all);
      } else {
        RemoveStep(ids, Msg(m), d, now, next, end, locals, boundary, all);
      }
    case Tombstoned(m) => RemoveStep(ids, Msg(m), d, now, next, end, locals, boundary, all);
    case EvictedThrough(w) => EvictStep(ids, w, now, next, end, locals, boundary, all);
    case NoticeAdded(k) => AddNoticeStep(ids, k, now, next, end, locals, boundary, all);
    case NoticeRemoved(k) => RemoveStep(ids, Shared(k), d, now, next, end, locals, boundary, all);
    case Relabelled => StillStep(ids, d, now, next, end, locals, boundary, all);
  }

  // --- A whole batch -----------------------------------------------------------------------------

  function Replayed(ids: seq<EntryId>, deltas: seq<Delta>, end: Room, locals: seq<LocalNotice>,
                    boundary: Option<ClearBoundary>): seq<EntryId>
    decreases deltas
  {
    if deltas == [] then ids
    else Replayed(Step(ids, deltas[0], end, locals, boundary), deltas[1..], end, locals, boundary)
  }

  lemma {:induction false} ReplayCatches(ids: seq<EntryId>, moments: seq<Room>, deltas: seq<Delta>, end: Room,
                                         locals: seq<LocalNotice>, boundary: Option<ClearBoundary>, all: bool)
    requires Chain(moments, deltas) && Relaid !in deltas
    requires Catching(ids, moments[0], end, locals, boundary, all)
    ensures Catching(Replayed(ids, deltas, end, locals, boundary), moments[|deltas|], end, locals, boundary, all)
    decreases deltas
  {
    hide Evolves, Catching, Step;
    if deltas != [] {
      assert Linked(moments, deltas, 0);
      assert deltas[0] in deltas;
      StepCatches(ids, deltas[0], moments[0], moments[1], end, locals, boundary, all);
      ChainTail(moments, deltas);
      ReplayCatches(Step(ids, deltas[0], end, locals, boundary), moments[1..], deltas[1..], end, locals, boundary, all);
    }
  }

  /**
   * Replaying a batch against the end state shows exactly what the end state calls for, although no delta was
   * applied at its own moment.
   */
  lemma {:induction false} ReplayIsRebuild(ids: seq<EntryId>, moments: seq<Room>, deltas: seq<Delta>,
                                           locals: seq<LocalNotice>, boundary: Option<ClearBoundary>)
    requires Chain(moments, deltas) && Relaid !in deltas
    requires InStep(ids, moments[0], locals, boundary)
    ensures InStep(Replayed(ids, deltas, moments[|deltas|], locals, boundary), moments[|deltas|], locals, boundary)
  {
    hide Evolves, Catching, Step, InStep, Showing, Replayed;
    var end := moments[|deltas|];
    ShowingAll(ids, moments[0], locals, boundary);
    StartCatching(ids, moments[0], end, locals, boundary, true);
    ReplayCatches(ids, moments, deltas, end, locals, boundary, true);
    CaughtUp(Replayed(ids, deltas, end, locals, boundary), end, locals, boundary, true);
    ShowingAll(Replayed(ids, deltas, end, locals, boundary), end, locals, boundary);
  }

  // --- In step means equal to a rebuild -----------------------------------------------------------

  datatype Sort = Messages | Notices | Locals

  predicate OfSort(id: EntryId, sort: Sort) {
    match sort
    case Messages => id.Msg?
    case Notices => id.Shared?
    case Locals => id.Local?
  }

  /** The entries of one kind, in display order. */
  function Only(ids: seq<EntryId>, sort: Sort): seq<EntryId> {
    if ids == [] then []
    else Only(ids[..|ids| - 1], sort) + if OfSort(ids[|ids| - 1], sort) then [ids[|ids| - 1]] else []
  }

  lemma {:induction false} OnlyMembers(ids: seq<EntryId>, sort: Sort)
    requires Ascending(ids)
    ensures Ascending(Only(ids, sort))
    ensures forall x :: x in Only(ids, sort) <==> x in ids && OfSort(x, sort)
  {
    if ids != [] {
      var front, last := ids[..|ids| - 1], ids[|ids| - 1];
      OnlyMembers(front, sort);
      assert ids == front + [last];
      var kept := Only(front, sort);
      forall i | 0 <= i < |kept|
        ensures Precedes(kept[i], last)
      {
        assert kept[i] in front;
        var j :| 0 <= j < |front| && front[j] == kept[i];
        assert Precedes(ids[j], ids[|ids| - 1]);
      }
    }
  }

  /** Two ascending lists of one kind with the same members are the same list. */
  lemma {:induction false} AscendingUnique(a: seq<EntryId>, b: seq<EntryId>, sort: Sort)
    requires Ascending(a) && Ascending(b)
    requires forall x :: x in a <==> x in b
    requires forall x :: x in a ==> OfSort(x, sort)
    ensures a == b
    decreases |a|
  {
    assert b != [] ==> b[0] in b;
    if a != [] {
      assert a[0] in b;
      LastIsGreatest(a, b, sort);
      var a', b' := a[..|a| - 1], b[..|b| - 1];
      assert a == a' + [a[|a| - 1]] && b == b' + [b[|b| - 1]];
      forall x
        ensures x in a' <==> x in b'
      {
        LastOnce(a, sort);
        LastOnce(b, sort);
        assert x in a <==> x in a' || x == a[|a| - 1];
        assert x in b <==> x in b' || x == b[|b| - 1];
      }
      AscendingUnique(a', b', sort);
    }
  }

  lemma {:induction false} LastOnce(a: seq<EntryId>, sort: Sort)
    requires Ascending(a) && a != [] && forall x :: x in a ==> OfSort(x, sort)
    ensures a[|a| - 1] !in a[..|a| - 1]
  {
    forall i | 0 <= i < |a| - 1
      ensures a[i] != a[|a| - 1]
    {
      assert a[i] in a && Precedes(a[i], a[|a| - 1]);
    }
  }

  lemma {:induction false} LastIsGreatest(a: seq<EntryId>, b: seq<EntryId>, sort: Sort)
    requires Ascending(a) && Ascending(b) && a != [] && b != []
    requires forall x :: x in a <==> x in b
    requires forall x :: x in a ==> OfSort(x, sort)
    ensures a[|a| - 1] == b[|b| - 1]
  {
    var p, q := a[|a| - 1], b[|b| - 1];
    assert p in b && q in a;
    var i :| 0 <= i < |b| && b[i] == p;
    var j :| 0 <= j < |a| && a[j] == q;
    assert i < |b| - 1 ==> Precedes(p, q);
    assert j < |a| - 1 ==> Precedes(q, p);
  }

  /** Two views in step with the same room show the same messages and notices in the same order. */
  lemma {:induction false} InStepAgree(a: seq<EntryId>, b: seq<EntryId>, room: Room, locals: seq<LocalNotice>,
                                       boundary: Option<ClearBoundary>, sort: Sort)
    requires InStep(a, room, locals, boundary) && InStep(b, room, locals, boundary)
    ensures Only(a, sort) == Only(b, sort)
  {
    hide Find, FindNotice, FindLocal, Only, Precedes;
    OnlyMembers(a, sort);
    OnlyMembers(b, sort);
    AscendingUnique(Only(a, sort), Only(b, sort), sort);
  }
}
