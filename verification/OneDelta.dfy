/** When a list that replays one delta keeps the order a rebuild would give it. */
module OneDelta {
  import opened Arithmetic
  import opened History
  import opened Display
  import opened Layout
  import opened Sequence
  import opened RoomLog
  import opened Order

  // --- Anchors read by key ---------------------------------------------------------------------------

  ghost predicate AnchoredAt(room: Room, key: nat, m: nat) {
    FindNotice(room, key).Some? && FindNotice(room, key).value.after.Some?
    && FindNotice(room, key).value.after.value >= m
  }

  lemma {:induction false} BehindByKey(room: Room, key: nat, m: nat)
    requires Ordered(room)
    ensures BehindNotice(room.notices, key, m) <==> exists k: nat :: k <= key && AnchoredAt(room, k, m)
  {
    hide NoticePosition;
    if BehindNotice(room.notices, key, m) {
      var l :| 0 <= l < |room.notices| && room.notices[l].key <= key && room.notices[l].after.Some?
               && room.notices[l].after.value >= m;
      var j := NoticePosition(room.notices, room.notices[l].key);
      assert AnchoredAt(room, room.notices[l].key, m);
    }
    if k: nat :| k <= key && AnchoredAt(room, k, m) {
      var j := NoticePosition(room.notices, k);
      assert room.notices[j].after.value >= m;
    }
  }

  lemma {:induction false} SameNoticesAnchor(a: Room, b: Room)
    requires Ordered(a) && Ordered(b) && SameNotices(a, b)
    ensures SameAnchors(a, b)
  {
    hide FindNotice, Ordered, BehindNotice;
    forall key: nat, m: nat
      ensures BehindNotice(b.notices, key, m) <==> BehindNotice(a.notices, key, m)
    {
      BehindByKey(a, key, m);
      BehindByKey(b, key, m);
      assert forall k: nat :: AnchoredAt(a, k, m) <==> AnchoredAt(b, k, m);
    }
  }

  // --- Messages that come ------------------------------------------------------------------------------

  /** `m` is the one message that `next` may show on top. */
  ghost predicate Gains(now: Room, next: Room, locals: seq<LocalNotice>, m: nat) {
    && SameAnchors(now, next) && !Visible(now, locals, Msg(m))
    && forall p: nat :: p != m ==> (Visible(next, locals, Msg(p)) <==> Visible(now, locals, Msg(p)))
  }

  /** `m` parts no shown pair that nothing parted before. */
  ghost predicate PartsNoneAnew(ids: seq<EntryId>, m: nat, now: Room, locals: seq<LocalNotice>) {
    forall n: nat, key: nat ::
      Local(n) in ids && Shared(key) in ids && !BehindLocal(locals, n, m) && BehindNotice(now.notices, key, m) ==>
        Parted(now, locals, n, key)
  }

  ghost predicate StandsBehind(x: EntryId, m: nat, room: Room, locals: seq<LocalNotice>) {
    match x
    case Msg(_) => false
    case Shared(key) => BehindNotice(room.notices, key, m)
    case Local(n) => BehindLocal(locals, n, m)
  }

  /** No notice shown ahead of position `at` stands behind message `m`. */
  ghost predicate NoneBehind(ids: seq<EntryId>, at: nat, m: nat, room: Room, locals: seq<LocalNotice>)
    requires at <= |ids|
  {
    forall i :: 0 <= i < at ==> !StandsBehind(ids[i], m, room, locals)
  }

  /** A message that comes is no matter if it is deleted; one that a clear hides must not part anything anew. */
  ghost predicate Welcome(ids: seq<EntryId>, at: nat, m: nat, now: Room, next: Room, locals: seq<LocalNotice>,
                          boundary: Option<ClearBoundary>)
    requires at <= |ids|
  {
    Visible(next, locals, Msg(m)) ==>
      if Hidden(boundary, Msg(m)) then PartsNoneAnew(ids, m, now, locals) else NoneBehind(ids, at, m, now, locals)
  }

  lemma {:induction false} PartedGains(now: Room, next: Room, locals: seq<LocalNotice>, m: nat, n: nat, key: nat)
    requires Gains(now, next, locals, m)
    ensures Parted(next, locals, n, key) <==>
            Parted(now, locals, n, key)
            || (Visible(next, locals, Msg(m)) && !BehindLocal(locals, n, m) && BehindNotice(now.notices, key, m))
  {
    hide BehindNotice, BehindLocal, Visible;
    if p: nat :| Parts(now, locals, n, key, p) {
      assert Parts(next, locals, n, key, p);
    }
    if p: nat :| Parts(next, locals, n, key, p) {
      assert p != m ==> Parts(now, locals, n, key, p);
    }
    assert Parts(next, locals, n, key, m) <==>
           Visible(next, locals, Msg(m)) && !BehindLocal(locals, n, m) && BehindNotice(now.notices, key, m);
  }

  /** The list as it is stays threaded exactly when the newcomer parts nothing anew. */
  lemma {:induction false} GainThreads(ids: seq<EntryId>, m: nat, now: Room, next: Room, locals: seq<LocalNotice>)
    requires Gains(now, next, locals, m) && Threaded(ids, now, locals)
    ensures Threaded(ids, next, locals) <==> (Visible(next, locals, Msg(m)) ==> PartsNoneAnew(ids, m, now, locals))
  {
    hide BehindNotice, BehindLocal, Visible, Threaded, Parted, Sublist, Agrees;
    WholeList(ids);
    LeftThreads(ids, ids, now, locals, next, locals);
    PartingDecides(ids, now, next, locals);
    forall n: nat, key: nat
      ensures Parted(next, locals, n, key) <==>
              Parted(now, locals, n, key)
              || (Visible(next, locals, Msg(m)) && !BehindLocal(locals, n, m) && BehindNotice(now.notices, key, m))
    {
      PartedGains(now, next, locals, m, n, key);
    }
  }

  /** Everything from the insertion point on is behind the newcomer already, and so is the message it starts with. */
  ghost predicate PlaceFor(ids: seq<EntryId>, at: nat, m: nat) {
    && at <= |ids| && Msg(m) !in ids
    && (at < |ids| ==> ids[at].Msg? && ids[at].id > m)
    && forall i :: 0 <= i < at ==> !(ids[i].Msg? && ids[i].id > m)
  }

  lemma {:induction false} BehindOlder(room: Room, locals: seq<LocalNotice>, x: EntryId, m: nat, p: nat)
    requires Earlier(room, locals, Msg(p), x) && m < p
    ensures Earlier(room, locals, Msg(m), x)
  {
  }

  lemma {:induction false} PlacedAround(ids: seq<EntryId>, at: nat, m: nat, room: Room, locals: seq<LocalNotice>)
    requires Threaded(ids, room, locals) && PlaceFor(ids, at, m)
    ensures forall i :: at <= i < |ids| ==> Earlier(room, locals, Msg(m), ids[i])
    ensures (forall i :: 0 <= i < at ==> Earlier(room, locals, ids[i], Msg(m))) <==>
            NoneBehind(ids, at, m, room, locals)
  {
    hide BehindNotice, BehindLocal, Parted;
    forall i | at <= i < |ids|
      ensures Earlier(room, locals, Msg(m), ids[i])
    {
      if i > at {
        assert Earlier(room, locals, ids[at], ids[i]);
        BehindOlder(room, locals, ids[i], m, ids[at].id);
      }
    }
    forall i | 0 <= i < at
      ensures Earlier(room, locals, ids[i], Msg(m)) <==> !StandsBehind(ids[i], m, room, locals)
    {
      assert ids[i] in ids;
    }
  }

  /** A message with no notice ahead of it that stands behind it parts only what is parted already. */
  lemma {:induction false} PlacedPartsNone(ids: seq<EntryId>, at: nat, m: nat, now: Room, locals: seq<LocalNotice>)
    requires Threaded(ids, now, locals) && PlaceFor(ids, at, m) && NoneBehind(ids, at, m, now, locals)
    requires forall x :: x in ids && x.Msg? ==> Visible(now, locals, x)
    ensures PartsNoneAnew(ids, m, now, locals)
  {
    hide BehindNotice, BehindLocal, Visible;
    PlacedAround(ids, at, m, now, locals);
    forall n: nat, key: nat | Local(n) in ids && Shared(key) in ids
                              && !BehindLocal(locals, n, m) && BehindNotice(now.notices, key, m)
      ensures Parted(now, locals, n, key)
    {
      var i :| 0 <= i < |ids| && ids[i] == Local(n);
      var j :| 0 <= j < |ids| && ids[j] == Shared(key);
      assert at <= j by {
        assert StandsBehind(ids[j], m, now, locals);
      }
      assert i < at by {
        assert !Earlier(now, locals, Msg(m), ids[i]);
      }
      assert ids[at] in ids;
      assert Earlier(now, locals, ids[i], ids[at]) && Earlier(now, locals, ids[at], ids[j]);
      assert Parts(now, locals, n, key, ids[at].id);
    }
  }

  lemma {:induction false} WelcomeThreads(ids: seq<EntryId>, at: nat, m: nat, now: Room, next: Room,
                                          locals: seq<LocalNotice>, boundary: Option<ClearBoundary>)
    requires Gains(now, next, locals, m) && Threaded(ids, now, locals) && PlaceFor(ids, at, m)
    requires forall x :: x in ids && x.Msg? ==> Visible(now, locals, x)
    ensures Threaded(Materialize(ids, at, Msg(m), next, locals, boundary), next, locals) <==>
            Welcome(ids, at, m, now, next, locals, boundary)
  {
    hide Visible, Hidden, Threaded, PartsNoneAnew, PlaceFor, InsertAt, BehindNotice, BehindLocal, Parted, Earlier;
    GainThreads(ids, m, now, next, locals);
    if Visible(next, locals, Msg(m)) && !Hidden(boundary, Msg(m)) {
      PlaceAt(ids, at, m);
      InsertThreads(ids, at, Msg(m), next, locals);
      if Threaded(ids, next, locals) {
        PlacedAround(ids, at, m, next, locals);
        SameBehind(ids, at, m, now, next, locals);
      }
      if NoneBehind(ids, at, m, now, locals) {
        PlacedPartsNone(ids, at, m, now, locals);
      }
    }
  }

  lemma {:induction false} PlaceAt(ids: seq<EntryId>, at: nat, m: nat)
    requires PlaceFor(ids, at, m)
    ensures at <= |ids|
  {
  }

  lemma {:induction false} SameBehind(ids: seq<EntryId>, at: nat, m: nat, a: Room, b: Room, locals: seq<LocalNotice>)
    requires at <= |ids| && SameAnchors(a, b)
    ensures NoneBehind(ids, at, m, a, locals) <==> NoneBehind(ids, at, m, b, locals)
  {
    hide BehindNotice, BehindLocal;
    assert forall x :: StandsBehind(x, m, a, locals) <==> StandsBehind(x, m, b, locals);
  }

  // --- Messages that go ----------------------------------------------------------------------------------

  /** `next` shows the messages of `now` but those that go. */
  ghost predicate Loses(now: Room, next: Room, locals: seq<LocalNotice>, d: Delta) {
    && SameAnchors(now, next)
    && forall p: nat :: Visible(next, locals, Msg(p)) <==> Visible(now, locals, Msg(p)) && !Goes(d, p)
  }

  predicate Goes(d: Delta, m: nat) {
    (d.Tombstoned? && m == d.id) || (d.EvictedThrough? && m <= d.watermark)
  }

  /** No shown own and shared notice are parted only by messages that go. */
  ghost predicate StillParted(ids: seq<EntryId>, d: Delta, now: Room, locals: seq<LocalNotice>) {
    forall n: nat, key: nat :: Local(n) in ids && Shared(key) in ids && Parted(now, locals, n, key) ==>
      exists m: nat :: Parts(now, locals, n, key, m) && !Goes(d, m)
  }

  lemma {:induction false} PartedLoses(now: Room, next: Room, locals: seq<LocalNotice>, d: Delta, n: nat, key: nat)
    requires Loses(now, next, locals, d)
    ensures Parted(next, locals, n, key) <==> exists m: nat :: Parts(now, locals, n, key, m) && !Goes(d, m)
    ensures Parted(next, locals, n, key) ==> Parted(now, locals, n, key)
  {
    hide BehindNotice, BehindLocal, Visible, Goes;
    forall m: nat
      ensures Parts(next, locals, n, key, m) <==> Parts(now, locals, n, key, m) && !Goes(d, m)
    {
    }
  }

  lemma {:induction false} LossThreads(left: seq<EntryId>, ids: seq<EntryId>, d: Delta, now: Room, next: Room,
                                       locals: seq<LocalNotice>)
    requires Loses(now, next, locals, d) && Threaded(ids, now, locals) && Sublist(left, ids)
    requires forall x :: x in ids && !x.Msg? ==> x in left
    ensures Threaded(left, next, locals) <==> StillParted(ids, d, now, locals)
  {
    hide Loses, Threaded, Parts, Parted, Agrees, Goes, Before;
    LeftThreads(left, ids, now, locals, next, locals);
    assert SameAnchors(now, next) by {
      LosesAnchors(now, next, locals, d);
    }
    PartingDecides(left, now, next, locals);
    forall n: nat, key: nat
      ensures Parted(next, locals, n, key) <==> exists m: nat :: Parts(now, locals, n, key, m) && !Goes(d, m)
      ensures Parted(next, locals, n, key) ==> Parted(now, locals, n, key)
    {
      PartedLoses(now, next, locals, d, n, key);
    }
  }

  lemma {:induction false} LosesAnchors(now: Room, next: Room, locals: seq<LocalNotice>, d: Delta)
    requires Loses(now, next, locals, d)
    ensures SameAnchors(now, next)
  {
    hide SameAnchors;
  }

  // --- A shared notice that comes ------------------------------------------------------------------------

  /** Everything shown is earlier than the new notice: each message, and each own notice by a message between. */
  ghost predicate BehindAll(ids: seq<EntryId>, key: nat, room: Room, locals: seq<LocalNotice>) {
    && (forall m: nat :: Msg(m) in ids ==> BehindNotice(room.notices, key, m))
    && forall n: nat :: Local(n) in ids ==> Parted(room, locals, n, key)
  }

  lemma {:induction false} AddedBehind(now: Room, next: Room, added: nat, key: nat, m: nat)
    requires Evolves(now, NoticeAdded(added), next) && key < added
    ensures BehindNotice(next.notices, key, m) <==> BehindNotice(now.notices, key, m)
  {
    hide FindNotice, Find, Ordered, BehindNotice;
    BehindByKey(now, key, m);
    BehindByKey(next, key, m);
    assert forall k: nat :: k <= key ==> (AnchoredAt(now, k, m) <==> AnchoredAt(next, k, m));
  }

  lemma {:induction false} AddedAgrees(ids: seq<EntryId>, added: nat, now: Room, next: Room, locals: seq<LocalNotice>)
    requires Evolves(now, NoticeAdded(added), next) && forall x :: x in ids && x.Shared? ==> x.key < added
    ensures Agrees(ids, now, locals, next, locals)
  {
    hide Evolves, BehindNotice, BehindLocal, Visible;
    forall key: nat, m: nat | key < added
      ensures BehindNotice(next.notices, key, m) <==> BehindNotice(now.notices, key, m)
    {
      AddedBehind(now, next, added, key, m);
    }
    assert forall m: nat :: Visible(next, locals, Msg(m)) <==> Visible(now, locals, Msg(m)) by {
      AddedShows(now, next, locals, added);
    }
    forall n: nat, key: nat | key < added
      ensures Parted(next, locals, n, key) <==> Parted(now, locals, n, key)
    {
      assert forall m: nat :: Parts(next, locals, n, key, m) <==> Parts(now, locals, n, key, m);
    }
    hide Parted;
  }

  lemma {:induction false} AddedShows(now: Room, next: Room, locals: seq<LocalNotice>, added: nat)
    requires Evolves(now, NoticeAdded(added), next)
    ensures forall m: nat :: Visible(next, locals, Msg(m)) <==> Visible(now, locals, Msg(m))
    ensures Visible(next, locals, Shared(added))
    ensures forall key: nat :: Visible(now, locals, Shared(key)) ==> key < added
  {
    hide Find, FindNotice, Ordered;
  }

  lemma {:induction false} AddedThreads(ids: seq<EntryId>, key: nat, now: Room, next: Room, locals: seq<LocalNotice>,
                                        boundary: Option<ClearBoundary>)
    requires Evolves(now, NoticeAdded(key), next) && Threaded(ids, now, locals)
    requires forall x :: x in ids ==> Visible(now, locals, x)
    ensures Threaded(Materialize(ids, |ids|, Shared(key), next, locals, boundary), next, locals) <==>
            Hidden(boundary, Shared(key)) || BehindAll(ids, key, next, locals)
  {
    hide Evolves, Threaded, Visible, Agrees, Sublist, BehindNotice, Parted, Hidden, InsertAt;
    AddedShows(now, next, locals, key);
    AddedAgrees(ids, key, now, next, locals);
    WholeList(ids);
    LeftThreads(ids, ids, now, locals, next, locals);
    InsertThreads(ids, |ids|, Shared(key), next, locals);
    BehindAllIs(ids, key, next, locals);
  }

  lemma {:induction false} BehindAllIs(ids: seq<EntryId>, key: nat, room: Room, locals: seq<LocalNotice>)
    requires forall x :: x in ids && x.Shared? ==> x.key < key
    ensures (forall i :: 0 <= i < |ids| ==> Earlier(room, locals, ids[i], Shared(key))) <==>
            BehindAll(ids, key, room, locals)
  {
    hide BehindNotice, BehindLocal, Parted;
    if forall i :: 0 <= i < |ids| ==> Earlier(room, locals, ids[i], Shared(key)) {
      forall x | x in ids
        ensures Earlier(room, locals, x, Shared(key))
      {
        var i :| 0 <= i < |ids| && ids[i] == x;
      }
      assert forall m: nat :: Msg(m) in ids ==> Earlier(room, locals, Msg(m), Shared(key));
      assert forall n: nat :: Local(n) in ids ==> Earlier(room, locals, Local(n), Shared(key));
    }
    if BehindAll(ids, key, room, locals) {
      forall i | 0 <= i < |ids|
        ensures Earlier(room, locals, ids[i], Shared(key))
      {
        assert ids[i] in ids;
      }
    }
  }

  // --- A shared notice that goes ---------------------------------------------------------------------------

  /** A shared notice other than `gone` puts `key` behind message `m`. */
  ghost predicate BehindOther(room: Room, gone: nat, key: nat, m: nat) {
    exists k: nat :: k <= key && k != gone && AnchoredAt(room, k, m)
  }

  ghost predicate PartsStill(room: Room, locals: seq<LocalNotice>, gone: nat, n: nat, key: nat, m: nat) {
    Visible(room, locals, Msg(m)) && !BehindLocal(locals, n, m) && BehindOther(room, gone, key, m)
  }

  /** No other shown notice owes its place to `gone` alone. */
  ghost predicate HoldsNone(ids: seq<EntryId>, gone: nat, now: Room, locals: seq<LocalNotice>) {
    forall key: nat :: Shared(key) in ids && key != gone ==>
      && (forall m: nat :: Msg(m) in ids && BehindNotice(now.notices, key, m) ==> BehindOther(now, gone, key, m))
      && (forall n: nat :: Local(n) in ids && Parted(now, locals, n, key) ==>
            exists m: nat :: PartsStill(now, locals, gone, n, key, m))
  }

  lemma {:induction false} RemovedBehind(now: Room, next: Room, gone: nat, key: nat, m: nat)
    requires Evolves(now, NoticeRemoved(gone), next)
    ensures BehindNotice(next.notices, key, m) <==> BehindOther(now, gone, key, m)
    ensures BehindNotice(next.notices, key, m) ==> BehindNotice(now.notices, key, m)
  {
    hide FindNotice, Find, Ordered, BehindNotice;
    BehindByKey(now, key, m);
    BehindByKey(next, key, m);
    assert forall k: nat :: AnchoredAt(next, k, m) <==> k != gone && AnchoredAt(now, k, m);
  }

  lemma {:induction false} RemovedParts(now: Room, next: Room, locals: seq<LocalNotice>, gone: nat, n: nat, key: nat)
    requires Evolves(now, NoticeRemoved(gone), next)
    ensures Parted(next, locals, n, key) <==> exists m: nat :: PartsStill(now, locals, gone, n, key, m)
    ensures Parted(next, locals, n, key) ==> Parted(now, locals, n, key)
  {
    hide Find, FindNotice, Ordered, BehindNotice, BehindLocal, BehindOther;
    forall m: nat
      ensures Parts(next, locals, n, key, m) <==> PartsStill(now, locals, gone, n, key, m)
      ensures Parts(next, locals, n, key, m) ==> Parts(now, locals, n, key, m)
    {
      RemovedBehind(now, next, gone, key, m);
    }
  }

  lemma {:induction false} RemovedAgrees(left: seq<EntryId>, gone: nat, now: Room, next: Room, locals: seq<LocalNotice>)
    requires Evolves(now, NoticeRemoved(gone), next) && Shared(gone) !in left
    ensures Agrees(left, now, locals, next, locals) <==> HoldsNone(left, gone, now, locals)
  {
    hide Evolves, BehindNotice, BehindLocal, BehindOther, Parted, PartsStill;
    forall key: nat, m: nat
      ensures BehindNotice(next.notices, key, m) <==> BehindOther(now, gone, key, m)
      ensures BehindNotice(next.notices, key, m) ==> BehindNotice(now.notices, key, m)
    {
      RemovedBehind(now, next, gone, key, m);
    }
    forall n: nat, key: nat
      ensures Parted(next, locals, n, key) <==> exists m: nat :: PartsStill(now, locals, gone, n, key, m)
      ensures Parted(next, locals, n, key) ==> Parted(now, locals, n, key)
    {
      RemovedParts(now, next, locals, gone, n, key);
    }
    if Agrees(left, now, locals, next, locals) {
      forall key: nat, m: nat | Shared(key) in left && Msg(m) in left
        ensures BehindNotice(now.notices, key, m) ==> BehindNotice(next.notices, key, m)
      {
        assert Earlier(now, locals, Msg(m), Shared(key)) ==> Earlier(next, locals, Msg(m), Shared(key));
      }
      forall key: nat, n: nat | Shared(key) in left && Local(n) in left
        ensures Parted(now, locals, n, key) ==> Parted(next, locals, n, key)
      {
        assert Earlier(now, locals, Local(n), Shared(key)) ==> Earlier(next, locals, Local(n), Shared(key));
      }
    }
  }

  lemma {:induction false} RemovedThreads(ids: seq<EntryId>, gone: nat, now: Room, next: Room, locals: seq<LocalNotice>)
    requires Evolves(now, NoticeRemoved(gone), next) && Threaded(ids, now, locals) && Display.Ascending(ids)
    ensures Threaded(Without(ids, Shared(gone)), next, locals) <==> HoldsNone(ids, gone, now, locals)
  {
    hide Evolves, Threaded, Agrees, Without, BehindNotice, BehindOther, Parted, PartsStill, Sublist, Display.Ascending;
    var left := Without(ids, Shared(gone));
    RemoveMembers(ids, Shared(gone));
    WithoutSublist(ids, Shared(gone));
    LeftThreads(left, ids, now, locals, next, locals);
    RemovedAgrees(left, gone, now, next, locals);
  }

  // --- One delta ------------------------------------------------------------------------------------------

  /** What must hold of the list and the room before a delta for the replayed list to be in order after it. */
  ghost predicate Undisturbed(ids: seq<EntryId>, d: Delta, now: Room, next: Room, locals: seq<LocalNotice>,
                              boundary: Option<ClearBoundary>) {
    match d
    case Appended(m) => Welcome(ids, |ids|, m, now, next, locals, boundary)
    case Inserted(m) => Welcome(ids, InsertPosition(ids, m), m, now, next, locals, boundary)
    case Tombstoned(_) => StillParted(ids, d, now, locals)
    case EvictedThrough(_) => StillParted(ids, d, now, locals)
    case NoticeAdded(key) => Hidden(boundary, Shared(key)) || BehindAll(ids, key, next, locals)
    case NoticeRemoved(key) => HoldsNone(ids, key, now, locals)
    case Replaced(_) => true
    case Relabelled => true
    case Relaid => true
  }

  lemma {:induction false} ArrivalGains(ids: seq<EntryId>, d: Delta, m: nat, now: Room, next: Room,
                                        locals: seq<LocalNotice>)
    requires Evolves(now, d, next) && (d == Appended(m) || d == Inserted(m))
    requires Display.Ascending(ids) && forall x :: x in ids ==> Visible(now, locals, x)
    ensures Gains(now, next, locals, m)
    ensures d.Appended? ==> PlaceFor(ids, |ids|, m)
    ensures d.Inserted? ==> PlaceFor(ids, InsertPosition(ids, m), m)
  {
    hide Find, FindNotice, FindLocal, Ordered, Display.Ascending, InsertPosition;
    assert SameAnchors(now, next) by {
      SameNoticesAnchor(now, next);
    }
    assert forall i :: 0 <= i < |ids| ==> ids[i] in ids;
  }

  lemma {:induction false} LossLoses(d: Delta, now: Room, next: Room, locals: seq<LocalNotice>)
    requires Evolves(now, d, next) && (d.Tombstoned? || d.EvictedThrough?)
    ensures Loses(now, next, locals, d)
  {
    hide Find, FindNotice, FindLocal, Ordered;
    assert SameAnchors(now, next) by {
      SameNoticesAnchor(now, next);
    }
  }

  lemma {:induction false} StillThreads(ids: seq<EntryId>, d: Delta, now: Room, next: Room, locals: seq<LocalNotice>)
    requires Evolves(now, d, next) && (d.Replaced? || d.Relabelled?) && Threaded(ids, now, locals)
    ensures Threaded(ids, next, locals)
    ensures forall m: nat :: Visible(next, locals, Msg(m)) <==> Visible(now, locals, Msg(m))
  {
    hide Find, FindNotice, FindLocal, Ordered, Threaded, Agrees, BehindNotice, BehindLocal, Before;
    assert SameAnchors(now, next) by {
      SameNoticesAnchor(now, next);
    }
    WholeList(ids);
    LeftThreads(ids, ids, now, locals, next, locals);
    PartingDecides(ids, now, next, locals);
    forall n: nat, key: nat
      ensures Parted(next, locals, n, key) <==> Parted(now, locals, n, key)
    {
      assert forall m: nat :: Parts(next, locals, n, key, m) <==> Parts(now, locals, n, key, m);
    }
  }

  /**
   * A replayed list is in the order of a rebuilt one after a delta exactly when the delta leaves it undisturbed. A
   * rewritten record and new marks always do.
   */
  lemma {:induction false} StepThreads(ids: seq<EntryId>, d: Delta, now: Room, next: Room, locals: seq<LocalNotice>,
                                       boundary: Option<ClearBoundary>)
    requires Evolves(now, d, next) && !d.Relaid?
    requires Threaded(ids, now, locals) && Showing(ids, now, locals, boundary, false)
    ensures Threaded(Step(ids, d, next, locals, boundary), next, locals) <==>
            Undisturbed(ids, d, now, next, locals, boundary)
  {
    hide Evolves, Threaded, Visible, Display.Ascending, Materialize, Without, Survivors, Welcome, StillParted,
         HoldsNone, BehindAll, Gains, Loses, PlaceFor, InsertPosition, Sublist;
    match d
    case Appended(m) =>
      ArrivalGains(ids, d, m, now, next, locals);
      WelcomeThreads(ids, |ids|, m, now, next, locals, boundary);
    case Inserted(m) =>
      ArrivalGains(ids, d, m, now, next, locals);
      WelcomeThreads(ids, InsertPosition(ids, m), m, now, next, locals, boundary);
    case Tombstoned(m) =>
      LossLoses(d, now, next, locals);
      WithoutSublist(ids, Msg(m));
      RemoveMembers(ids, Msg(m));
      LossThreads(Without(ids, Msg(m)), ids, d, now, next, locals);
    case EvictedThrough(w) =>
      LossLoses(d, now, next, locals);
      SurvivorsSublist(ids, w);
      SurvivorMembers(ids, w);
      LossThreads(Survivors(ids, w), ids, d, now, next, locals);
    case NoticeAdded(key) =>
      AddedThreads(ids, key, now, next, locals, boundary);
    case NoticeRemoved(key) =>
      RemovedThreads(ids, key, now, next, locals);
    case Replaced(m) =>
      StillThreads(ids, d, now, next, locals);
      if !Visible(next, locals, Msg(m)) {
        NothingWithout(ids, Msg(m));
      }
    case Relabelled =>
      StillThreads(ids, d, now, next, locals);
  }

  /** A rewrite read once its record is deleted takes the message off, with the same condition as the deletion. */
  lemma {:induction false} RewriteHides(ids: seq<EntryId>, m: nat, now: Room, end: Room, locals: seq<LocalNotice>,
                                        boundary: Option<ClearBoundary>)
    requires Evolves(now, Tombstoned(m), end)
    requires Threaded(ids, now, locals) && Showing(ids, now, locals, boundary, false)
    ensures Threaded(Step(ids, Replaced(m), end, locals, boundary), end, locals) <==>
            StillParted(ids, Tombstoned(m), now, locals)
  {
    hide Threaded, Showing, Without, StillParted, Ordered, Find;
    StepThreads(ids, Tombstoned(m), now, end, locals, boundary);
  }

  lemma {:induction false} NothingWithout(ids: seq<EntryId>, id: EntryId)
    requires id !in ids
    ensures Without(ids, id) == ids
  {
    hide IndexOf;
  }

  // --- Orders that turn ----------------------------------------------------------------------------------------

  function Said(id: nat, deleted: bool): Message {
    Message(id, deleted, Body(0, []), Label("", 0, false, false, false))
  }

  function Posted(key: nat, after: nat): Notice {
    Notice(key, Some(after), Body(0, []), Label("", 0, false, false, false))
  }

  function Own(id: nat, after: nat): LocalNotice {
    LocalNotice(id, Some(after), Body(0, []), Label("", 0, false, false, false))
  }

  lemma {:induction false} OnePosted(key: nat, after: nat, m: nat)
    ensures BehindNotice([Posted(key, after)], key, m) <==> m <= after
  {
    assert [Posted(key, after)][0].after.value == after;
  }

  lemma {:induction false} OneOwn(id: nat, after: nat, m: nat)
    ensures BehindLocal([Own(id, after)], id, m) <==> m <= after
  {
    assert [Own(id, after)][0].after.value == after;
  }

  lemma {:induction false} SaidShows(room: Room, locals: seq<LocalNotice>, i: nat)
    requires IdsAscend(room.messages) && i < |room.messages|
    ensures Visible(room, locals, Msg(room.messages[i].id)) <==> !room.messages[i].deleted
  {
    hide Find;
    FindIs(room, i);
  }

  /**
   * A late message is put ahead of the first newer message, behind a notice anchored at a deleted one in between. A
   * rebuild puts it ahead of the notice.
   */
  lemma {:induction false} InsertedBehindNotice()
    ensures var notices := [Posted(1, 20)];
            var now := Room([Said(10, false), Said(20, true), Said(30, false)], notices);
            var next := Room([Said(10, false), Said(15, false), Said(20, true), Said(30, false)], notices);
            var ids := [Msg(10), Shared(1), Msg(30)];
            var replayed, rebuilt := [Msg(10), Shared(1), Msg(15), Msg(30)], [Msg(10), Msg(15), Shared(1), Msg(30)];
            && Evolves(now, Inserted(15), next) && Threaded(ids, now, [])
            && Step(ids, Inserted(15), next, [], None) == replayed
            && !Threaded(replayed, next, []) && Threaded(rebuilt, next, [])
  {
    hide Find, FindNotice, BehindNotice, Parted, InsertPosition;
    var now := Room([Said(10, false), Said(20, true), Said(30, false)], [Posted(1, 20)]);
    var next := Room([Said(10, false), Said(15, false), Said(20, true), Said(30, false)], [Posted(1, 20)]);
    var ids := [Msg(10), Shared(1), Msg(30)];
    InsertedEvolves(now, next, Said(15, false));
    SaidShows(next, [], 1);
    OnePosted(1, 20, 10);
    OnePosted(1, 20, 15);
    OnePosted(1, 20, 30);
    assert ids[2].id > 15 && !(ids[0].id > 15) && !ids[1].Msg?;
    assert InsertPosition(ids, 15) == 2;
    var replayed := [Msg(10), Shared(1), Msg(15), Msg(30)];
    assert ids[..2] + [Msg(15)] + ids[2..] == replayed;
    assert !Earlier(next, [], replayed[1], replayed[2]);
  }

  /** Deleting the one message that parted two notices turns their order; the list keeps the old one. */
  lemma {:induction false} TombstoneJoinsNotices()
    ensures var notices, locals := [Posted(1, 2)], [Own(1, 1)];
            var now := Room([Said(1, false), Said(2, false)], notices);
            var next := Room([Said(1, false), Said(2, true)], notices);
            var ids := [Msg(1), Local(1), Msg(2), Shared(1)];
            var replayed, rebuilt := [Msg(1), Local(1), Shared(1)], [Msg(1), Shared(1), Local(1)];
            && Evolves(now, Tombstoned(2), next) && Threaded(ids, now, locals)
            && Step(ids, Tombstoned(2), next, locals, None) == replayed
            && !Threaded(replayed, next, locals) && Threaded(rebuilt, next, locals)
  {
    hide Find, FindNotice, BehindNotice, BehindLocal, IndexOf, Visible;
    var locals := [Own(1, 1)];
    var now := Room([Said(1, false), Said(2, false)], [Posted(1, 2)]);
    var next := Room([Said(1, false), Said(2, true)], [Posted(1, 2)]);
    var ids := [Msg(1), Local(1), Msg(2), Shared(1)];
    RewriteFinds(now, 1, Said(2, true));
    NoticesUntouched(now, next);
    assert now.messages[1 := Said(2, true)] == next.messages;
    SaidShows(now, locals, 1);
    SaidShows(next, locals, 1);
    forall m: nat
      ensures BehindNotice([Posted(1, 2)], 1, m) <==> m <= 2
      ensures BehindLocal(locals, 1, m) <==> m <= 1
    {
      OnePosted(1, 2, m);
      OneOwn(1, 1, m);
    }
    assert Parts(now, locals, 1, 1, 2);
    assert forall m: nat :: Parts(next, locals, 1, 1, m) ==> m == 2;
    assert ids[2] == Msg(2);
    assert IndexOf(ids, Msg(2)) == 2;
    assert ids[..2] + ids[3..] == [Msg(1), Local(1), Shared(1)];
    var replayed := [Msg(1), Local(1), Shared(1)];
    hide Parted;
    assert !Earlier(next, locals, replayed[1], replayed[2]);
  }

  /** A notice that arrives is put behind an own one after the newest message; a rebuild puts it ahead. */
  lemma {:induction false} OwnNoticeStaysAhead()
    ensures var locals := [Own(1, 1)];
            var now, next := Room([Said(1, false)], []), Room([Said(1, false)], [Posted(1, 1)]);
            var ids := [Msg(1), Local(1)];
            var replayed, rebuilt := [Msg(1), Local(1), Shared(1)], [Msg(1), Shared(1), Local(1)];
            && Evolves(now, NoticeAdded(1), next) && Threaded(ids, now, locals)
            && Step(ids, NoticeAdded(1), next, locals, None) == replayed
            && !Threaded(replayed, next, locals) && Threaded(rebuilt, next, locals)
  {
    hide Find, FindNotice, BehindNotice, BehindLocal, Visible;
    var locals := [Own(1, 1)];
    var now, next := Room([Said(1, false)], []), Room([Said(1, false)], [Posted(1, 1)]);
    NoticeAddedEvolves(now, Posted(1, 1));
    assert now.notices + [Posted(1, 1)] == next.notices;
    AddedShows(now, next, locals, 1);
    forall m: nat
      ensures BehindNotice([Posted(1, 1)], 1, m) <==> m <= 1
      ensures BehindLocal(locals, 1, m) <==> m <= 1
    {
      OnePosted(1, 1, m);
      OneOwn(1, 1, m);
    }
    assert !Parted(next, locals, 1, 1);
    hide Parted;
    var replayed := [Msg(1), Local(1), Shared(1)];
    assert !Earlier(next, locals, replayed[1], replayed[2]);
  }

  // --- What a room's own anchors rule out ------------------------------------------------------------------

  /** While anchors ascend, no notice owes its place to an older one. */
  lemma {:induction false} MooredHoldsNone(ids: seq<EntryId>, gone: nat, now: Room, locals: seq<LocalNotice>)
    requires Ordered(now) && Moored(now) && forall x :: x in ids ==> Visible(now, locals, x)
    ensures HoldsNone(ids, gone, now, locals)
  {
    hide Find, FindNotice, FindLocal, Ordered, Moored, BehindNotice, BehindLocal, AnchoredAt;
    forall key: nat, m: nat | Shared(key) in ids && key != gone && BehindNotice(now.notices, key, m)
      ensures BehindOther(now, gone, key, m)
    {
      OwnAnchor(now, key, m);
    }
    hide BehindOther;
    forall key: nat, n: nat | Shared(key) in ids && key != gone && Parted(now, locals, n, key)
      ensures exists m: nat :: PartsStill(now, locals, gone, n, key, m)
    {
      var m: nat :| Parts(now, locals, n, key, m);
      assert PartsStill(now, locals, gone, n, key, m);
    }
  }

  /** ... for its own anchor is the latest. */
  lemma {:induction false} OwnAnchor(room: Room, key: nat, m: nat)
    requires Ordered(room) && Moored(room) && FindNotice(room, key).Some? && BehindNotice(room.notices, key, m)
    ensures AnchoredAt(room, key, m)
  {
    hide NoticePosition;
    var j := NoticePosition(room.notices, key);
    var l :| 0 <= l < |room.notices| && room.notices[l].key <= key && room.notices[l].after.Some?
             && room.notices[l].after.value >= m;
    assert l < j ==> NotAfter(room.notices[l].after, room.notices[j].after);
  }

  /** The newest message is behind no notice, so putting it last is right. */
  lemma {:induction false} MooredWelcomes(ids: seq<EntryId>, m: nat, now: Room, next: Room, locals: seq<LocalNotice>,
                                          boundary: Option<ClearBoundary>)
    requires Evolves(now, Appended(m), next) && Moored(now)
    requires forall l :: 0 <= l < |locals| && locals[l].after.Some? ==> locals[l].after.value < m
    ensures Undisturbed(ids, Appended(m), now, next, locals, boundary)
  {
    hide Position, NoticePosition, Visible, Hidden;
    assert Newest(now).Some? ==> Newest(now).value < m by {
      if now.messages != [] {
        FindIs(now, |now.messages| - 1);
      }
    }
    forall key: nat
      ensures !BehindNotice(now.notices, key, m)
    {
      assert forall l :: 0 <= l < |now.notices| ==> NotAfter(now.notices[l].after, Newest(now));
    }
    assert forall x :: !StandsBehind(x, m, now, locals);
  }

  /** A message stands after own notice `n`. */
  ghost predicate Overtaken(room: Room, locals: seq<LocalNotice>, n: nat) {
    exists m: nat :: Visible(room, locals, Msg(m)) && !BehindLocal(locals, n, m)
  }

  /**
   * A shared notice anchored at the newest message is put behind everything. A rebuild agrees exactly when no own
   * notice is shown behind the newest message: it would put the newcomer ahead of that one.
   */
  lemma {:induction false} ArrivalThreads(ids: seq<EntryId>, key: nat, now: Room, next: Room, locals: seq<LocalNotice>,
                                          boundary: Option<ClearBoundary>)
    requires Evolves(now, NoticeAdded(key), next) && FindNotice(next, key).value.after == Newest(next)
    requires forall x :: x in ids ==> Visible(now, locals, x)
    ensures Undisturbed(ids, NoticeAdded(key), now, next, locals, boundary) <==>
            Hidden(boundary, Shared(key)) || forall n: nat :: Local(n) in ids ==> Overtaken(next, locals, n)
  {
    hide Evolves, BehindNotice, BehindLocal, Hidden, FindNotice;
    AddedShows(now, next, locals, key);
    forall m: nat | Visible(next, locals, Msg(m))
      ensures BehindNotice(next.notices, key, m)
    {
      BehindNewest(now, next, locals, key, m);
    }
    hide Visible;
    forall n: nat
      ensures Parted(next, locals, n, key) <==> Overtaken(next, locals, n)
    {
      assert forall m: nat :: Parts(next, locals, n, key, m) <==>
        Visible(next, locals, Msg(m)) && !BehindLocal(locals, n, m);
    }
  }

  lemma {:induction false} BehindNewest(now: Room, next: Room, locals: seq<LocalNotice>, key: nat, m: nat)
    requires Evolves(now, NoticeAdded(key), next) && FindNotice(next, key).value.after == Newest(next)
    requires Visible(next, locals, Msg(m))
    ensures BehindNotice(next.notices, key, m)
  {
    hide Position, NoticePosition, BehindNotice;
    BehindByKey(next, key, m);
    var i := Position(next.messages, m);
    assert next.messages[i].id <= next.messages[|next.messages| - 1].id;
    assert AnchoredAt(next, key, m);
  }

  // --- A view that keeps up ----------------------------------------------------------------------------------

  /** The list is in order at every moment, one delta replayed at a time. */
  ghost predicate InOrderThroughout(ids: seq<EntryId>, moments: seq<Room>, deltas: seq<Delta>, locals: seq<LocalNotice>,
                                    boundary: Option<ClearBoundary>)
    requires |moments| == |deltas| + 1
    decreases deltas
  {
    && Threaded(ids, moments[0], locals)
    && (deltas != [] ==>
          InOrderThroughout(Step(ids, deltas[0], moments[1], locals, boundary), moments[1..], deltas[1..], locals,
                            boundary))
  }

  ghost predicate UndisturbedThroughout(ids: seq<EntryId>, moments: seq<Room>, deltas: seq<Delta>,
                                        locals: seq<LocalNotice>, boundary: Option<ClearBoundary>)
    requires |moments| == |deltas| + 1
    decreases deltas
  {
    deltas != [] ==>
      && Undisturbed(ids, deltas[0], moments[0], moments[1], locals, boundary)
      && UndisturbedThroughout(Step(ids, deltas[0], moments[1], locals, boundary), moments[1..], deltas[1..], locals,
                               boundary)
  }

  lemma {:induction false} StepShows(ids: seq<EntryId>, d: Delta, now: Room, next: Room, locals: seq<LocalNotice>,
                                     boundary: Option<ClearBoundary>)
    requires Evolves(now, d, next) && !d.Relaid? && Showing(ids, now, locals, boundary, false)
    ensures Showing(Step(ids, d, next, locals, boundary), next, locals, boundary, false)
  {
    hide Evolves, Showing, Catching, Step;
    StartCatching(ids, now, next, locals, boundary, false);
    StepCatches(ids, d, now, next, next, locals, boundary, false);
    CaughtUp(Step(ids, d, next, locals, boundary), next, locals, boundary, false);
  }

  /** A view that replays each change as it comes is in order at every moment exactly when no change disturbs it. */
  lemma {:induction false} FollowThreads(ids: seq<EntryId>, moments: seq<Room>, deltas: seq<Delta>,
                                         locals: seq<LocalNotice>, boundary: Option<ClearBoundary>)
    requires Chain(moments, deltas) && Relaid !in deltas
    requires Threaded(ids, moments[0], locals) && Showing(ids, moments[0], locals, boundary, false)
    ensures InOrderThroughout(ids, moments, deltas, locals, boundary) <==>
            UndisturbedThroughout(ids, moments, deltas, locals, boundary)
    decreases deltas
  {
    hide Evolves, Showing, Step, Undisturbed, Threaded;
    if deltas != [] {
      var d := deltas[0];
      assert d in deltas && Linked(moments, deltas, 0);
      var after := Step(ids, d, moments[1], locals, boundary);
      StepThreads(ids, d, moments[0], moments[1], locals, boundary);
      StepShows(ids, d, moments[0], moments[1], locals, boundary);
      ChainTail(moments, deltas);
      if Threaded(after, moments[1], locals) {
        FollowThreads(after, moments[1..], deltas[1..], locals, boundary);
      }
    }
  }
}
