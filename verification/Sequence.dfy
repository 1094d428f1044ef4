/** The id sequence a rebuild starts from: messages, shared notices and own notices threaded together. */
module Sequence {
  import opened Arithmetic
  import opened History
  import opened Display

  /** Own notices are numbered as they come. */
  ghost predicate LocalsAscend(locals: seq<LocalNotice>) {
    forall i, j :: 0 <= i < j < |locals| ==> locals[i].id < locals[j].id
  }

  ghost function MessageIds(messages: seq<Message>, n: nat): seq<EntryId>
    requires n <= |messages|
  {
    if n == 0 then []
    else if messages[n - 1].deleted then MessageIds(messages, n - 1)
    else MessageIds(messages, n - 1) + [Msg(messages[n - 1].id)]
  }

  ghost function NoticeIds(notices: seq<Notice>, n: nat): seq<EntryId>
    requires n <= |notices|
  {
    if n == 0 then [] else NoticeIds(notices, n - 1) + [Shared(notices[n - 1].key)]
  }

  ghost function LocalIds(locals: seq<LocalNotice>, n: nat): seq<EntryId>
    requires n <= |locals|
  {
    if n == 0 then [] else LocalIds(locals, n - 1) + [Local(locals[n - 1].id)]
  }

  /** `ids` threads three lists, each kept in its own order. */
  ghost predicate Threads(ids: seq<EntryId>, messages: seq<EntryId>, notices: seq<EntryId>, locals: seq<EntryId>) {
    Only(ids, Messages) == messages && Only(ids, Notices) == notices && Only(ids, Locals) == locals
  }

  lemma {:induction false} ThreadsNext(ids: seq<EntryId>, x: EntryId, sort: Sort)
    ensures Only(ids + [x], sort) == if OfSort(x, sort) then Only(ids, sort) + [x] else Only(ids, sort)
  {
    assert (ids + [x])[..|ids|] == ids;
  }

  lemma {:induction false} ThreadsPush(ids: seq<EntryId>, x: EntryId, m: seq<EntryId>, n: seq<EntryId>, l: seq<EntryId>)
    requires Threads(ids, m, n, l)
    ensures Threads(ids + [x], if x.Msg? then m + [x] else m, if x.Shared? then n + [x] else n,
                    if x.Local? then l + [x] else l)
  {
    hide Only;
    ThreadsNext(ids, x, Messages);
    ThreadsNext(ids, x, Notices);
    ThreadsNext(ids, x, Locals);
  }

  // --- Where notices stand among the messages -----------------------------------------------------

  /** Some shared notice up to `key` is anchored at message `m` or later, so `key` stands behind `m`. */
  ghost predicate BehindNotice(notices: seq<Notice>, key: nat, m: nat) {
    exists l :: 0 <= l < |notices| && notices[l].key <= key && notices[l].after.Some? && notices[l].after.value >= m
  }

  ghost predicate BehindLocal(locals: seq<LocalNotice>, id: nat, m: nat) {
    exists l :: 0 <= l < |locals| && locals[l].id <= id && locals[l].after.Some? && locals[l].after.value >= m
  }

  /** Message `m` stands between own notice `n` and the later shared notice `key`. */
  ghost predicate Parts(room: Room, locals: seq<LocalNotice>, n: nat, key: nat, m: nat) {
    Visible(room, locals, Msg(m)) && !BehindLocal(locals, n, m) && BehindNotice(room.notices, key, m)
  }

  /** ... for some message. */
  ghost predicate Parted(room: Room, locals: seq<LocalNotice>, n: nat, key: nat) {
    exists m: nat :: Parts(room, locals, n, key, m)
  }

  /** The order of the threaded list, read off the anchors: of two different ids exactly one is earlier. */
  ghost predicate Earlier(room: Room, locals: seq<LocalNotice>, a: EntryId, b: EntryId) {
    match (a, b)
    case (Msg(m), Msg(n)) => m < n
    case (Shared(k), Shared(l)) => k < l
    case (Local(m), Local(n)) => m < n
    case (Msg(m), Shared(k)) => BehindNotice(room.notices, k, m)
    case (Shared(k), Msg(m)) => !BehindNotice(room.notices, k, m)
    case (Msg(m), Local(n)) => BehindLocal(locals, n, m)
    case (Local(n), Msg(m)) => !BehindLocal(locals, n, m)
    case (Local(n), Shared(k)) => Parted(room, locals, n, k)
    case (Shared(k), Local(n)) => !Parted(room, locals, n, k)
  }

  ghost predicate Threaded(ids: seq<EntryId>, room: Room, locals: seq<LocalNotice>) {
    forall i, j :: 0 <= i < j < |ids| ==> Earlier(room, locals, ids[i], ids[j])
  }

  lemma {:induction false} ThreadedPush(ids: seq<EntryId>, room: Room, locals: seq<LocalNotice>, x: EntryId)
    requires Threaded(ids, room, locals) && forall i :: 0 <= i < |ids| ==> Earlier(room, locals, ids[i], x)
    ensures Threaded(ids + [x], room, locals)
  {
    hide Earlier;
  }

  /** The order leaves no choice: two threaded lists of the same ids are the same list. */
  lemma {:induction false} ThreadedUnique(a: seq<EntryId>, b: seq<EntryId>, room: Room, locals: seq<LocalNotice>)
    requires Threaded(a, room, locals) && Threaded(b, room, locals) && forall x :: x in a <==> x in b
    ensures a == b
    decreases |a|
  {
    hide Threaded;
    assert b != [] ==> b[0] in b;
    if a != [] {
      assert a[0] in b;
      LastThreaded(a, b, room, locals);
      LastThreadedOnce(a, room, locals);
      LastThreadedOnce(b, room, locals);
      FrontThreaded(a, room, locals);
      FrontThreaded(b, room, locals);
      var a', b', x := a[..|a| - 1], b[..|b| - 1], a[|a| - 1];
      assert a == a' + [x] && b == b' + [x];
      SameFront(a', b', x);
      ThreadedUnique(a', b', room, locals);
    }
  }

  lemma {:induction false} FrontThreaded(ids: seq<EntryId>, room: Room, locals: seq<LocalNotice>)
    requires Threaded(ids, room, locals) && ids != []
    ensures Threaded(ids[..|ids| - 1], room, locals)
  {
    hide Earlier;
  }

  lemma {:induction false} SameFront(a: seq<EntryId>, b: seq<EntryId>, x: EntryId)
    requires x !in a && x !in b && forall y :: y in a + [x] <==> y in b + [x]
    ensures forall y :: y in a <==> y in b
  {
    forall y
      ensures y in a <==> y in b
    {
      assert y in a + [x] <==> y in a || y == x;
      assert y in b + [x] <==> y in b || y == x;
    }
  }

  lemma {:induction false} LastThreaded(a: seq<EntryId>, b: seq<EntryId>, room: Room, locals: seq<LocalNotice>)
    requires Threaded(a, room, locals) && Threaded(b, room, locals) && forall x :: x in a <==> x in b
    requires a != [] && b != []
    ensures a[|a| - 1] == b[|b| - 1]
  {
    hide BehindNotice, BehindLocal, Parted;
    var x, y := a[|a| - 1], b[|b| - 1];
    assert x in b && y in a;
    var i :| 0 <= i < |b| && b[i] == x;
    var j :| 0 <= j < |a| && a[j] == y;
    assert i < |b| - 1 ==> Earlier(room, locals, x, y);
    assert j < |a| - 1 ==> Earlier(room, locals, y, x);
  }

  lemma {:induction false} LastThreadedOnce(a: seq<EntryId>, room: Room, locals: seq<LocalNotice>)
    requires Threaded(a, room, locals) && a != []
    ensures a[|a| - 1] !in a[..|a| - 1]
  {
    forall i | 0 <= i < |a| - 1
      ensures a[i] != a[|a| - 1]
    {
      assert Earlier(room, locals, a[i], a[|a| - 1]);
    }
  }

  // --- Threading shared notices --------------------------------------------------------------------

  /** Notices up to `k` are anchored before every message from `i` on. */
  ghost predicate Anchored(room: Room, i: nat, k: nat)
    requires k <= |room.notices|
  {
    forall l, j :: 0 <= l < k && i <= j < |room.messages| && room.notices[l].after.Some? ==>
      room.notices[l].after.value < room.messages[j].id
  }

  /** The first `i` messages and `k` notices are threaded, and the next notice belongs behind those messages. */
  ghost predicate Weaving(ids: seq<EntryId>, room: Room, i: nat, k: nat) {
    && i <= |room.messages| && k <= |room.notices| && |ids| <= i + k
    && Threads(ids, MessageIds(room.messages, i), NoticeIds(room.notices, k), [])
    && Threaded(ids, room, []) && Anchored(room, i, k)
    && (k < |room.notices| ==> forall x :: x in ids && x.Msg? ==> BehindNotice(room.notices, room.notices[k].key, x.id))
  }

  /** Whatever the list holds comes from the two it threads. */
  lemma {:induction false} WovenFrom(ids: seq<EntryId>, room: Room, i: nat, k: nat)
    requires Ordered(room) && i <= |room.messages| && k <= |room.notices|
    requires Threads(ids, MessageIds(room.messages, i), NoticeIds(room.notices, k), [])
    ensures forall x :: x in ids && x.Msg? ==> exists j :: 0 <= j < i && x == Msg(room.messages[j].id)
    ensures forall x :: x in ids && x.Shared? ==> exists j :: 0 <= j < k && x == Shared(room.notices[j].key)
    ensures forall x :: x in ids ==> !x.Local?
  {
    hide Only, MessageIds, NoticeIds, Ordered;
    MessageIdsAre(room, i);
    NoticeIdsAre(room, k);
    forall x | x in ids
      ensures x.Msg? ==> x in MessageIds(room.messages, i)
      ensures x.Shared? ==> x in NoticeIds(room.notices, k)
      ensures !x.Local?
    {
      OnlyHas(ids, x);
    }
  }

  /** A notice anchored before what is still to come goes behind everything there is. */
  lemma {:induction false} WeaveNotice(ids: seq<EntryId>, room: Room, i: nat, k: nat)
    requires Ordered(room) && Weaving(ids, room, i, k) && k < |room.notices|
    requires room.notices[k].after.Some? ==>
               forall j :: i <= j < |room.messages| ==> room.notices[k].after.value < room.messages[j].id
    ensures Weaving(ids + [Shared(room.notices[k].key)], room, i, k + 1)
  {
    hide Threads, MessageIds, BehindNotice;
    var x := Shared(room.notices[k].key);
    ThreadsPush(ids, x, MessageIds(room.messages, i), NoticeIds(room.notices, k), []);
    WovenFrom(ids, room, i, k);
    forall j | 0 <= j < |ids|
      ensures Earlier(room, [], ids[j], x)
    {
      assert ids[j] in ids;
    }
    ThreadedPush(ids, room, [], x);
    if k + 1 < |room.notices| {
      forall y | y in ids + [x] && y.Msg?
        ensures BehindNotice(room.notices, room.notices[k + 1].key, y.id)
      {
        BehindLater(room.notices, room.notices[k].key, room.notices[k + 1].key, y.id);
      }
    }
  }

  lemma {:induction false} BehindLater(notices: seq<Notice>, key: nat, later: nat, m: nat)
    requires BehindNotice(notices, key, m) && key <= later
    ensures BehindNotice(notices, later, m)
  {
  }

  /** The next message goes behind every notice placed, once the next notice is anchored at it or later. */
  lemma {:induction false} WeaveMessage(ids: seq<EntryId>, room: Room, i: nat, k: nat)
    requires Ordered(room) && Weaving(ids, room, i, k) && i < |room.messages| && !room.messages[i].deleted
    requires k < |room.notices| ==>
               room.notices[k].after.Some? && room.notices[k].after.value >= room.messages[i].id
    ensures Weaving(ids + [Msg(room.messages[i].id)], room, i + 1, k)
  {
    hide Threads, NoticeIds;
    var x := Msg(room.messages[i].id);
    ThreadsPush(ids, x, MessageIds(room.messages, i), NoticeIds(room.notices, k), []);
    WovenFrom(ids, room, i, k);
    forall j | 0 <= j < |ids|
      ensures Earlier(room, [], ids[j], x)
    {
      assert ids[j] in ids;
      if ids[j].Shared? {
        NotBehind(room, i, k, ids[j].key);
      }
    }
    hide Earlier;
    ThreadedPush(ids, room, [], x);
  }

  lemma {:induction false} NotBehind(room: Room, i: nat, k: nat, key: nat)
    requires Ordered(room) && i < |room.messages| && k <= |room.notices| && Anchored(room, i, k)
    requires exists j :: 0 <= j < k && key == room.notices[j].key
    ensures !BehindNotice(room.notices, key, room.messages[i].id)
  {
    var j :| 0 <= j < k && key == room.notices[j].key;
    forall l | 0 <= l < |room.notices| && room.notices[l].key <= key && room.notices[l].after.Some?
      ensures room.notices[l].after.value < room.messages[i].id
    {
      assert l <= j;
    }
  }

  lemma {:induction false} WeaveDeleted(ids: seq<EntryId>, room: Room, i: nat, k: nat)
    requires Weaving(ids, room, i, k) && i < |room.messages| && room.messages[i].deleted
    ensures Weaving(ids, room, i + 1, k)
  {
    hide Threads, NoticeIds, Threaded, BehindNotice;
  }

  lemma {:induction false} WeaveNothing(room: Room)
    ensures Weaving([], room, 0, 0)
  {
  }

  /** The log's visible messages with the shared notices threaded in by their anchors. */
  method VisibleEntryIds(room: Room) returns (ids: seq<EntryId>)
    requires Ordered(room)
    ensures Threads(ids, MessageIds(room.messages, |room.messages|), NoticeIds(room.notices, |room.notices|), [])
    ensures Threaded(ids, room, []) && |ids| <= |room.messages| + |room.notices|
  {
    hide Weaving, Threads, Threaded;
    ids := [];
    var k := 0;
    WeaveNothing(room);
    for i := 0 to |room.messages|
      invariant k <= |room.notices| && Weaving(ids, room, i, k)
    {
      var message := room.messages[i];
      if message.deleted {
        WeaveDeleted(ids, room, i, k);
        continue;
      }
      while k < |room.notices| && (room.notices[k].after.None? || room.notices[k].after.value < message.id)
        invariant k <= |room.notices| && Weaving(ids, room, i, k)
      {
        WeaveNotice(ids, room, i, k);
        ids := ids + [Shared(room.notices[k].key)];
        k := k + 1;
      }
      WeaveMessage(ids, room, i, k);
      ids := ids + [Msg(message.id)];
      while k < |room.notices| && room.notices[k].after == Some(message.id)
        invariant k <= |room.notices| && Weaving(ids, room, i + 1, k)
      {
        WeaveNotice(ids, room, i + 1, k);
        ids := ids + [Shared(room.notices[k].key)];
        k := k + 1;
      }
    }
    while k < |room.notices|
      invariant k <= |room.notices| && Weaving(ids, room, |room.messages|, k)
    {
      WeaveNotice(ids, room, |room.messages|, k);
      ids := ids + [Shared(room.notices[k].key)];
      k := k + 1;
    }
    Woven(ids, room);
  }

  lemma {:induction false} Woven(ids: seq<EntryId>, room: Room)
    requires Weaving(ids, room, |room.messages|, |room.notices|)
    ensures Threads(ids, MessageIds(room.messages, |room.messages|), NoticeIds(room.notices, |room.notices|), [])
    ensures Threaded(ids, room, []) && |ids| <= |room.messages| + |room.notices|
  {
    hide Threads, Threaded;
  }

  // --- Threading a view's own notices ---------------------------------------------------------------

  /** The room's own sequence: threaded, with every visible message in it. */
  ghost predicate Canonical(canonical: seq<EntryId>, room: Room) {
    && Threaded(canonical, room, []) && Only(canonical, Locals) == []
    && forall m: nat :: Visible(room, [], Msg(m)) <==> Msg(m) in canonical
  }

  /** Own notices up to `k` are anchored before every message from `i` on. */
  ghost predicate Tethered(canonical: seq<EntryId>, locals: seq<LocalNotice>, i: nat, k: nat)
    requires k <= |locals|
  {
    forall l, j :: 0 <= l < k && i <= j < |canonical| && canonical[j].Msg? && locals[l].after.Some? ==>
      locals[l].after.value < canonical[j].id
  }

  /** The first `i` ids and `k` own notices are threaded, and the next own notice belongs behind those messages. */
  ghost predicate Lacing(ids: seq<EntryId>, canonical: seq<EntryId>, room: Room, locals: seq<LocalNotice>, i: nat,
                         k: nat) {
    && i <= |canonical| && k <= |locals| && |ids| == i + k
    && Threads(ids, Only(canonical[..i], Messages), Only(canonical[..i], Notices), LocalIds(locals, k))
    && Threaded(ids, room, locals) && Tethered(canonical, locals, i, k)
    && (k < |locals| ==> forall x :: x in ids && x.Msg? ==> BehindLocal(locals, locals[k].id, x.id))
  }

  /** Each own notice placed has a message after it. */
  ghost predicate Closed(ids: seq<EntryId>, locals: seq<LocalNotice>, k: nat)
    requires k <= |locals|
  {
    k > 0 ==> exists m: nat :: Msg(m) in ids && forall l :: 0 <= l < k ==> !BehindLocal(locals, locals[l].id, m)
  }

  lemma {:induction false} LacedFrom(ids: seq<EntryId>, canonical: seq<EntryId>, locals: seq<LocalNotice>, i: nat,
                                     k: nat)
    requires LocalsAscend(locals) && i <= |canonical| && k <= |locals|
    requires Threads(ids, Only(canonical[..i], Messages), Only(canonical[..i], Notices), LocalIds(locals, k))
    ensures forall x: EntryId :: !x.Local? ==> (x in ids <==> x in canonical[..i])
    ensures forall x: EntryId :: x in ids && x.Local? ==> exists j :: 0 <= j < k && x == Local(locals[j].id)
  {
    hide Only, LocalIds, LocalsAscend;
    LocalIdsAre(locals, k);
    forall x: EntryId
      ensures !x.Local? ==> (x in ids <==> x in canonical[..i])
      ensures x in ids && x.Local? ==> x in LocalIds(locals, k)
    {
      OnlyHas(ids, x);
      OnlyHas(canonical[..i], x);
    }
  }

  lemma {:induction false} NotBehindLocal(canonical: seq<EntryId>, locals: seq<LocalNotice>, i: nat, k: nat, j: nat)
    requires LocalsAscend(locals) && i < |canonical| && canonical[i].Msg? && j < k <= |locals|
    requires Tethered(canonical, locals, i, k)
    ensures !BehindLocal(locals, locals[j].id, canonical[i].id)
  {
    forall l | 0 <= l < |locals| && locals[l].id <= locals[j].id && locals[l].after.Some?
      ensures locals[l].after.value < canonical[i].id
    {
      assert l <= j;
    }
  }

  lemma {:induction false} SameOrder(room: Room, locals: seq<LocalNotice>, a: EntryId, b: EntryId)
    requires !a.Local? && !b.Local?
    ensures Earlier(room, locals, a, b) <==> Earlier(room, [], a, b)
  {
  }

  /** What `canonical` puts before its `i`-th id is earlier in the threaded list too. */
  lemma {:induction false} CanonicalEarlier(canonical: seq<EntryId>, room: Room, locals: seq<LocalNotice>, i: nat,
                                            x: EntryId)
    requires Canonical(canonical, room) && i < |canonical| && x in canonical[..i]
    ensures !x.Local? && !canonical[i].Local? && Earlier(room, locals, x, canonical[i])
  {
    hide Earlier, Only;
    var j :| 0 <= j < i && canonical[j] == x;
    NoLocal(canonical, j);
    NoLocal(canonical, i);
    SameOrder(room, locals, x, canonical[i]);
  }

  lemma {:induction false} LaceMessage(ids: seq<EntryId>, canonical: seq<EntryId>, room: Room, locals: seq<LocalNotice>,
                                       i: nat, k: nat)
    requires LocalsAscend(locals) && Canonical(canonical, room) && Lacing(ids, canonical, room, locals, i, k)
    requires i < |canonical| && canonical[i].Msg?
    requires k < |locals| ==> locals[k].after.Some? && locals[k].after.value >= canonical[i].id
    ensures Lacing(ids + [canonical[i]], canonical, room, locals, i + 1, k) && Closed(ids + [canonical[i]], locals, k)
  {
    hide Threads, Only, LocalIds, Canonical;
    var x := canonical[i];
    LacedFrom(ids, canonical, locals, i, k);
    LaceNext(ids, canonical, locals, i, k);
    forall j | 0 <= j < |ids|
      ensures Earlier(room, locals, ids[j], x)
    {
      assert ids[j] in ids;
      if ids[j].Local? {
        var l :| 0 <= l < k && ids[j] == Local(locals[l].id);
        NotBehindLocal(canonical, locals, i, k, l);
      } else {
        CanonicalEarlier(canonical, room, locals, i, ids[j]);
      }
    }
    forall l | 0 <= l < k
      ensures !BehindLocal(locals, locals[l].id, x.id)
    {
      NotBehindLocal(canonical, locals, i, k, l);
    }
    hide Earlier;
    ThreadedPush(ids, room, locals, x);
    assert (ids + [x])[|ids|] == Msg(x.id);
  }

  lemma {:induction false} LaceNext(ids: seq<EntryId>, canonical: seq<EntryId>, locals: seq<LocalNotice>, i: nat,
                                    k: nat)
    requires i < |canonical| && k <= |locals| && !canonical[i].Local?
    requires Threads(ids, Only(canonical[..i], Messages), Only(canonical[..i], Notices), LocalIds(locals, k))
    ensures Threads(ids + [canonical[i]], Only(canonical[..i + 1], Messages), Only(canonical[..i + 1], Notices),
                    LocalIds(locals, k))
  {
    hide Only, Threads, LocalIds;
    var x := canonical[i];
    assert canonical[..i + 1] == canonical[..i] + [x];
    ThreadsNext(canonical[..i], x, Messages);
    ThreadsNext(canonical[..i], x, Notices);
    ThreadsPush(ids, x, Only(canonical[..i], Messages), Only(canonical[..i], Notices), LocalIds(locals, k));
  }

  lemma {:induction false} LaceShared(ids: seq<EntryId>, canonical: seq<EntryId>, room: Room, locals: seq<LocalNotice>,
                                      i: nat, k: nat)
    requires LocalsAscend(locals) && Canonical(canonical, room) && Lacing(ids, canonical, room, locals, i, k)
    requires i < |canonical| && canonical[i].Shared? && Closed(ids, locals, k)
    ensures Lacing(ids + [canonical[i]], canonical, room, locals, i + 1, k) && Closed(ids + [canonical[i]], locals, k)
  {
    hide Threads, Only, LocalIds, BehindLocal, BehindNotice;
    var x := canonical[i];
    LacedFrom(ids, canonical, locals, i, k);
    LaceNext(ids, canonical, locals, i, k);
    forall j | 0 <= j < |ids|
      ensures Earlier(room, locals, ids[j], x)
    {
      assert ids[j] in ids;
      if ids[j].Local? {
        var m: nat :| Msg(m) in ids && forall l :: 0 <= l < k ==> !BehindLocal(locals, locals[l].id, m);
        CanonicalEarlier(canonical, room, locals, i, Msg(m));
        assert Msg(m) in canonical && Visible(room, [], Msg(m));
        assert Parts(room, locals, ids[j].notice, x.key, m);
      } else {
        CanonicalEarlier(canonical, room, locals, i, ids[j]);
      }
    }
    hide Earlier, Canonical;
    ThreadedPush(ids, room, locals, x);
    if k > 0 {
      var m: nat :| Msg(m) in ids && forall l :: 0 <= l < k ==> !BehindLocal(locals, locals[l].id, m);
      assert Msg(m) in ids + [x];
    }
  }

  /** An own notice anchored before what is still to come goes behind everything there is. */
  lemma {:induction false} LaceLocal(ids: seq<EntryId>, canonical: seq<EntryId>, room: Room, locals: seq<LocalNotice>,
                                     i: nat, k: nat)
    requires LocalsAscend(locals) && Canonical(canonical, room) && Lacing(ids, canonical, room, locals, i, k)
    requires k < |locals|
    requires locals[k].after.Some? ==>
               forall j :: i <= j < |canonical| && canonical[j].Msg? ==> locals[k].after.value < canonical[j].id
    ensures Lacing(ids + [Local(locals[k].id)], canonical, room, locals, i, k + 1)
  {
    hide Threads, Only, BehindNotice, Canonical;
    var x := Local(locals[k].id);
    LacedFrom(ids, canonical, locals, i, k);
    ThreadsPush(ids, x, Only(canonical[..i], Messages), Only(canonical[..i], Notices), LocalIds(locals, k));
    forall j | 0 <= j < |ids|
      ensures Earlier(room, locals, ids[j], x)
    {
      assert ids[j] in ids;
      if ids[j].Shared? {
        NotParted(canonical, room, locals, i, k, ids[j].key);
      }
    }
    hide Earlier;
    ThreadedPush(ids, room, locals, x);
    if k + 1 < |locals| {
      forall y | y in ids + [x] && y.Msg?
        ensures BehindLocal(locals, locals[k + 1].id, y.id)
      {
        BehindLaterLocal(locals, locals[k].id, locals[k + 1].id, y.id);
      }
    }
  }

  lemma {:induction false} BehindLaterLocal(locals: seq<LocalNotice>, id: nat, later: nat, m: nat)
    requires BehindLocal(locals, id, m) && id <= later
    ensures BehindLocal(locals, later, m)
  {
  }

  /** Every message that stands before a placed shared notice is placed too, so none parts it from the next own one. */
  lemma {:induction false} NotParted(canonical: seq<EntryId>, room: Room, locals: seq<LocalNotice>, i: nat, k: nat,
                                     key: nat)
    requires Canonical(canonical, room) && i <= |canonical| && k < |locals| && Shared(key) in canonical[..i]
    requires forall x :: x in canonical[..i] && x.Msg? ==> BehindLocal(locals, locals[k].id, x.id)
    ensures !Parted(room, locals, locals[k].id, key)
  {
    hide Only, BehindLocal, BehindNotice, Find, FindNotice, FindLocal;
    forall m: nat | Visible(room, locals, Msg(m)) && BehindNotice(room.notices, key, m)
      ensures BehindLocal(locals, locals[k].id, m)
    {
      assert Visible(room, [], Msg(m));
      var p :| 0 <= p < |canonical| && canonical[p] == Msg(m);
      var q :| 0 <= q < i && canonical[q] == Shared(key);
      assert !Earlier(room, [], canonical[q], canonical[p]);
      assert canonical[..i][p] == Msg(m);
    }
  }

  lemma {:induction false} LaceNothing(canonical: seq<EntryId>, room: Room, locals: seq<LocalNotice>)
    ensures Lacing([], canonical, room, locals, 0, 0) && Closed([], locals, 0)
  {
    assert canonical[..0] == [];
  }

  /** A room's sequence with a view's own notices threaded in. */
  method ThreadLocals(canonical: seq<EntryId>, locals: seq<LocalNotice>, ghost room: Room) returns (ids: seq<EntryId>)
    requires Canonical(canonical, room) && LocalsAscend(locals)
    ensures Only(ids, Messages) == Only(canonical, Messages) && Only(ids, Notices) == Only(canonical, Notices)
    ensures Only(ids, Locals) == LocalIds(locals, |locals|) && |ids| == |canonical| + |locals|
    ensures Threaded(ids, room, locals)
  {
    hide Lacing, Closed, Canonical, LocalsAscend, Only, Threaded;
    ids := [];
    var k := 0;
    LaceNothing(canonical, room, locals);
    for i := 0 to |canonical|
      invariant k <= |locals| && Lacing(ids, canonical, room, locals, i, k) && Closed(ids, locals, k)
    {
      var id := canonical[i];
      CanonicalId(canonical, room, i);
      if id.Msg? {
        while k < |locals| && (locals[k].after.None? || locals[k].after.value < id.id)
          invariant k <= |locals| && Lacing(ids, canonical, room, locals, i, k)
        {
          CanonicalFrom(canonical, room, i);
          LaceLocal(ids, canonical, room, locals, i, k);
          ids := ids + [Local(locals[k].id)];
          k := k + 1;
        }
        LaceMessage(ids, canonical, room, locals, i, k);
      } else {
        LaceShared(ids, canonical, room, locals, i, k);
      }
      ids := ids + [id];
    }
    while k < |locals|
      invariant k <= |locals| && Lacing(ids, canonical, room, locals, |canonical|, k)
    {
      LaceLocal(ids, canonical, room, locals, |canonical|, k);
      ids := ids + [Local(locals[k].id)];
      k := k + 1;
    }
    Laced(ids, canonical, room, locals);
  }

  lemma {:induction false} Laced(ids: seq<EntryId>, canonical: seq<EntryId>, room: Room, locals: seq<LocalNotice>)
    requires Lacing(ids, canonical, room, locals, |canonical|, |locals|)
    ensures Only(ids, Messages) == Only(canonical, Messages) && Only(ids, Notices) == Only(canonical, Notices)
    ensures Only(ids, Locals) == LocalIds(locals, |locals|) && |ids| == |canonical| + |locals|
    ensures Threaded(ids, room, locals)
  {
    hide Only, Threaded;
    assert canonical[..|canonical|] == canonical;
  }

  lemma {:induction false} CanonicalId(canonical: seq<EntryId>, room: Room, i: nat)
    requires Canonical(canonical, room) && i < |canonical|
    ensures !canonical[i].Local?
  {
    hide Only, Threaded, Visible;
    NoLocal(canonical, i);
  }

  /** Messages ascend. */
  lemma {:induction false} CanonicalFrom(canonical: seq<EntryId>, room: Room, i: nat)
    requires Canonical(canonical, room) && i < |canonical| && canonical[i].Msg?
    ensures forall j :: i <= j < |canonical| && canonical[j].Msg? ==> canonical[i].id <= canonical[j].id
  {
    hide Only, Visible;
    forall j | i < j < |canonical| && canonical[j].Msg?
      ensures canonical[i].id <= canonical[j].id
    {
      assert Earlier(room, [], canonical[i], canonical[j]);
    }
  }

  lemma {:induction false} NoLocal(ids: seq<EntryId>, i: nat)
    requires Only(ids, Locals) == [] && i < |ids|
    ensures !ids[i].Local?
  {
    if i < |ids| - 1 {
      NoLocal(ids[..|ids| - 1], i);
    }
  }

  /** The ids a `/clear` did not hide. */
  function Retained(ids: seq<EntryId>, boundary: Option<ClearBoundary>): (kept: seq<EntryId>)
    ensures |kept| <= |ids|
    ensures forall x :: x in kept <==> x in ids && !Hidden(boundary, x)
  {
    if ids == [] then []
    else
      var last := ids[|ids| - 1];
      assert ids == ids[..|ids| - 1] + [last];
      Retained(ids[..|ids| - 1], boundary) + if Hidden(boundary, last) then [] else [last]
  }

  /** The ids a view should show, in order. */
  method SequenceIds(room: Room, locals: seq<LocalNotice>, boundary: Option<ClearBoundary>)
    returns (ids: seq<EntryId>)
    requires Ordered(room) && LocalsAscend(locals)
    ensures InStep(ids, room, locals, boundary) && Threaded(ids, room, locals)
    ensures |ids| <= |room.messages| + |room.notices| + |locals|
  {
    hide Threaded, Only, InStep, Ordered, LocalsAscend, Retained, Canonical;
    var canonical := VisibleEntryIds(room);
    WovenCanonical(canonical, room);
    ids := ThreadLocals(canonical, locals, room);
    ThreadedInStep(ids, room, locals);
    RetainedInStep(ids, room, locals, boundary);
    RetainedThreads(ids, room, locals, boundary);
    ids := Retained(ids, boundary);
  }

  lemma {:induction false} WovenCanonical(ids: seq<EntryId>, room: Room)
    requires Ordered(room) && Threaded(ids, room, [])
    requires Threads(ids, MessageIds(room.messages, |room.messages|), NoticeIds(room.notices, |room.notices|), [])
    ensures Canonical(ids, room)
  {
    hide Only, MessageIds, NoticeIds, Threaded, Ordered, Visible;
    MessageIdsAre(room, |room.messages|);
    forall m: nat
      ensures Visible(room, [], Msg(m)) <==> Msg(m) in ids
    {
      OnlyHas(ids, Msg(m));
      VisibleAt(room, [], Msg(m));
    }
  }

  lemma {:induction false} RetainedThreads(ids: seq<EntryId>, room: Room, locals: seq<LocalNotice>,
                                           boundary: Option<ClearBoundary>)
    requires Threaded(ids, room, locals)
    ensures Threaded(Retained(ids, boundary), room, locals)
  {
    hide Hidden, Earlier;
    if ids != [] {
      var front, last := ids[..|ids| - 1], ids[|ids| - 1];
      RetainedThreads(front, room, locals, boundary);
      var kept := Retained(front, boundary);
      forall i | 0 <= i < |kept|
        ensures Earlier(room, locals, kept[i], last)
      {
        assert kept[i] in front;
        var j :| 0 <= j < |front| && front[j] == kept[i];
        assert Earlier(room, locals, ids[j], ids[|ids| - 1]);
      }
    }
  }

  lemma {:induction false} RetainedInStep(ids: seq<EntryId>, room: Room, locals: seq<LocalNotice>,
                                          boundary: Option<ClearBoundary>)
    requires InStep(ids, room, locals, None)
    ensures InStep(Retained(ids, boundary), room, locals, boundary)
  {
    hide Visible, Retained;
    RetainedAscends(ids, boundary);
  }

  lemma {:induction false} RetainedAscends(ids: seq<EntryId>, boundary: Option<ClearBoundary>)
    requires Display.Ascending(ids)
    ensures Display.Ascending(Retained(ids, boundary))
  {
    hide Hidden, Precedes;
    if ids != [] {
      var front, last := ids[..|ids| - 1], ids[|ids| - 1];
      RetainedAscends(front, boundary);
      var kept := Retained(front, boundary);
      forall i | 0 <= i < |kept|
        ensures Precedes(kept[i], last)
      {
        assert kept[i] in front;
        var j :| 0 <= j < |front| && front[j] == kept[i];
        assert Precedes(ids[j], ids[|ids| - 1]);
      }
    }
  }

  // --- Threaded lists are in step --------------------------------------------------------

  function SortOf(id: EntryId): Sort {
    match id
    case Msg(_) => Messages
    case Shared(_) => Notices
    case Local(_) => Locals
  }

  lemma {:induction false} OnlyHas(ids: seq<EntryId>, x: EntryId)
    ensures x in ids <==> x in Only(ids, SortOf(x))
  {
    if ids != [] {
      var front, last := ids[..|ids| - 1], ids[|ids| - 1];
      assert ids == front + [last];
      OnlyHas(front, x);
    }
  }

  /** A list whose three kinds each ascend does so as a whole. */
  lemma {:induction false} OnlyAscends(ids: seq<EntryId>)
    requires forall sort :: Display.Ascending(Only(ids, sort))
    ensures Display.Ascending(ids)
  {
    if ids != [] {
      var front, last := ids[..|ids| - 1], ids[|ids| - 1];
      assert ids == front + [last];
      forall sort
        ensures Display.Ascending(Only(front, sort))
      {
        FrontAscends(Only(front, sort), Only(ids, sort));
      }
      OnlyAscends(front);
      forall i | 0 <= i < |front|
        ensures Precedes(front[i], last)
      {
        LastFollows(ids, front, i);
      }
      AppendAscends(front, last);
    }
  }

  lemma {:induction false} FrontAscends(a: seq<EntryId>, b: seq<EntryId>)
    requires Display.Ascending(b) && a <= b
    ensures Display.Ascending(a)
  {
  }

  lemma {:induction false} AppendAscends(front: seq<EntryId>, last: EntryId)
    requires Display.Ascending(front) && forall i :: 0 <= i < |front| ==> Precedes(front[i], last)
    ensures Display.Ascending(front + [last])
  {
  }

  lemma {:induction false} LastFollows(ids: seq<EntryId>, front: seq<EntryId>, i: nat)
    requires ids != [] && front == ids[..|ids| - 1] && i < |front|
    requires forall sort :: Display.Ascending(Only(ids, sort))
    ensures Precedes(front[i], ids[|ids| - 1])
  {
    var x, last := front[i], ids[|ids| - 1];
    if SortOf(x) == SortOf(last) {
      OnlyHas(front, x);
      var kept, all := Only(front, SortOf(x)), Only(ids, SortOf(x));
      assert all == kept + [last];
      var j :| 0 <= j < |kept| && kept[j] == x;
      assert Precedes(all[j], all[|kept|]);
    }
  }

  lemma {:induction false} MessageIdsAre(room: Room, n: nat)
    requires Ordered(room) && n <= |room.messages|
    ensures Display.Ascending(MessageIds(room.messages, n))
    ensures forall x :: x in MessageIds(room.messages, n) <==>
              exists i :: 0 <= i < n && !room.messages[i].deleted && x == Msg(room.messages[i].id)
  {
    if n > 0 {
      MessageIdsAre(room, n - 1);
      var front := MessageIds(room.messages, n - 1);
      var last := Msg(room.messages[n - 1].id);
      forall i | 0 <= i < |front|
        ensures Precedes(front[i], last)
      {
        assert front[i] in front;
      }
      AppendAscends(front, last);
    }
  }

  lemma {:induction false} NoticeIdsAre(room: Room, n: nat)
    requires Ordered(room) && n <= |room.notices|
    ensures Display.Ascending(NoticeIds(room.notices, n))
    ensures forall x :: x in NoticeIds(room.notices, n) <==>
              exists i :: 0 <= i < n && x == Shared(room.notices[i].key)
  {
    if n > 0 {
      NoticeIdsAre(room, n - 1);
      var front := NoticeIds(room.notices, n - 1);
      var last := Shared(room.notices[n - 1].key);
      forall i | 0 <= i < |front|
        ensures Precedes(front[i], last)
      {
        assert front[i] in front;
      }
      AppendAscends(front, last);
    }
  }

  lemma {:induction false} LocalIdsAre(locals: seq<LocalNotice>, n: nat)
    requires LocalsAscend(locals) && n <= |locals|
    ensures Display.Ascending(LocalIds(locals, n))
    ensures forall x :: x in LocalIds(locals, n) <==> exists i :: 0 <= i < n && x == Local(locals[i].id)
  {
    if n > 0 {
      LocalIdsAre(locals, n - 1);
      var front := LocalIds(locals, n - 1);
      var last := Local(locals[n - 1].id);
      forall i | 0 <= i < |front|
        ensures Precedes(front[i], last)
      {
        assert front[i] in front;
      }
      AppendAscends(front, last);
    }
  }

  lemma {:induction false} ThreadedInStep(ids: seq<EntryId>, room: Room, locals: seq<LocalNotice>)
    requires Ordered(room) && LocalsAscend(locals)
    requires Threads(ids, MessageIds(room.messages, |room.messages|), NoticeIds(room.notices, |room.notices|),
                     LocalIds(locals, |locals|))
    ensures InStep(ids, room, locals, None)
  {
    hide Only, MessageIds, NoticeIds, LocalIds, Visible, Ordered, LocalsAscend;
    MessageIdsAre(room, |room.messages|);
    NoticeIdsAre(room, |room.notices|);
    LocalIdsAre(locals, |locals|);
    forall sort
      ensures Display.Ascending(Only(ids, sort))
    {
      assert sort == Messages || sort == Notices || sort == Locals;
    }
    OnlyAscends(ids);
    forall id
      ensures id in ids <==> Visible(room, locals, id)
    {
      OnlyHas(ids, id);
      VisibleAt(room, locals, id);
    }
  }

  /** Looking an id up finds it exactly where it stands. */
  lemma {:induction false} VisibleAt(room: Room, locals: seq<LocalNotice>, id: EntryId)
    requires Ordered(room)
    ensures match id
            case Msg(m) =>
              Visible(room, locals, id) <==>
              exists i :: 0 <= i < |room.messages| && !room.messages[i].deleted && id == Msg(room.messages[i].id)
            case Shared(k) =>
              Visible(room, locals, id) <==> exists i :: 0 <= i < |room.notices| && id == Shared(room.notices[i].key)
            case Local(n) =>
              Visible(room, locals, id) <==> exists i :: 0 <= i < |locals| && id == Local(locals[i].id)
  {
    hide Position, NoticePosition, FindLocal;
    match id
    case Msg(m) =>
      var i := Position(room.messages, m);
    case Shared(k) =>
      var i := NoticePosition(room.notices, k);
    case Local(n) =>
      if FindLocal(locals, n).Some? {
        var i :| 0 <= i < |locals| && locals[i] == FindLocal(locals, n).value;
      }
  }
}
