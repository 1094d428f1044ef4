/** The canonical room: every operation on its log journals deltas that say exactly what it did. */
module RoomLog {
  import opened Arithmetic
  import opened History
  import opened Layout

  const JOURNAL_CAP: nat := 256

  // --- Reading the log by membership ----------------------------------------------------

  lemma {:induction false} FindByMember(room: Room, x: Message)
    requires IdsAscend(room.messages)
    ensures x in room.messages <==> Find(room, x.id) == Some(x)
  {
    if x in room.messages {
      var i :| 0 <= i < |room.messages| && room.messages[i] == x;
      FindIs(room, i);
    }
  }

  lemma {:induction false} FindMissing(room: Room, id: nat)
    ensures Find(room, id).None? <==> forall x :: x in room.messages ==> x.id != id
  {
    hide Position;
    var i := Position(room.messages, id);
    if i < |room.messages| {
      assert room.messages[i] in room.messages;
    } else {
      forall x | x in room.messages
        ensures x.id != id
      {
        var k :| 0 <= k < |room.messages| && room.messages[k] == x;
      }
    }
  }

  /** Logs that agree about the members with an id agree about looking it up. */
  lemma {:induction false} FindAgrees(a: Room, b: Room, id: nat)
    requires IdsAscend(a.messages) && IdsAscend(b.messages)
    requires forall x: Message :: x.id == id ==> (x in a.messages <==> x in b.messages)
    ensures Find(a, id) == Find(b, id)
  {
    hide Find, IdsAscend;
    FindMissing(a, id);
    FindMissing(b, id);
    if Find(a, id).Some? {
      FindByMember(a, Find(a, id).value);
      FindByMember(b, Find(a, id).value);
    }
  }

  lemma {:induction false} NoticesUntouched(a: Room, b: Room)
    requires a.notices == b.notices
    ensures SameNotices(a, b)
  {
    hide NoticePosition;
  }

  // --- Inserting ---------------------------------------------------------------------------

  /** The log after a message that was not in it, at its sorted place. */
  function Insort(messages: seq<Message>, m: Message): seq<Message> {
    var at := SortedPosition(messages, m.id);
    messages[..at] + [m] + messages[at..]
  }

  /** Where `binary_search` would put an absent id. */
  function SortedPosition(messages: seq<Message>, id: nat): (at: nat)
    ensures at <= |messages|
    ensures forall i :: 0 <= i < at ==> messages[i].id < id
    ensures at < |messages| ==> messages[at].id >= id
  {
    SortedPositionFrom(messages, id, 0)
  }

  function SortedPositionFrom(messages: seq<Message>, id: nat, from: nat): (at: nat)
    requires from <= |messages|
    ensures from <= at <= |messages|
    ensures forall i :: from <= i < at ==> messages[i].id < id
    ensures at < |messages| ==> messages[at].id >= id
    decreases |messages| - from
  {
    if from == |messages| || messages[from].id >= id then from
    else SortedPositionFrom(messages, id, from + 1)
  }

  lemma {:induction false} InsortAscends(messages: seq<Message>, m: Message)
    requires IdsAscend(messages) && forall x :: x in messages ==> x.id != m.id
    ensures IdsAscend(Insort(messages, m))
  {
    hide SortedPosition;
    var at := SortedPosition(messages, m.id);
    assert at < |messages| ==> messages[at] in messages;
    assert forall i :: at <= i < |messages| ==> messages[i].id > m.id;
  }

  lemma {:induction false} InsortMembers(messages: seq<Message>, m: Message)
    ensures forall x :: x in Insort(messages, m) <==> x == m || x in messages
  {
    hide SortedPosition;
    var at := SortedPosition(messages, m.id);
    var after := Insort(messages, m);
    forall x | x in messages
      ensures x in after
    {
      var i :| 0 <= i < |messages| && messages[i] == x;
      assert after[if i < at then i else i + 1] == x;
    }
    assert after[at] == m;
  }

  lemma {:induction false} AppendedEvolves(room: Room, m: Message)
    requires Ordered(room) && forall x :: x in room.messages ==> x.id < m.id
    ensures Evolves(room, Appended(m.id), room.(messages := room.messages + [m]))
  {
    hide Find, FindNotice;
    var next := room.(messages := room.messages + [m]);
    NoticesUntouched(room, next);
    assert forall i :: 0 <= i < |room.messages| ==> room.messages[i] in room.messages;
    FindByMember(next, m);
    forall id: nat
      ensures Find(room, id).Some? ==> id < m.id
      ensures id != m.id ==> Find(next, id) == Find(room, id)
    {
      FindMissing(room, id);
      if id != m.id {
        FindAgrees(room, next, id);
      }
    }
  }

  lemma {:induction false} InsertedEvolves(room: Room, next: Room, m: Message)
    requires Ordered(room) && Ordered(next) && next.notices == room.notices
    requires forall x :: x in room.messages ==> x.id != m.id
    requires forall x :: x in next.messages <==> x == m || x in room.messages
    ensures Evolves(room, Inserted(m.id), next)
  {
    hide Find, FindNotice, IdsAscend, KeysAscend;
    NoticesUntouched(room, next);
    FindByMember(next, m);
    FindMissing(room, m.id);
    forall id: nat | id != m.id
      ensures Find(next, id) == Find(room, id)
    {
      FindAgrees(room, next, id);
    }
  }

  // --- Evicting a prefix --------------------------------------------------------------------

  lemma {:induction false} EvictedEvolves(room: Room, excess: nat)
    requires Ordered(room) && 0 < excess <= |room.messages|
    ensures Evolves(room, EvictedThrough(room.messages[excess - 1].id), room.(messages := room.messages[excess..]))
  {
    hide Find, FindNotice;
    var w := room.messages[excess - 1].id;
    var next := room.(messages := room.messages[excess..]);
    NoticesUntouched(room, next);
    forall id: nat
      ensures Find(next, id) == if id <= w then None else Find(room, id)
    {
      if id <= w {
        forall x | x in next.messages
          ensures x.id != id
        {
          var i :| 0 <= i < |next.messages| && next.messages[i] == x;
          assert x == room.messages[excess + i];
        }
        FindMissing(next, id);
      } else {
        forall x: Message | x.id == id && x in room.messages
          ensures x in next.messages
        {
          var i :| 0 <= i < |room.messages| && room.messages[i] == x;
          assert i >= excess;
          assert x == next.messages[i - excess];
        }
        FindAgrees(room, next, id);
      }
    }
  }

  // --- Relabelling -----------------------------------------------------------------------------

  /** Every record with its marks derived anew. */
  function Remarked(messages: seq<Message>, local: nat -> bool, unverified: nat -> bool): (marked: seq<Message>)
    ensures |marked| == |messages|
    ensures forall i :: 0 <= i < |messages| ==>
              marked[i].id == messages[i].id && marked[i].deleted == messages[i].deleted
              && marked[i].body == messages[i].body && marked[i].mark.sender == messages[i].mark.sender
  {
    if messages == [] then []
    else
      var last := messages[|messages| - 1];
      var mark := last.mark.(local := local(last.id), unverified := unverified(last.id));
      Remarked(messages[..|messages| - 1], local, unverified) + [last.(mark := mark)]
  }

  lemma {:induction false} RelabelledEvolves(room: Room, local: nat -> bool, unverified: nat -> bool)
    requires Ordered(room)
    ensures Evolves(room, Relabelled, room.(messages := Remarked(room.messages, local, unverified)))
  {
    hide Remarked, Position, NoticePosition;
    var next := room.(messages := Remarked(room.messages, local, unverified));
    forall id: nat
      ensures Find(room, id).Some? <==> Find(next, id).Some?
      ensures Find(room, id).Some? ==>
                && Find(next, id).value.deleted == Find(room, id).value.deleted
                && Find(next, id).value.body == Find(room, id).value.body
                && Find(next, id).value.mark.sender == Find(room, id).value.mark.sender
    {
      var i, j := Position(room.messages, id), Position(next.messages, id);
      assert i < |room.messages| ==> next.messages[i].id == id;
      assert j < |next.messages| ==> room.messages[j].id == id;
    }
  }

  // --- Rewriting one record --------------------------------------------------------------------

  lemma {:induction false} RewriteFinds(room: Room, i: nat, m: Message)
    requires Ordered(room) && i < |room.messages| && m.id == room.messages[i].id
    ensures var next := room.(messages := room.messages[i := m]);
            Ordered(next) && Find(next, m.id) == Some(m) && Find(room, m.id) == Some(room.messages[i])
            && SameMessagesBut(room, next, m.id)
    ensures forall j :: 0 <= j < |room.messages| && j != i ==> room.messages[j].id != m.id
  {
    hide Find;
    var next := room.(messages := room.messages[i := m]);
    FindIs(room, i);
    FindIs(next, i);
    forall id: nat | id != m.id
      ensures Find(next, id) == Find(room, id)
    {
      forall x: Message | x.id == id
        ensures x in room.messages <==> x in next.messages
      {
        if x in room.messages {
          var k :| 0 <= k < |room.messages| && room.messages[k] == x;
          assert next.messages[k] == x;
        }
        if x in next.messages {
          var k :| 0 <= k < |next.messages| && next.messages[k] == x;
          assert room.messages[k] == x;
        }
      }
      FindAgrees(room, next, id);
    }
  }

  // --- Notices -------------------------------------------------------------------------------------

  lemma {:induction false} FindNoticeIs(notices: seq<Notice>, i: nat)
    requires KeysAscend(notices) && i < |notices|
    ensures NoticePosition(notices, notices[i].key) == i
  {
    hide NoticePosition;
    var j := NoticePosition(notices, notices[i].key);
  }

  lemma {:induction false} NoticeAddedEvolves(room: Room, n: Notice)
    requires Ordered(room) && forall x :: x in room.notices ==> x.key < n.key
    ensures Evolves(room, NoticeAdded(n.key), room.(notices := room.notices + [n]))
  {
    var next := room.(notices := room.notices + [n]);
    assert forall i :: 0 <= i < |room.notices| ==> room.notices[i] in room.notices;
    assert next.notices[..|room.notices|] == room.notices;
    forall key: nat
      ensures FindNotice(room, key).Some? ==> key < n.key
      ensures key != n.key ==> FindNotice(next, key) == FindNotice(room, key)
    {
    }
  }

  lemma {:induction false} NoticeRemovedEvolves(room: Room, i: nat)
    requires Ordered(room) && i < |room.notices|
    ensures Evolves(room, NoticeRemoved(room.notices[i].key),
                    room.(notices := room.notices[..i] + room.notices[i + 1..]))
  {
    hide NoticePosition;
    var key := room.notices[i].key;
    var next := room.(notices := room.notices[..i] + room.notices[i + 1..]);
    FindNoticeIs(room.notices, i);
    forall other: nat
      ensures other != key ==> FindNotice(next, other) == FindNotice(room, other)
      ensures FindNotice(next, key).None?
    {
      var j := NoticePosition(room.notices, other);
      if other != key && j < |room.notices| {
        var k := if j < i then j else j - 1;
        assert next.notices[k] == room.notices[j];
        FindNoticeIs(next.notices, k);
      } else {
        forall k | 0 <= k < |next.notices|
          ensures next.notices[k].key != key && (j == |room.notices| ==> next.notices[k].key != other)
        {
          assert next.notices[k] == room.notices[if k < i then k else k + 1];
        }
      }
    }
  }

  // --- Merging a page -----------------------------------------------------------------------------

  /** The merge of two sorted logs. */
  function Merge(a: seq<Message>, b: seq<Message>): seq<Message>
    decreases |a| + |b|
  {
    if a == [] then b
    else if b == [] then a
    else if a[0].id < b[0].id then [a[0]] + Merge(a[1..], b)
    else [b[0]] + Merge(a, b[1..])
  }

  ghost predicate Apart(a: seq<Message>, b: seq<Message>) {
    forall x, y :: x in a && y in b ==> x.id != y.id
  }

  lemma {:induction false} MergeMembers(a: seq<Message>, b: seq<Message>)
    ensures forall x :: x in Merge(a, b) <==> x in a || x in b
    decreases |a| + |b|
  {
    if a != [] && b != [] {
      if a[0].id < b[0].id {
        MergeMembers(a[1..], b);
        assert a == [a[0]] + a[1..];
      } else {
        MergeMembers(a, b[1..]);
        assert b == [b[0]] + b[1..];
      }
    }
  }

  lemma {:induction false} MergeAscends(a: seq<Message>, b: seq<Message>)
    requires IdsAscend(a) && IdsAscend(b) && Apart(a, b)
    ensures IdsAscend(Merge(a, b))
    decreases |a| + |b|
  {
    hide IdsAscend, Apart;
    if a != [] && b != [] {
      ApartTails(a, b);
      AscendTail(a);
      AscendTail(b);
      if a[0].id < b[0].id {
        MergeAscends(a[1..], b);
        AboveHead(a[0], b);
        ConsAscends(a[0], a[1..], b);
      } else {
        MergeAscends(a, b[1..]);
        AboveHead(b[0], a);
        ConsAscends(b[0], a, b[1..]);
      }
    }
  }

  lemma {:induction false} AscendTail(a: seq<Message>)
    requires IdsAscend(a) && a != []
    ensures IdsAscend(a[1..]) && forall i :: 0 <= i < |a| - 1 ==> a[0].id < a[1..][i].id
  {
  }

  lemma {:induction false} AboveHead(m: Message, a: seq<Message>)
    requires IdsAscend(a) && a != [] && m.id < a[0].id
    ensures forall i :: 0 <= i < |a| ==> m.id < a[i].id
  {
  }

  lemma {:induction false} ApartTails(a: seq<Message>, b: seq<Message>)
    requires Apart(a, b) && a != [] && b != []
    ensures a[0].id != b[0].id && Apart(a[1..], b) && Apart(a, b[1..])
  {
    assert a[0] in a && b[0] in b;
    assert forall x :: x in a[1..] ==> x in a;
    assert forall x :: x in b[1..] ==> x in b;
  }

  lemma {:induction false} ConsAscends(m: Message, a: seq<Message>, b: seq<Message>)
    requires IdsAscend(Merge(a, b))
    requires forall i :: 0 <= i < |a| ==> m.id < a[i].id
    requires forall i :: 0 <= i < |b| ==> m.id < b[i].id
    ensures IdsAscend([m] + Merge(a, b))
  {
    hide Merge;
    var rest := Merge(a, b);
    MergeMembers(a, b);
    forall i | 0 <= i < |rest|
      ensures m.id < rest[i].id
    {
      assert rest[i] in rest;
    }
  }

  lemma {:induction false} PageFront(room: Room, page: seq<Message>, k: nat)
    requires IdsAscend(page) && Apart(room.messages, page) && k <= |page|
    ensures IdsAscend(page[..k]) && Apart(room.messages, page[..k])
    ensures k < |page| ==> forall x :: x in page[..k] || x in room.messages ==> x.id != page[k].id
  {
    assert forall x :: x in page[..k] ==> x in page;
    assert k < |page| ==> page[k] in page;
  }

  lemma {:induction false} MergedRoom(room: Room, page: seq<Message>, k: nat)
    requires Ordered(room) && IdsAscend(page) && Apart(room.messages, page) && k <= |page|
    ensures Ordered(room.(messages := Merge(room.messages, page[..k])))
    ensures forall x :: x in Merge(room.messages, page[..k]) <==> x in room.messages || x in page[..k]
  {
    hide Merge, IdsAscend, KeysAscend, Apart;
    PageFront(room, page, k);
    MergeAscends(room.messages, page[..k]);
    MergeMembers(room.messages, page[..k]);
  }

  /** A page's messages arrive one at a time: each is one insertion. */
  lemma {:induction false} MergeGrows(room: Room, page: seq<Message>, k: nat)
    requires Ordered(room) && IdsAscend(page) && Apart(room.messages, page) && k < |page|
    ensures Evolves(room.(messages := Merge(room.messages, page[..k])), Inserted(page[k].id),
                    room.(messages := Merge(room.messages, page[..k + 1])))
  {
    hide Merge, Evolves, IdsAscend, Apart, Ordered;
    PageFront(room, page, k);
    MergedRoom(room, page, k);
    MergedRoom(room, page, k + 1);
    assert page[..k + 1] == page[..k] + [page[k]];
    InsertedEvolves(room.(messages := Merge(room.messages, page[..k])),
                    room.(messages := Merge(room.messages, page[..k + 1])), page[k]);
  }

  lemma {:induction false} MergeNothing(room: Room)
    ensures Merge(room.messages, []) == room.messages
  {
  }

  lemma {:induction false} PrependEvolves(room: Room, older: seq<Message>)
    requires Ordered(room) && IdsAscend(older)
    requires forall x, y :: x in older && y in room.messages ==> x.id < y.id
    ensures Evolves(room, Relaid, room.(messages := older + room.messages))
  {
    hide Find, FindNotice;
    var next := room.(messages := older + room.messages);
    NoticesUntouched(room, next);
    assert forall i :: 0 <= i < |older| ==> older[i] in older;
    assert forall i :: 0 <= i < |room.messages| ==> room.messages[i] in room.messages;
    assert IdsAscend(next.messages);
    forall id: nat | Find(room, id).Some?
      ensures Find(next, id) == Find(room, id)
    {
      FindByMember(room, Find(room, id).value);
      FindByMember(next, Find(room, id).value);
    }
  }

  // --- Anchors ---------------------------------------------------------------------------------------

  lemma {:induction false} MooredOn(a: Room, b: Room)
    requires Moored(a) && b.notices == a.notices && NotAfter(Newest(a), Newest(b))
    ensures Moored(b)
  {
  }

  /** A log that still holds the newest message has none newer to lose. */
  lemma {:induction false} NewestKept(a: Room, b: Room)
    requires IdsAscend(b.messages) && (a.messages != [] ==> a.messages[|a.messages| - 1] in b.messages)
    ensures NotAfter(Newest(a), Newest(b))
  {
    if a.messages != [] {
      var i :| 0 <= i < |b.messages| && b.messages[i] == a.messages[|a.messages| - 1];
    }
  }

  lemma {:induction false} MooredBy(a: Room, b: Room)
    requires Moored(a) && b.notices == a.notices && Ordered(b)
    requires a.messages != [] ==> a.messages[|a.messages| - 1] in b.messages
    ensures Moored(b)
  {
    hide Moored, Newest, NotAfter;
    NewestKept(a, b);
    MooredOn(a, b);
  }

  lemma {:induction false} MooredPush(room: Room, n: Notice)
    requires Moored(room) && n.after == Newest(room)
    ensures Moored(room.(notices := room.notices + [n]))
  {
  }

  lemma {:induction false} MooredDrop(room: Room, i: nat)
    requires Moored(room) && i < |room.notices|
    ensures Moored(room.(notices := room.notices[..i] + room.notices[i + 1..]))
  {
    var left := room.notices[..i] + room.notices[i + 1..];
    assert forall j :: 0 <= j < |left| ==> left[j] == room.notices[if j < i then j else j + 1];
    forall j, k | 0 <= j < k < |left|
      ensures NotAfter(left[j].after, left[k].after)
    {
      assert NotAfter(room.notices[if j < i then j else j + 1].after, room.notices[if k < i then k else k + 1].after);
    }
  }

  /** At every moment anchors ascend up to the newest message. */
  ghost predicate AllMoored(past: seq<Room>) {
    forall i :: 0 <= i < |past| ==> Moored(past[i])
  }

  lemma {:induction false} AllMooredPush(past: seq<Room>, next: Room)
    requires AllMoored(past) && Moored(next)
    ensures AllMoored(past + [next])
  {
    hide Moored;
  }

  lemma {:induction false} MooredAt(past: seq<Room>, i: nat)
    requires AllMoored(past) && i < |past|
    ensures Moored(past[i])
  {
    hide Moored;
  }

  // --- The journal -----------------------------------------------------------------------------------

  lemma {:induction false} ChainAppend(moments: seq<Room>, deltas: seq<Delta>, d: Delta, next: Room)
    requires Chain(moments, deltas) && Evolves(moments[|deltas|], d, next)
    ensures Chain(moments + [next], deltas + [d])
  {
    hide Evolves;
    forall i | 0 <= i < |deltas| + 1
      ensures Linked(moments + [next], deltas + [d], i)
    {
      if i < |deltas| {
        assert Linked(moments, deltas, i);
      }
    }
  }

  lemma {:induction false} ChainSuffix(moments: seq<Room>, deltas: seq<Delta>, n: nat)
    requires Chain(moments, deltas) && n <= |deltas|
    ensures Chain(moments[n..], deltas[n..])
  {
    hide Evolves;
    forall i | 0 <= i < |deltas| - n
      ensures Linked(moments[n..], deltas[n..], i)
    {
      assert Linked(moments, deltas, n + i);
    }
  }

  lemma {:induction false} ChainNothing(moments: seq<Room>)
    requires |moments| == 1
    ensures Chain(moments, [])
  {
  }

  /** What the journal is told when the oldest `excess` messages go, ... */
  function Evicting(messages: seq<Message>, excess: nat): seq<Delta>
    requires excess <= |messages|
  {
    if excess == 0 then [] else [EvictedThrough(messages[excess - 1].id)]
  }

  /** ... messages are merged in, ... */
  function Inserting(rest: seq<Message>): seq<Delta> {
    seq(|rest|, i requires 0 <= i < |rest| => Inserted(rest[i].id))
  }

  /** ... and notices go. */
  function Removing(notices: seq<Notice>): seq<Delta> {
    seq(|notices|, i requires 0 <= i < |notices| => NoticeRemoved(notices[i].key))
  }

  class RoomHistory {
    var messages: seq<Message>
    var notices: seq<Notice>
    var revision: nat
    var journal: seq<Delta>
    var nextNoticeKey: nat
    /** The room after each revision, and every change there was. */
    ghost var past: seq<Room>
    ghost var told: seq<Delta>

    ghost function Now(): Room
      reads this
    {
      Room(messages, notices)
    }

    /** The journal holds the last 256 changes, which lead up to the last recorded moment. */
    ghost predicate Journaled()
      reads this
    {
      && |past| == revision + 1 && |told| == revision && Chain(past, told)
      && journal == told[SatSub(revision, 256)..]
    }

    /** ... which is the present. */
    ghost predicate Valid()
      reads this
    {
      && Journaled() && past[revision] == Now() && Ordered(Now())
      && (forall n :: n in notices ==> n.key <= nextNoticeKey)
    }

    constructor ()
      ensures Valid() && messages == [] && notices == [] && revision == 0 && AllMoored(past)
    {
      messages, notices, revision, journal, nextNoticeKey := [], [], 0, [], 0;
      past, told := [Room([], [])], [];
      new;
      ChainNothing(past);
    }

    /** Appends one replayable change; the oldest one goes when the journal is full. */
    method Record(delta: Delta, ghost next: Room)
      requires Journaled() && Evolves(past[revision], delta, next)
      modifies this`revision, this`journal, this`past, this`told
      ensures Journaled() && past == old(past) + [next] && past[revision] == next && revision == old(revision) + 1
      ensures told == old(told) + [delta]
      ensures old(AllMoored(past)) && Moored(next) ==> AllMoored(past)
    {
      hide Chain, Evolves, AllMoored, Moored;
      if AllMoored(past) && Moored(next) {
        AllMooredPush(past, next);
      }
      ChainAppend(past, told, delta, next);
      revision := revision + 1;
      past, told := past + [next], told + [delta];
      if |journal| == JOURNAL_CAP {
        journal := journal[1..];
      }
      journal := journal + [delta];
    }

    /** The changes since `applied`, while the journal still covers them; otherwise a view must rebuild. */
    method DeltasSince(applied: nat) returns (deltas: Option<seq<Delta>>)
      requires Valid()
      ensures deltas.None? <==> applied > revision || revision - applied > 256
      ensures |told| == revision && |past| == revision + 1
      ensures deltas.Some? ==> deltas.value == told[applied..] && Chain(past[applied..], deltas.value)
    {
      hide Chain;
      if applied > revision {
        return None;
      }
      var missing := revision - applied;
      if missing > |journal| {
        return None;
      }
      ChainSuffix(past, told, applied);
      return Some(journal[|journal| - missing..]);
    }

    // --- Operations ----------------------------------------------------------------------

    /** Drops the oldest `excess` messages and journals the watermark. */
    method Evict(excess: nat)
      requires Valid() && excess <= |messages|
      modifies this`messages, this`revision, this`journal, this`past, this`told
      ensures Valid() && messages == old(messages)[excess..] && old(past) <= past
      ensures told == old(told) + Evicting(old(messages), excess)
      ensures old(AllMoored(past)) && (excess == 0 || excess < |old(messages)|) ==> AllMoored(past)
    {
      hide Evolves, Chain, AllMoored, Moored;
      if excess == 0 {
        return;
      }
      ghost var before := Now();
      EvictedEvolves(Now(), excess);
      var newest := messages[excess - 1].id;
      messages := messages[excess..];
      EvolvesOrdered(past[revision], EvictedThrough(newest), Now());
      if AllMoored(past) && messages != [] {
        MooredAt(past, revision);
        assert messages[|messages| - 1] == before.messages[|before.messages| - 1];
        MooredBy(before, Now());
      }
      Record(EvictedThrough(newest), Now());
    }

    /** One live message: deduplicated, put at its sorted place, and the front trimmed. */
    method ReceiveChat(m: Message, max: nat) returns (unseen: bool)
      requires Valid()
      modifies this
      ensures Valid() && old(past) <= past && notices == old(notices)
      ensures unseen <==> Find(old(Now()), m.id).None?
      ensures unseen ==>
                var all := Insort(old(messages), m);
                var newest := old(messages) == [] || old(messages)[|old(messages)| - 1].id < m.id;
                && messages == Trimmed(all, max)
                && told == old(told) + [if newest then Appended(m.id) else Inserted(m.id)]
                           + Evicting(all, TrimExcess(|all|, max))
      ensures !unseen ==> told == old(told) && messages == old(messages)
      ensures old(AllMoored(past)) && max > 0 ==> AllMoored(past)
    {
      hide Evolves, Chain, SortedPosition, Position, IdsAscend, AllMoored, Moored;
      ghost var before := Now();
      FindMissing(Now(), m.id);
      if Position(messages, m.id) < |messages| {
        return false;
      }
      InsortEvolves(Now(), m);
      var appended := messages == [] || messages[|messages| - 1].id < m.id;
      messages := if appended then messages + [m] else Insort(messages, m);
      var delta := if appended then Appended(m.id) else Inserted(m.id);
      EvolvesOrdered(past[revision], delta, Now());
      if AllMoored(past) {
        MooredAt(past, revision);
        InsortMembers(before.messages, m);
        MooredBy(before, Now());
      }
      Record(delta, Now());
      Evict(TrimExcess(|messages|, max));
      return true;
    }

    /** A delete folds into its target: the record stays as a hidden tombstone. */
    method FoldDelete(id: nat) returns (applied: bool)
      requires Valid()
      modifies this
      ensures Valid() && old(past) <= past && notices == old(notices)
      ensures applied <==> Find(old(Now()), id).Some? && !Find(old(Now()), id).value.deleted
      ensures applied ==>
                && told == old(told) + [Tombstoned(id)] && |messages| == |old(messages)|
                && forall i :: 0 <= i < |messages| ==>
                     messages[i] == if old(messages)[i].id != id then old(messages)[i]
                                    else old(messages)[i].(deleted := true, body := Body(0, []))
      ensures !applied ==> told == old(told) && messages == old(messages)
      ensures old(AllMoored(past)) ==> AllMoored(past)
    {
      hide Chain, IdsAscend, Find, Position, AllMoored, Moored;
      ghost var before := Now();
      var i := Position(messages, id);
      FindAt(Now(), id);
      if i == |messages| || messages[i].deleted {
        return false;
      }
      var folded := messages[i].(deleted := true, body := Body(0, []));
      RewriteFinds(Now(), i, folded);
      NoticesUntouched(Now(), Now().(messages := messages[i := folded]));
      messages := messages[i := folded];
      if AllMoored(past) {
        MooredAt(past, revision);
        MooredOn(before, Now());
      }
      Record(Tombstoned(id), Now());
      return true;
    }

    /** An edit folds into its target, unless that is gone, deleted, a file, or carries this very edit already. */
    method FoldEdit(id: nat, body: Body, mark: Label, isFile: bool, sameProvenance: bool) returns (applied: bool)
      requires Valid()
      modifies this
      ensures Valid() && old(past) <= past && notices == old(notices)
      ensures applied <==>
                var found := Find(old(Now()), id);
                && !isFile && found.Some? && !found.value.deleted
                && !(found.value.mark.edited && found.value.body == body && sameProvenance)
      ensures applied ==>
                && told == old(told) + [Replaced(id)] && |messages| == |old(messages)|
                && forall i :: 0 <= i < |messages| ==>
                     messages[i] == if old(messages)[i].id != id then old(messages)[i]
                                    else old(messages)[i].(body := body, mark := mark)
      ensures !applied ==> told == old(told) && messages == old(messages)
      ensures old(AllMoored(past)) ==> AllMoored(past)
    {
      hide Chain, IdsAscend, Find, Position, AllMoored, Moored;
      ghost var before := Now();
      var i := Position(messages, id);
      FindAt(Now(), id);
      if i == |messages| || messages[i].deleted || isFile {
        return false;
      }
      if messages[i].mark.edited && messages[i].body == body && sameProvenance {
        return false;
      }
      var folded := messages[i].(body := body, mark := mark);
      RewriteFinds(Now(), i, folded);
      NoticesUntouched(Now(), Now().(messages := messages[i := folded]));
      messages := messages[i := folded];
      if AllMoored(past) {
        MooredAt(past, revision);
        MooredOn(before, Now());
      }
      Record(Replaced(id), Now());
      return true;
    }

    /** A server page: older messages go in front as far as the cap allows, the rest is merged in. */
    method MergePage(page: seq<Message>, max: nat) returns (changed: bool)
      requires Valid() && IdsAscend(page)
      modifies this
      ensures Valid() && old(past) <= past && notices == old(notices)
      ensures changed <==> Absent(page, old(messages)) != []
      ensures !changed ==> messages == old(messages) && told == old(told)
      ensures changed ==>
                var unseen := Absent(page, old(messages));
                var split := SplitPoint(old(messages), unseen);
                var older := unseen[..split][SatSub(split, SatSub(max, |old(messages)|))..];
                var all := Merge(older + old(messages), unseen[split..]);
                && messages == Trimmed(all, max)
                && told == old(told) + (if older == [] then [] else [Relaid]) + Inserting(unseen[split..])
                           + Evicting(all, TrimExcess(|all|, max))
      ensures old(AllMoored(past)) && max > 0 ==> AllMoored(past)
    {
      hide Chain, Evolves, IdsAscend, Merge, Absent, Apart, SplitPoint, Ordered, AllMoored, Moored;
      ghost var before := Now();
      var unseen := Absent(page, messages);
      AbsentApart(page, messages);
      if unseen == [] {
        return false;
      }
      var split := SplitPoint(messages, unseen);
      var older, rest := unseen[..split], unseen[split..];
      var budget := SatSub(max, |messages|);
      var skip := SatSub(|older|, budget);
      older := older[skip..];
      SplitPage(Now(), unseen, split, skip);
      assert older == [] ==> older + messages == messages;
      if older != [] {
        PrependEvolves(Now(), older);
        messages := older + messages;
        EvolvesOrdered(past[revision], Relaid, Now());
        if AllMoored(past) {
          MooredAt(past, revision);
          MooredBy(before, Now());
        }
        Record(Relaid, Now());
      }
      InsertAll(rest);
      Evict(TrimExcess(|messages|, max));
      return true;
    }

    /** Merges a batch and journals one insertion per message. */
    method InsertAll(rest: seq<Message>)
      requires Valid() && IdsAscend(rest) && Apart(messages, rest)
      modifies this`messages, this`revision, this`journal, this`past, this`told
      ensures Valid() && messages == Merge(old(messages), rest) && old(past) <= past
      ensures told == old(told) + Inserting(rest)
      ensures old(AllMoored(past)) ==> AllMoored(past)
    {
      hide Chain, Evolves, IdsAscend, Merge, Apart, AllMoored, Moored;
      ghost var before := Now();
      if AllMoored(past) {
        MooredAt(past, revision);
      }
      MergeNothing(before);
      messages := MergeSorted(messages, rest);
      assert rest[..0] == [];
      for k := 0 to |rest|
        invariant Journaled() && old(past) <= past && messages == Merge(before.messages, rest)
        invariant told == old(told) + Inserting(rest[..k])
        invariant past[revision] == before.(messages := Merge(before.messages, rest[..k]))
        invariant old(AllMoored(past)) ==> AllMoored(past)
      {
        MergeGrows(before, rest, k);
        if old(AllMoored(past)) {
          MergedRoom(before, rest, k + 1);
          MooredBy(before, before.(messages := Merge(before.messages, rest[..k + 1])));
        }
        Record(Inserted(rest[k].id), before.(messages := Merge(before.messages, rest[..k + 1])));
        assert rest[..k + 1] == rest[..k] + [rest[k]];
      }
      assert rest[..|rest|] == rest;
      MergedRoom(before, rest, |rest|);
    }

    /** A shared notice: the oldest ones over the cap go, and are journaled first. */
    method PushNotice(body: Body, mark: Label, max: nat) returns (key: nat)
      requires Valid()
      modifies this
      ensures Valid() && old(past) <= past && messages == old(messages)
      ensures key == old(nextNoticeKey) + 1 && |notices| <= Max(max, 1)
      ensures notices ==
              old(notices)[SatSub(|old(notices)| + 1, Max(max, 1))..] + [Notice(key, Newest(Now()), body, mark)]
      ensures told == old(told) + Removing(old(notices)[..SatSub(|old(notices)| + 1, Max(max, 1))]) + [NoticeAdded(key)]
      ensures old(AllMoored(past)) ==> AllMoored(past)
    {
      hide Chain, Evolves, KeysAscend, IdsAscend, AllMoored, Moored;
      nextNoticeKey := nextNoticeKey + 1;
      key := nextNoticeKey;
      var notice := Notice(key, Newest(Room(messages, notices)), body, mark);
      var excess := SatSub(|notices| + 1, Max(max, 1));
      TrimNotices(excess);
      NoticeAddedEvolves(Now(), notice);
      if AllMoored(past) {
        MooredAt(past, revision);
        MooredPush(Now(), notice);
      }
      notices := notices + [notice];
      EvolvesOrdered(past[revision], NoticeAdded(key), Now());
      Record(NoticeAdded(key), Now());
    }

    /** Drops the oldest `excess` notices, one journal entry each. */
    method TrimNotices(excess: nat)
      requires Valid() && excess <= |notices|
      modifies this`notices, this`revision, this`journal, this`past, this`told
      ensures Valid() && notices == old(notices)[excess..] && old(past) <= past
      ensures told == old(told) + Removing(old(notices)[..excess])
      ensures old(AllMoored(past)) ==> AllMoored(past)
    {
      hide Chain, Evolves, Ordered, Journaled, AllMoored;
      for k := 0 to excess
        invariant Valid() && notices == old(notices)[k..] && old(past) <= past
        invariant told == old(told) + Removing(old(notices)[..k])
        invariant old(AllMoored(past)) ==> AllMoored(past)
      {
        RemoveNoticeAt(0);
        assert notices == old(notices)[k..][1..] == old(notices)[k + 1..];
        assert old(notices)[..k + 1] == old(notices)[..k] + [old(notices)[k]];
      }
    }

    /** One notice goes. */
    method RemoveNoticeAt(i: nat)
      requires Valid() && i < |notices|
      modifies this`notices, this`revision, this`journal, this`past, this`told
      ensures Valid() && notices == old(notices)[..i] + old(notices)[i + 1..] && old(past) <= past
      ensures told == old(told) + [NoticeRemoved(old(notices)[i].key)]
      ensures old(AllMoored(past)) ==> AllMoored(past)
    {
      hide Chain, Evolves, KeysAscend, IdsAscend, AllMoored, Moored;
      NoticeRemovedEvolves(Now(), i);
      if AllMoored(past) {
        MooredAt(past, revision);
        MooredDrop(Now(), i);
      }
      var key := notices[i].key;
      notices := notices[..i] + notices[i + 1..];
      EvolvesOrdered(past[revision], NoticeRemoved(key), Now());
      Record(NoticeRemoved(key), Now());
    }

    /** Which records are the user's own, or unverified, moves for all of them at once: one delta that names nobody. */
    method Relabel(local: nat -> bool, unverified: nat -> bool)
      requires Valid()
      modifies this`messages, this`revision, this`journal, this`past, this`told
      ensures Valid() && messages == Remarked(old(messages), local, unverified)
      ensures past == old(past) + [Now()] && old(past) <= past && told == old(told) + [Relabelled]
      ensures old(AllMoored(past)) ==> AllMoored(past)
    {
      hide Chain, Evolves, KeysAscend, IdsAscend, Remarked, AllMoored, Moored;
      ghost var before := Now();
      RelabelledEvolves(Now(), local, unverified);
      messages := Remarked(messages, local, unverified);
      EvolvesOrdered(past[revision], Relabelled, Now());
      if AllMoored(past) {
        MooredAt(past, revision);
        MooredOn(before, Now());
      }
      Record(Relabelled, Now());
    }

    /** A lower cap trims the log and then the notices. */
    method SetMaxMessages(max: nat)
      requires Valid()
      modifies this
      ensures Valid() && old(past) <= past
      ensures messages == Trimmed(old(messages), Max(max, 1))
      ensures notices == old(notices)[SatSub(|old(notices)|, Max(max, 1))..]
      ensures told == old(told) + Evicting(old(messages), TrimExcess(|old(messages)|, Max(max, 1)))
                      + Removing(old(notices)[..SatSub(|old(notices)|, Max(max, 1))])
      ensures old(AllMoored(past)) ==> AllMoored(past)
    {
      hide Chain, Evolves, KeysAscend, IdsAscend, AllMoored;
      Evict(TrimExcess(|messages|, Max(max, 1)));
      TrimNotices(SatSub(|notices|, Max(max, 1)));
    }
  }

  /** How many messages a trim drops: none within the slack, else all over the cap. */
  function TrimExcess(len: nat, max: nat): (excess: nat)
    ensures excess == 0 <==> len <= max + max / 64
    ensures excess > 0 ==> len - excess == max
  {
    if len <= max + max / 64 then 0 else len - max
  }

  function Trimmed(messages: seq<Message>, max: nat): seq<Message> {
    messages[TrimExcess(|messages|, max)..]
  }

  lemma {:induction false} EvolvesOrdered(a: Room, d: Delta, b: Room)
    requires Evolves(a, d, b)
    ensures Ordered(b)
  {
  }

  lemma {:induction false} FindAt(room: Room, id: nat)
    ensures var i := Position(room.messages, id);
            Find(room, id) == if i < |room.messages| then Some(room.messages[i]) else None
  {
  }

  /** Appending is inserting past everything. */
  lemma {:induction false} InsortEvolves(room: Room, m: Message)
    requires Ordered(room) && forall x :: x in room.messages ==> x.id != m.id
    ensures var next := room.(messages := Insort(room.messages, m));
            if room.messages == [] || room.messages[|room.messages| - 1].id < m.id
            then next.messages == room.messages + [m] && Evolves(room, Appended(m.id), next)
            else Evolves(room, Inserted(m.id), next)
  {
    hide Evolves, SortedPosition;
    var at := SortedPosition(room.messages, m.id);
    InsortAscends(room.messages, m);
    InsortMembers(room.messages, m);
    if room.messages == [] || room.messages[|room.messages| - 1].id < m.id {
      assert at == |room.messages|;
      forall x | x in room.messages
        ensures x.id < m.id
      {
        var i :| 0 <= i < |room.messages| && room.messages[i] == x;
      }
      AppendedEvolves(room, m);
    } else {
      InsertedEvolves(room, room.(messages := Insort(room.messages, m)), m);
    }
  }

  /** The page's messages the log does not hold yet. */
  function Absent(page: seq<Message>, messages: seq<Message>): seq<Message> {
    if page == [] then []
    else
      var last := page[|page| - 1];
      Absent(page[..|page| - 1], messages) + if Position(messages, last.id) < |messages| then [] else [last]
  }

  lemma {:induction false} AbsentMembers(page: seq<Message>, messages: seq<Message>)
    ensures forall x :: x in Absent(page, messages) <==> x in page && forall m :: m in messages ==> m.id != x.id
    ensures forall x :: x in Absent(page, messages) ==> Position(messages, x.id) == |messages|
  {
    hide Position;
    if page != [] {
      var front, last := page[..|page| - 1], page[|page| - 1];
      assert page == front + [last];
      AbsentMembers(front, messages);
      var i := Position(messages, last.id);
      if i < |messages| {
        assert messages[i] in messages;
      }
    }
  }

  lemma {:induction false} AbsentAscends(page: seq<Message>, messages: seq<Message>)
    requires IdsAscend(page)
    ensures IdsAscend(Absent(page, messages))
  {
    hide Position;
    if page != [] {
      var front, last := page[..|page| - 1], page[|page| - 1];
      AbsentAscends(front, messages);
      AbsentMembers(front, messages);
      var kept := Absent(front, messages);
      forall i | 0 <= i < |kept|
        ensures kept[i].id < last.id
      {
        assert kept[i] in front;
        var j :| 0 <= j < |front| && front[j] == kept[i];
      }
    }
  }

  lemma {:induction false} AbsentApart(page: seq<Message>, messages: seq<Message>)
    requires IdsAscend(page)
    ensures IdsAscend(Absent(page, messages)) && Apart(messages, Absent(page, messages))
  {
    hide Position, Absent;
    AbsentAscends(page, messages);
    AbsentMembers(page, messages);
    forall x, y | x in messages && y in Absent(page, messages)
      ensures x.id != y.id
    {
      var i :| 0 <= i < |messages| && messages[i] == x;
    }
  }

  /** How many of the page's messages are older than everything resident. */
  function SplitPoint(messages: seq<Message>, unseen: seq<Message>): (split: nat)
    ensures split <= |unseen|
  {
    if messages == [] then |unseen| else SortedPosition(unseen, messages[0].id)
  }

  lemma {:induction false} SliceMembers(s: seq<Message>, a: nat, b: nat)
    requires a <= b <= |s|
    ensures forall x :: x in s[a..b] ==> exists i :: a <= i < b && s[i] == x
  {
    forall x | x in s[a..b]
      ensures exists i :: a <= i < b && s[i] == x
    {
      var i :| 0 <= i < b - a && s[a..b][i] == x;
      assert s[a + i] == x;
    }
  }

  lemma {:induction false} OlderIsOlder(room: Room, unseen: seq<Message>, split: nat, skip: nat)
    requires Ordered(room) && skip <= split
    requires split == SplitPoint(room.messages, unseen)
    ensures forall x, y :: x in unseen[skip..split] && y in room.messages ==> x.id < y.id
  {
    hide SortedPosition;
    SliceMembers(unseen, skip, split);
    forall x, y | x in unseen[skip..split] && y in room.messages
      ensures x.id < y.id
    {
      var j :| 0 <= j < |room.messages| && room.messages[j] == y;
    }
  }

  /** The split of a page at the oldest resident message. */
  lemma {:induction false} SplitPage(room: Room, unseen: seq<Message>, split: nat, skip: nat)
    requires Ordered(room) && IdsAscend(unseen) && Apart(room.messages, unseen)
    requires split == SplitPoint(room.messages, unseen)
    requires skip <= split
    ensures IdsAscend(unseen[..split][skip..]) && IdsAscend(unseen[split..])
    ensures forall x, y :: x in unseen[..split][skip..] && y in room.messages ==> x.id < y.id
    ensures Apart(room.messages, unseen[split..])
    ensures Apart(unseen[..split][skip..] + room.messages, unseen[split..])
  {
    hide SortedPosition;
    assert unseen[..split][skip..] == unseen[skip..split];
    OlderIsOlder(room, unseen, split, skip);
    SliceMembers(unseen, skip, split);
    SliceMembers(unseen, split, |unseen|);
    assert unseen[split..|unseen|] == unseen[split..];
  }

  lemma {:induction false} MergeHead(a: seq<Message>, i: nat, b: seq<Message>, j: nat)
    requires i < |a| && j < |b|
    ensures Merge(a[i..], b[j..]) ==
            if a[i].id < b[j].id then [a[i]] + Merge(a[i + 1..], b[j..]) else [b[j]] + Merge(a[i..], b[j + 1..])
  {
    assert a[i..][1..] == a[i + 1..] && b[j..][1..] == b[j + 1..];
  }

  lemma {:induction false} MergeRest(a: seq<Message>, b: seq<Message>)
    requires a == [] || b == []
    ensures Merge(a, b) == a + b
  {
  }

  /** Linearly merges two sorted logs. */
  method MergeSorted(resident: seq<Message>, incoming: seq<Message>) returns (merged: seq<Message>)
    ensures merged == Merge(resident, incoming)
  {
    hide Merge;
    merged := [];
    var i, j := 0, 0;
    while i < |resident| && j < |incoming|
      invariant i <= |resident| && j <= |incoming|
      invariant merged + Merge(resident[i..], incoming[j..]) == Merge(resident, incoming)
    {
      MergeHead(resident, i, incoming, j);
      if resident[i].id < incoming[j].id {
        merged := merged + [resident[i]];
        i := i + 1;
      } else {
        merged := merged + [incoming[j]];
        j := j + 1;
      }
    }
    MergeRest(resident[i..], incoming[j..]);
    merged := merged + resident[i..] + incoming[j..];
  }
}
