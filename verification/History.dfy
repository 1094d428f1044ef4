/** A room's canonical log and notices, the deltas that describe its changes, and what each delta promises. */
module History {
  import opened Arithmetic
  import opened Layout

  /** A body and the messages its reference pills quote; a reference out of this room has none. */
  datatype Body = Body(text: nat, refs: seq<Option<nat>>) {
    const hasRefs: bool := refs != []
  }

  datatype Message = Message(id: nat, deleted: bool, body: Body, mark: Label)

  /** A shared notice, anchored after the newest message of its moment. */
  datatype Notice = Notice(key: nat, after: Option<nat>, body: Body, mark: Label)

  datatype Room = Room(messages: seq<Message>, notices: seq<Notice>)

  datatype Delta =
    | Appended(id: nat)
    | Inserted(id: nat)
    | Replaced(id: nat)
    | Tombstoned(id: nat)
    | EvictedThrough(watermark: nat)
    | NoticeAdded(key: nat)
    | NoticeRemoved(key: nat)
    | Relaid
    | Relabelled

  ghost predicate IdsAscend(messages: seq<Message>) {
    forall i, j :: 0 <= i < j < |messages| ==> messages[i].id < messages[j].id
  }

  ghost predicate KeysAscend(notices: seq<Notice>) {
    forall i, j :: 0 <= i < j < |notices| ==> notices[i].key < notices[j].key
  }

  ghost predicate Ordered(room: Room) {
    IdsAscend(room.messages) && KeysAscend(room.notices)
  }

  /** The position of a message in the log. */
  function Position(messages: seq<Message>, id: nat): (i: nat)
    ensures i <= |messages|
    ensures i < |messages| ==> messages[i].id == id
    ensures i == |messages| ==> forall k :: 0 <= k < |messages| ==> messages[k].id != id
  {
    if messages == [] then 0
    else if messages[|messages| - 1].id == id then |messages| - 1
    else
      var i := Position(messages[..|messages| - 1], id);
      if i == |messages| - 1 then |messages| else i
  }

  function Find(room: Room, id: nat): (found: Option<Message>)
    ensures found.Some? ==> found.value in room.messages && found.value.id == id
  {
    var i := Position(room.messages, id);
    if i < |room.messages| then Some(room.messages[i]) else None
  }

  function NoticePosition(notices: seq<Notice>, key: nat): (i: nat)
    ensures i <= |notices|
    ensures i < |notices| ==> notices[i].key == key
    ensures i == |notices| ==> forall k :: 0 <= k < |notices| ==> notices[k].key != key
  {
    if notices == [] then 0
    else if notices[|notices| - 1].key == key then |notices| - 1
    else
      var i := NoticePosition(notices[..|notices| - 1], key);
      if i == |notices| - 1 then |notices| else i
  }

  function FindNotice(room: Room, key: nat): (found: Option<Notice>)
    ensures found.Some? ==> found.value in room.notices && found.value.key == key
  {
    var i := NoticePosition(room.notices, key);
    if i < |room.notices| then Some(room.notices[i]) else None
  }

  lemma {:induction false} FindIs(room: Room, i: nat)
    requires IdsAscend(room.messages) && i < |room.messages|
    ensures Find(room, room.messages[i].id) == Some(room.messages[i])
  {
    hide Position;
    var j := Position(room.messages, room.messages[i].id);
  }

  function Newest(room: Room): Option<nat> {
    if room.messages == [] then None else Some(room.messages[|room.messages| - 1].id)
  }

  /** No shared notice is anchored later than a newer one, nor later than the newest message. */
  ghost predicate Moored(room: Room) {
    && (forall i, j :: 0 <= i < j < |room.notices| ==> NotAfter(room.notices[i].after, room.notices[j].after))
    && forall i :: 0 <= i < |room.notices| ==> NotAfter(room.notices[i].after, Newest(room))
  }

  predicate NotAfter(a: Option<nat>, b: Option<nat>) {
    a.Some? ==> b.Some? && a.value <= b.value
  }

  // --- What a delta promises --------------------------------------------------------

  ghost predicate SameNotices(a: Room, b: Room) {
    forall key: nat :: FindNotice(b, key) == FindNotice(a, key)
  }

  ghost predicate SameMessagesBut(a: Room, b: Room, id: nat) {
    forall other: nat :: other != id ==> Find(b, other) == Find(a, other)
  }

  ghost predicate SameMessages(a: Room, b: Room) {
    forall id: nat :: Find(b, id) == Find(a, id)
  }

  /** Everything but the marks drawn in the heading. */
  ghost predicate Relabels(a: Room, b: Room) {
    forall id: nat :: (Find(a, id).Some? <==> Find(b, id).Some?)
      && (Find(a, id).Some? ==>
            Find(b, id).value.deleted == Find(a, id).value.deleted
            && Find(b, id).value.body == Find(a, id).value.body
            && Find(b, id).value.mark.sender == Find(a, id).value.mark.sender)
  }

  /** One change: `b` is `a` after the change that `d` names, read through the lookups a view has. */
  ghost predicate Evolves(a: Room, d: Delta, b: Room) {
    && Ordered(a) && Ordered(b)
    && match d
       case Appended(id) =>
         SameNotices(a, b) && SameMessagesBut(a, b, id) && Find(b, id).Some?
         && forall other: nat :: Find(a, other).Some? ==> other < id
       case Inserted(id) =>
         SameNotices(a, b) && SameMessagesBut(a, b, id) && Find(a, id).None? && Find(b, id).Some?
       case Replaced(id) =>
         SameNotices(a, b) && SameMessagesBut(a, b, id) && Find(a, id).Some? && Find(b, id).Some?
         && Find(a, id).value.deleted == Find(b, id).value.deleted
       case Tombstoned(id) =>
         SameNotices(a, b) && SameMessagesBut(a, b, id) && Find(b, id).Some? && Find(b, id).value.deleted
       case EvictedThrough(w) =>
         SameNotices(a, b) && forall id: nat :: Find(b, id) == if id <= w then None else Find(a, id)
       case NoticeAdded(key) =>
         SameMessages(a, b) && FindNotice(b, key).Some?
         && (forall other: nat :: other != key ==> FindNotice(b, other) == FindNotice(a, other))
         && (forall other: nat :: FindNotice(a, other).Some? ==> other < key)
       case NoticeRemoved(key) =>
         SameMessages(a, b) && FindNotice(b, key).None?
         && (forall other: nat :: other != key ==> FindNotice(b, other) == FindNotice(a, other))
       case Relaid =>
         SameNotices(a, b) && forall id: nat :: Find(a, id).Some? ==> Find(b, id) == Find(a, id)
       case Relabelled =>
         SameNotices(a, b) && Relabels(a, b)
  }

  /** The room went through `moments`, one delta at a time. */
  ghost predicate Chain(moments: seq<Room>, deltas: seq<Delta>) {
    && |moments| == |deltas| + 1
    && forall i :: 0 <= i < |deltas| ==> Linked(moments, deltas, i)
  }

  ghost predicate Linked(moments: seq<Room>, deltas: seq<Delta>, i: nat)
    requires |moments| == |deltas| + 1 && i < |deltas|
  {
    Evolves(moments[i], deltas[i], moments[i + 1])
  }

  lemma {:induction false} ChainTail(moments: seq<Room>, deltas: seq<Delta>)
    requires Chain(moments, deltas) && deltas != []
    ensures Chain(moments[1..], deltas[1..])
  {
    hide Evolves;
    forall i | 0 <= i < |deltas| - 1
      ensures Linked(moments[1..], deltas[1..], i)
    {
      assert Linked(moments, deltas, i + 1);
    }
  }
}
