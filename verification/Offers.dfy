/** File offers held back until their announcement arrives: a bounded backlog per room and overall. */
module Offers {
  import opened Arithmetic

  const MAX_PENDING_MLS_FILE_BYTES: nat := 2 * 1024 * 1024
  const MAX_PENDING_MLS_FILE_ITEMS: nat := 1024
  const MAX_PENDING_MLS_FILE_GLOBAL_BYTES: nat := 16 * 1024 * 1024
  const MAX_PENDING_MLS_FILE_GLOBAL_ITEMS: nat := 8192

  /** Addition that stops at the top of a machine word. */
  function SatAdd(a: nat, b: nat): nat {
    Min(a + b, USIZE_LIMIT - 1)
  }

  datatype Offer = Offer(room: nat, transfer: nat, announced: bool)

  function RetainedBytes(offer: Offer): nat {
    if offer.announced then 272 else 256
  }

  function Retained(items: seq<Offer>): nat {
    if items == [] then 0 else RetainedBytes(items[0]) + Retained(items[1..])
  }

  function Announced(items: seq<Offer>): nat {
    if items == [] then 0 else (if items[0].announced then 1 else 0) + Announced(items[1..])
  }

  /** An offer is held at 256 bytes, and at 16 more with an event id. */
  lemma {:induction false} RetainedIs(items: seq<Offer>)
    ensures Retained(items) == 256 * |items| + 16 * Announced(items)
  {
    if items != [] {
      RetainedIs(items[1..]);
    }
  }

  lemma {:induction false} RetainedPush(items: seq<Offer>, offer: Offer)
    ensures Retained(items + [offer]) == Retained(items) + RetainedBytes(offer)
  {
    if items != [] {
      assert (items + [offer])[1..] == items[1..] + [offer];
      RetainedPush(items[1..], offer);
    }
  }

  lemma {:induction false} RetainedDrop(items: seq<Offer>, n: nat)
    requires n <= |items|
    ensures Retained(items[n..]) <= Retained(items)
  {
    if n > 0 {
      RetainedDrop(items[1..], n - 1);
      assert items[1..][n - 1..] == items[n..];
    }
  }

  datatype PendingRoom = PendingRoom(items: seq<Offer>, bytes: nat)

  datatype Measure = Bytes | Items

  function Weigh(room: PendingRoom, measure: Measure): nat {
    match measure
    case Bytes => room.bytes
    case Items => |room.items|
  }

  /** The sum over all rooms. */
  ghost function Total(rooms: map<nat, PendingRoom>, measure: Measure): nat
    decreases |rooms|
  {
    if rooms == map[] then 0
    else
      var id :| id in rooms;
      Smaller(rooms, id);
      Weigh(rooms[id], measure) + Total(rooms - {id}, measure)
  }

  lemma {:induction false} Smaller(rooms: map<nat, PendingRoom>, id: nat)
    requires id in rooms
    ensures |rooms - {id}| < |rooms|
  {
    assert (rooms - {id}).Keys == rooms.Keys - {id};
    assert |rooms.Keys| == |rooms| && |(rooms - {id}).Keys| == |rooms - {id}|;
  }

  /** Whichever room is counted first, the sum is the same. */
  lemma {:induction false} TotalSplit(rooms: map<nat, PendingRoom>, id: nat, measure: Measure)
    requires id in rooms
    ensures Total(rooms, measure) == Weigh(rooms[id], measure) + Total(rooms - {id}, measure)
    decreases |rooms|
  {
    var first :| first in rooms
      && Total(rooms, measure) == Weigh(rooms[first], measure) + Total(rooms - {first}, measure);
    if first != id {
      Smaller(rooms, first);
      Smaller(rooms, id);
      TotalSplit(rooms - {first}, id, measure);
      TotalSplit(rooms - {id}, first, measure);
      assert rooms - {first} - {id} == rooms - {id} - {first};
    }
  }

  lemma {:induction false} TotalUpdate(rooms: map<nat, PendingRoom>, id: nat, room: PendingRoom, measure: Measure)
    ensures Total(rooms[id := room], measure) == Weigh(room, measure) + Total(rooms - {id}, measure)
    ensures id !in rooms ==> rooms - {id} == rooms
  {
    TotalSplit(rooms[id := room], id, measure);
    assert rooms[id := room] - {id} == rooms - {id};
  }

  ghost predicate RoomOk(room: PendingRoom, id: nat) {
    && room.items != [] && room.bytes == Retained(room.items)
    && |room.items| <= MAX_PENDING_MLS_FILE_ITEMS && room.bytes <= MAX_PENDING_MLS_FILE_BYTES
    && forall i :: 0 <= i < |room.items| ==> room.items[i].room == id
  }

  class OfferBacklog {
    var rooms: map<nat, PendingRoom>
    var bytes: nat
    var items: nat

    /** Counters are the sums they stand for, and every limit holds. */
    ghost predicate Valid()
      reads this
    {
      && (forall id :: id in rooms ==> RoomOk(rooms[id], id))
      && bytes == Total(rooms, Bytes) && items == Total(rooms, Items)
      && bytes <= MAX_PENDING_MLS_FILE_GLOBAL_BYTES && items <= MAX_PENDING_MLS_FILE_GLOBAL_ITEMS
    }

    function Queue(id: nat): seq<Offer>
      reads this
    {
      if id in rooms then rooms[id].items else []
    }

    constructor ()
      ensures Valid() && rooms == map[]
    {
      rooms, bytes, items := map[], 0, 0;
    }

    predicate Full(offer: Offer)
      reads this
    {
      var retained := RetainedBytes(offer);
      || (offer.room in rooms
          && (|rooms[offer.room].items| >= MAX_PENDING_MLS_FILE_ITEMS
              || SatAdd(rooms[offer.room].bytes, retained) > MAX_PENDING_MLS_FILE_BYTES))
      || items >= MAX_PENDING_MLS_FILE_GLOBAL_ITEMS
      || SatAdd(bytes, retained) > MAX_PENDING_MLS_FILE_GLOBAL_BYTES
    }

    /** Holds an offer back at the end of its room's queue, or drops it when a limit would break. */
    method Defer(offer: Offer) returns (kept: bool)
      requires Valid()
      modifies this
      ensures Valid()
      ensures kept <==>
                && |old(Queue(offer.room))| + 1 <= 1024 && Retained(old(Queue(offer.room)) + [offer]) <= 2 * 1024 * 1024
                && old(Total(rooms, Items)) + 1 <= 8192
                && old(Total(rooms, Bytes)) + Retained([offer]) <= 16 * 1024 * 1024
      ensures Queue(offer.room) == if kept then old(Queue(offer.room)) + [offer] else old(Queue(offer.room))
      ensures forall id :: id != offer.room ==> Queue(id) == old(Queue(id))
      ensures bytes == old(bytes) + (if kept then RetainedBytes(offer) else 0)
      ensures items == old(items) + (if kept then 1 else 0)
    {
      hide Total, Retained;
      RetainedNothing();
      RetainedPush(Queue(offer.room), offer);
      RetainedPush([], offer);
      assert [] + [offer] == [offer];
      if Full(offer) {
        return false;
      }
      var retained := RetainedBytes(offer);
      var room := if offer.room in rooms then rooms[offer.room] else PendingRoom([], 0);
      Without(rooms, offer.room, Bytes);
      Without(rooms, offer.room, Items);
      var grown := PendingRoom(room.items + [offer], SatAdd(room.bytes, retained));
      TotalUpdate(rooms, offer.room, grown, Bytes);
      TotalUpdate(rooms, offer.room, grown, Items);
      bytes := SatAdd(bytes, retained);
      items := SatAdd(items, 1);
      rooms := rooms[offer.room := grown];
      return true;
    }

    /**
     * Hands out the longest ready prefix of a room's queue, in order, and keeps the rest. `ready` answers none
     * when the lookup itself fails, which ends the session and gives the room up.
     */
    method Drain(id: nat, ready: Offer -> Option<bool>) returns (handled: seq<Offer>, failed: bool)
      requires Valid()
      modifies this
      ensures Valid() && forall other :: other != id ==> Queue(other) == old(Queue(other))
      ensures handled <= old(Queue(id)) && forall i :: 0 <= i < |handled| ==> ready(handled[i]) == Some(true)
      ensures !failed ==> old(Queue(id)) == handled + Queue(id)
      ensures !failed && Queue(id) != [] ==> ready(Queue(id)[0]) == Some(false)
      ensures failed ==> Queue(id) == [] && |handled| < |old(Queue(id))| && ready(old(Queue(id))[|handled|]) == None
    {
      hide Total, Retained;
      handled, failed := [], false;
      if id !in rooms {
        return;
      }
      var room := rooms[id];
      TotalSplit(rooms, id, Bytes);
      TotalSplit(rooms, id, Items);
      rooms := rooms - {id};
      bytes := SatSub(bytes, room.bytes);
      items := SatSub(items, |room.items|);
      var n := 0;
      while n < |room.items|
        invariant n <= |room.items| && handled == room.items[..n]
        invariant forall i :: 0 <= i < n ==> ready(room.items[i]) == Some(true)
      {
        var answer := ready(room.items[n]);
        if answer.None? {
          failed := true;
          return;
        }
        if !answer.value {
          break;
        }
        n := n + 1;
        handled := handled + [room.items[n - 1]];
      }
      var left := room.items[n..];
      if left != [] {
        RetainedDrop(room.items, n);
        var kept := PendingRoom(left, Retained(left));
        TotalUpdate(rooms, id, kept, Bytes);
        TotalUpdate(rooms, id, kept, Items);
        bytes := SatAdd(bytes, kept.bytes);
        items := SatAdd(items, |left|);
        rooms := rooms[id := kept];
      }
    }
  }

  lemma {:induction false} RetainedNothing()
    ensures Retained([]) == 0
  {
  }

  lemma {:induction false} Without(rooms: map<nat, PendingRoom>, id: nat, measure: Measure)
    ensures Total(rooms, measure) ==
            (if id in rooms then Weigh(rooms[id], measure) else 0) + Total(rooms - {id}, measure)
  {
    if id in rooms {
      TotalSplit(rooms, id, measure);
    } else {
      assert rooms - {id} == rooms;
    }
  }
}
