/** Carrying per-entry state across a rebuild of the id sequence. */
module Resync {
  import opened Arithmetic
  import opened History
  import opened Display
  import opened Layout
  import opened Entries

  datatype Carried = Carried(entry: ViewEntry, lines: Option<nat>)

  /** The outgoing entries by id, with their line counts while those hold. */
  function Collect(entries: seq<ViewEntry>, counts: Counts, n: nat): (previous: map<EntryId, Carried>)
    requires n <= |entries| && (counts.Some? ==> |counts.value| == |entries|)
  {
    if n == 0 then map[]
    else Collect(entries, counts, n - 1)[entries[n - 1].id := Carried(entries[n - 1], CountAt(counts, n - 1))]
  }

  ghost predicate Distinct(entries: seq<ViewEntry>) {
    forall i, j :: 0 <= i < j < |entries| ==> entries[i].id != entries[j].id
  }

  lemma {:induction false} CollectHas(entries: seq<ViewEntry>, counts: Counts, n: nat)
    requires n <= |entries| && (counts.Some? ==> |counts.value| == |entries|) && Distinct(entries)
    ensures forall i :: 0 <= i < n ==>
              entries[i].id in Collect(entries, counts, n)
              && Collect(entries, counts, n)[entries[i].id] == Carried(entries[i], CountAt(counts, i))
    ensures forall x :: x in Collect(entries, counts, n) ==> exists i :: 0 <= i < n && entries[i].id == x
  {
    if n > 0 {
      CollectHas(entries, counts, n - 1);
    }
  }

  /** What stands for `id` after the rebuild: its old entry with a fresh reference flag, or a new one. */
  function CarriedEntry(was: seq<ViewEntry>, room: Room, locals: seq<LocalNotice>, id: EntryId): ViewEntry {
    var i := IndexOf(IdsOf(was), id);
    if i < |was| then was[i].(hasRefs := HasRefs(room, locals, id)) else NewEntry(room, locals, id)
  }

  /** The line count that comes with it. */
  function CarriedLines(was: seq<ViewEntry>, counts: Counts, id: EntryId): Option<nat>
    requires counts.Some? ==> |counts.value| == |was|
  {
    var i := IndexOf(IdsOf(was), id);
    if i < |was| then CountAt(counts, i) else None
  }

  function Resolvable(ids: seq<EntryId>, n: nat, room: Room, locals: seq<LocalNotice>): (kept: seq<EntryId>)
    requires n <= |ids|
    ensures forall x :: x in kept ==> x in ids[..n]
    ensures (forall i :: 0 <= i < n ==> Visible(room, locals, ids[i])) ==> kept == ids[..n]
  {
    if n == 0 then []
    else
      assert ids[..n] == ids[..n - 1] + [ids[n - 1]];
      var kept := Resolvable(ids, n - 1, room, locals);
      if Visible(room, locals, ids[n - 1]) then kept + [ids[n - 1]] else kept
  }

  /** The looked-up state of one id. */
  lemma {:induction false} Lookup(was: seq<ViewEntry>, counts: Counts, id: EntryId)
    requires (counts.Some? ==> |counts.value| == |was|) && Distinct(was)
    ensures var previous := Collect(was, counts, |was|);
            && (id in previous <==> id in IdsOf(was))
            && (id in previous ==> previous[id].lines == CarriedLines(was, counts, id))
            && (id in previous ==> forall room, locals ::
                  previous[id].entry.(hasRefs := HasRefs(room, locals, id)) == CarriedEntry(was, room, locals, id))
            && (id !in previous ==> forall room, locals ::
                  CarriedEntry(was, room, locals, id) == NewEntry(room, locals, id))
            && (id !in previous ==> CarriedLines(was, counts, id) == None)
  {
    hide Collect, IndexOf, IdsOf, HasRefs, NewEntry;
    CollectHas(was, counts, |was|);
    var i := IndexOf(IdsOf(was), id);
    assert i < |was| ==> was[i].id == id;
  }

  /** Every entry and line count is the one carried over for its id. */
  ghost predicate Assembled(entries: seq<ViewEntry>, lines: seq<Option<nat>>, was: seq<ViewEntry>, counts: Counts,
                            room: Room, locals: seq<LocalNotice>)
    requires counts.Some? ==> |counts.value| == |was|
  {
    && |lines| == |entries|
    && forall i :: 0 <= i < |entries| ==>
         entries[i] == CarriedEntry(was, room, locals, entries[i].id)
         && lines[i] == CarriedLines(was, counts, entries[i].id)
  }

  /** Builds the new list out of the old entries, each handed over at most once. */
  method Assemble(was: seq<ViewEntry>, counts: Counts, ids: seq<EntryId>, room: Room, locals: seq<LocalNotice>)
    returns (entries: seq<ViewEntry>, lines: seq<Option<nat>>)
    requires (counts.Some? ==> |counts.value| == |was|) && Distinct(was) && Display.Ascending(ids)
    ensures IdsOf(entries) == Resolvable(ids, |ids|, room, locals)
    ensures Assembled(entries, lines, was, counts, room, locals)
  {
    hide Collect, CarriedEntry, CarriedLines, HasRefs, NewEntry, Visible, IdsOf, Precedes, Distinct;
    ghost var all := Collect(was, counts, |was|);
    var left := Collect(was, counts, |was|);
    entries, lines := [], [];
    forall x
      ensures x in all <==> x in IdsOf(was)
    {
      Lookup(was, counts, x);
    }
    for i := 0 to |ids|
      invariant IdsOf(entries) == Resolvable(ids, i, room, locals)
      invariant Assembled(entries, lines, was, counts, room, locals)
      invariant forall x :: x in left <==> x in all && x !in IdsOf(entries)
      invariant forall x :: x in left ==> left[x] == all[x]
    {
      var id := ids[i];
      if !Visible(room, locals, id) {
        continue;
      }
      Lookup(was, counts, id);
      NotEarlier(ids, i);
      ghost var before := entries;
      if id in left {
        var carried := left[id];
        left := left - {id};
        entries := entries + [carried.entry.(hasRefs := HasRefs(room, locals, id))];
        lines := lines + [carried.lines];
      } else {
        entries := entries + [NewEntry(room, locals, id)];
        lines := lines + [None];
      }
      CarriedId(was, room, locals, id);
      IdsPush(before, entries[|before|]);
    }
  }

  lemma {:induction false} CarriedId(was: seq<ViewEntry>, room: Room, locals: seq<LocalNotice>, id: EntryId)
    ensures CarriedEntry(was, room, locals, id).id == id
  {
    hide IndexOf, IdsOf, HasRefs;
  }

  lemma {:induction false} IdsPush(entries: seq<ViewEntry>, entry: ViewEntry)
    ensures IdsOf(entries + [entry]) == IdsOf(entries) + [entry.id]
  {
    hide IdsOf;
  }

  lemma {:induction false} NotEarlier(ids: seq<EntryId>, i: nat)
    requires Display.Ascending(ids) && i < |ids|
    ensures ids[i] !in ids[..i]
  {
    forall j | 0 <= j < i
      ensures ids[j] != ids[i]
    {
      assert Precedes(ids[j], ids[i]);
    }
  }

  /** Measures what no count came across for. */
  method FillCounts(entries: seq<ViewEntry>, lines: seq<Option<nat>>, measure: Measure, room: Room,
                    locals: seq<LocalNotice>) returns (counts: seq<nat>)
    requires |lines| == |entries|
    ensures |counts| == |entries|
    ensures forall i :: 0 <= i < |counts| ==> counts[i] == Filled(lines[i], measure, room, locals, entries[i].id)
  {
    counts := [];
    for i := 0 to |entries|
      invariant |counts| == i
      invariant forall k :: 0 <= k < i ==> counts[k] == Filled(lines[k], measure, room, locals, entries[k].id)
    {
      counts := counts + [Filled(lines[i], measure, room, locals, entries[i].id)];
    }
  }

  function Filled(lines: Option<nat>, measure: Measure, room: Room, locals: seq<LocalNotice>, id: EntryId): nat {
    if lines.Some? then lines.value else EntryLines(measure, room, locals, id)
  }

  /** The list after a rebuild: flags read anew, line counts carried over or measured. */
  ghost predicate Rebuilt(entries: seq<ViewEntry>, counts: Counts, was: seq<ViewEntry>, wasCounts: Counts,
                          measure: Measure, room: Room, locals: seq<LocalNotice>) {
    && (wasCounts.Some? ==> |wasCounts.value| == |was|)
    && (counts.Some? ==> wasCounts.Some? && |counts.value| == |entries|)
    && forall i :: 0 <= i < |entries| ==>
         entries[i] == CarriedEntry(was, room, locals, entries[i].id)
         && (counts.Some? ==>
               counts.value[i] ==
               Filled(CarriedLines(was, wasCounts, entries[i].id), measure, room, locals, entries[i].id))
  }

  // --- What the counts were measured from ------------------------------------------------------

  /** The texts after a rebuild of the list: carried over with the entries, read for the new ones. */
  ghost function CarriedTexts(texts: Texts, was: seq<EntryId>, ids: seq<EntryId>, room: Room,
                              locals: seq<LocalNotice>): Texts {
    map id | id in ids :: if id in was && id in texts then texts[id] else TextOf(room, locals, id)
  }

  /** Carried counts stay true to their texts. */
  lemma {:induction false} CountsResync(was: seq<ViewEntry>, wasCounts: Counts, entries: seq<ViewEntry>, counts: Counts,
                                        measure: Measure, texts: Texts, room: Room, locals: seq<LocalNotice>)
    requires CountsOk(was, wasCounts, measure, texts)
    requires Rebuilt(entries, counts, was, wasCounts, measure, room, locals)
    ensures CountsOk(entries, counts, measure, CarriedTexts(texts, IdsOf(was), IdsOf(entries), room, locals))
  {
    hide IdsOf, IndexOf, TextLines, TextOf;
    var texts' := CarriedTexts(texts, IdsOf(was), IdsOf(entries), room, locals);
    forall i | 0 <= i < |entries|
      ensures CountOk(entries[i], CountAt(counts, i), measure, texts')
    {
      var id := entries[i].id;
      assert IdsOf(entries)[i] in IdsOf(entries);
      var j := IndexOf(IdsOf(was), id);
      if j < |was| {
        assert CountOk(was[j], CountAt(wasCounts, j), measure, texts);
      }
    }
  }

  /** Flags are read anew for everyone. */
  lemma {:induction false} FlagsResync(entries: seq<ViewEntry>, counts: Counts, was: seq<ViewEntry>, wasCounts: Counts,
                                       measure: Measure, room: Room, locals: seq<LocalNotice>)
    requires Rebuilt(entries, counts, was, wasCounts, measure, room, locals)
    ensures FlagsOk(entries, room, locals, [])
  {
    hide IdsOf, IndexOf, HasRefs, EntryLines, CarriedLines;
  }

  /** Trimming the oldest of a view's own notices hides none of the others. */
  lemma {:induction false} TrimmedLocal(locals: seq<LocalNotice>, excess: nat, n: nat)
    requires excess <= |locals| && FindLocal(locals[excess..], n).Some?
    ensures FindLocal(locals, n) == FindLocal(locals[excess..], n)
  {
    var last := |locals| - 1;
    assert excess < |locals| && locals[excess..][|locals[excess..]| - 1] == locals[last];
    if locals[last].id != n {
      assert locals[excess..][..|locals[excess..]| - 1] == locals[..last][excess..];
      TrimmedLocal(locals[..last], excess, n);
    }
  }

  // --- Cursors -----------------------------------------------------------------------------

  /** Who may take over for `id`: itself if it is still there or never was, otherwise the one next in line. */
  ghost predicate Inherits(id: EntryId, previous: seq<EntryId>, left: seq<EntryId>, heir: Option<EntryId>) {
    if id !in previous || id in left then heir == Some(id)
    else if heir.None? then forall x :: x in previous ==> x !in left
    else exists p, k :: 0 <= p < |previous| && previous[p] == id && TakesOver(previous, p, left, k, heir.value)
  }

  /** Who a cursor on `id` names afterwards. */
  function Successor(id: EntryId, previous: seq<EntryId>, left: seq<EntryId>): (heir: Option<EntryId>)
    ensures Inherits(id, previous, left, heir)
    ensures id in previous && heir.Some? ==> heir.value in left
  {
    if id !in previous || id in left then Some(id)
    else
      var p := IndexOf(previous, id);
      RemapMissing(previous, p, left)
  }

  ghost function EntryAt(at: Option<ViewCursor>): Option<EntryId> {
    if at.Some? then Some(at.value.entry) else None
  }

  /** A cursor goes to whoever takes over, at the offset it had. */
  ghost predicate Moved(at: Option<ViewCursor>, now: Option<ViewCursor>, previous: seq<EntryId>, left: seq<EntryId>) {
    && (at.None? ==> now.None?)
    && (at.Some? ==> Inherits(at.value.entry, previous, left, EntryAt(now)))
    && (at.Some? && now.Some? ==> now.value.offset == at.value.offset)
  }

  function Remapped(at: Option<ViewCursor>, previous: seq<EntryId>, left: seq<EntryId>): (now: Option<ViewCursor>)
    ensures Moved(at, now, previous, left)
  {
    if at.None? then None
    else
      var heir := Successor(at.value.entry, previous, left);
      if heir.Some? then Some(ViewCursor(heir.value, at.value.offset)) else None
  }

  /** In a list without repetitions that leaves no choice. */
  lemma {:induction false} OneHeir(id: EntryId, previous: seq<EntryId>, left: seq<EntryId>, a: Option<EntryId>,
                                   b: Option<EntryId>)
    requires Inherits(id, previous, left, a) && Inherits(id, previous, left, b) && Display.Ascending(previous)
    ensures a == b
  {
    hide Precedes, TakesOver;
    if id in previous && id !in left && a.Some? && b.Some? {
      var p, k :| 0 <= p < |previous| && previous[p] == id && TakesOver(previous, p, left, k, a.value);
      var q, l :| 0 <= q < |previous| && previous[q] == id && TakesOver(previous, q, left, l, b.value);
      OnePlace(previous, p, q);
      OneTakesOver(previous, p, left, k, l, a.value, b.value);
    } else if id in previous && id !in left && a.Some? {
      var p, k :| 0 <= p < |previous| && previous[p] == id && TakesOver(previous, p, left, k, a.value);
      SurvivorThere(previous, p, left, k, a.value);
    } else if id in previous && id !in left && b.Some? {
      var p, k :| 0 <= p < |previous| && previous[p] == id && TakesOver(previous, p, left, k, b.value);
      SurvivorThere(previous, p, left, k, b.value);
    }
  }

  lemma {:induction false} OnePlace(ids: seq<EntryId>, i: nat, j: nat)
    requires Display.Ascending(ids) && i < |ids| && j < |ids| && ids[i] == ids[j]
    ensures i == j
  {
  }

  lemma {:induction false} OneTakesOver(previous: seq<EntryId>, p: nat, left: seq<EntryId>, k: int, l: int, a: EntryId,
                                        b: EntryId)
    requires TakesOver(previous, p, left, k, a) && TakesOver(previous, p, left, l, b)
    ensures a == b
  {
  }

  lemma {:induction false} SurvivorThere(previous: seq<EntryId>, p: nat, left: seq<EntryId>, k: int, heir: EntryId)
    requires TakesOver(previous, p, left, k, heir)
    ensures heir in previous && heir in left
  {
  }
}
