/** What a view's line counts were measured from, through batches and re-lays, and when the room still says that. */
module Measuring {
  import opened Arithmetic
  import opened History
  import opened Display
  import opened Layout
  import opened Entries
  import opened Resync

  /** The deltas that may change what a reference pill shows. */
  predicate AboutMessages(d: Delta) {
    d.Appended? || d.Inserted? || d.Replaced? || d.Tombstoned? || d.EvictedThrough?
  }

  ghost predicate Dirty(deltas: seq<Delta>) {
    exists d :: d in deltas && AboutMessages(d)
  }

  // --- One delta at a time ------------------------------------------------------------------------

  /** A materialized entry is measured at once. */
  ghost function Noted(texts: Texts, id: EntryId, end: Room, locals: seq<LocalNotice>,
                       boundary: Option<ClearBoundary>): Texts {
    if Hidden(boundary, id) || !Visible(end, locals, id) then texts else texts[id := TextOf(end, locals, id)]
  }

  ghost function StepTexts(texts: Texts, ids: seq<EntryId>, d: Delta, end: Room, locals: seq<LocalNotice>,
                           boundary: Option<ClearBoundary>): Texts {
    match d
    case Appended(m) => Noted(texts, Msg(m), end, locals, boundary)
    case Inserted(m) => Noted(texts, Msg(m), end, locals, boundary)
    case NoticeAdded(k) => Noted(texts, Shared(k), end, locals, boundary)
    case Replaced(m) =>
      if Msg(m) in ids && Visible(end, locals, Msg(m)) then texts[Msg(m) := TextOf(end, locals, Msg(m))] else texts
    case _ => texts
  }

  ghost function ReplayedTexts(texts: Texts, ids: seq<EntryId>, deltas: seq<Delta>, end: Room, locals: seq<LocalNotice>,
                               boundary: Option<ClearBoundary>): Texts
    decreases deltas
  {
    if deltas == [] then texts
    else
      var d := deltas[0];
      ReplayedTexts(StepTexts(texts, ids, d, end, locals, boundary), Step(ids, d, end, locals, boundary), deltas[1..],
                    end, locals, boundary)
  }

  ghost predicate Known(texts: Texts, ids: seq<EntryId>) {
    forall id :: id in ids ==> id in texts
  }

  /** What a delta adds was not shown before it. */
  lemma {:induction false} AddedIsNew(ids: seq<EntryId>, d: Delta, now: Room, next: Room, end: Room,
                                      locals: seq<LocalNotice>, boundary: Option<ClearBoundary>, all: bool)
    requires Evolves(now, d, next) && Catching(ids, now, end, locals, boundary, all)
    ensures d.Appended? || d.Inserted? ==> Msg(d.id) !in ids
    ensures d.NoticeAdded? ==> Shared(d.key) !in ids
  {
    hide Find, FindNotice, FindLocal, Ordered, Visible;
  }

  /** Whom a delta neither rewrites nor drops stays shown. */
  lemma {:induction false} UntouchedStays(ids: seq<EntryId>, d: Delta, end: Room, locals: seq<LocalNotice>,
                                          boundary: Option<ClearBoundary>, id: EntryId)
    requires Display.Ascending(ids) && id in ids && !Touches(d, id)
    ensures id in Step(ids, d, end, locals, boundary)
  {
    hide Visible, Hidden, InsertAt, Without, Survivors, Display.Ascending;
    match d
    case Appended(m) => InsertMembers(ids, |ids|, Msg(m));
    case Inserted(m) => InsertMembers(ids, InsertPosition(ids, m), Msg(m));
    case Replaced(m) => RemoveMembers(ids, Msg(m));
    case Tombstoned(m) => RemoveMembers(ids, Msg(m));
    case EvictedThrough(w) => SurvivorMembers(ids, w);
    case NoticeAdded(k) => InsertMembers(ids, |ids|, Shared(k));
    case NoticeRemoved(k) => RemoveMembers(ids, Shared(k));
    case Relaid =>
    case Relabelled =>
  }

  /** Whom it shows besides is read from the end state. */
  lemma {:induction false} OthersRead(texts: Texts, ids: seq<EntryId>, d: Delta, end: Room, locals: seq<LocalNotice>,
                                      boundary: Option<ClearBoundary>, id: EntryId)
    requires Display.Ascending(ids) && id in Step(ids, d, end, locals, boundary) && !(id in ids && !Touches(d, id))
    ensures id in StepTexts(texts, ids, d, end, locals, boundary)
    ensures StepTexts(texts, ids, d, end, locals, boundary)[id] == TextOf(end, locals, id)
  {
    hide Visible, Hidden, InsertAt, Without, Survivors, Display.Ascending, TextOf;
    match d
    case Appended(m) => InsertMembers(ids, |ids|, Msg(m));
    case Inserted(m) => InsertMembers(ids, InsertPosition(ids, m), Msg(m));
    case Replaced(m) => RemoveMembers(ids, Msg(m));
    case Tombstoned(m) => RemoveMembers(ids, Msg(m));
    case EvictedThrough(w) => SurvivorMembers(ids, w);
    case NoticeAdded(k) => InsertMembers(ids, |ids|, Shared(k));
    case NoticeRemoved(k) => RemoveMembers(ids, Shared(k));
    case Relaid =>
    case Relabelled =>
  }

  /** One delta: what it neither adds nor touches keeps its text. */
  lemma {:induction false} StepText(texts: Texts, ids: seq<EntryId>, d: Delta, now: Room, next: Room, end: Room,
                                    locals: seq<LocalNotice>, boundary: Option<ClearBoundary>, all: bool, id: EntryId)
    requires Evolves(now, d, next) && Catching(ids, now, end, locals, boundary, all)
    requires Known(texts, ids) && id in Step(ids, d, end, locals, boundary)
    ensures var after := StepTexts(texts, ids, d, end, locals, boundary);
            id in after && after[id] == if id in ids && !Touches(d, id) then texts[id] else TextOf(end, locals, id)
  {
    hide Evolves, Visible, Hidden, TextOf, Step;
    if id in ids && !Touches(d, id) {
      AddedIsNew(ids, d, now, next, end, locals, boundary, all);
    } else {
      OthersRead(texts, ids, d, end, locals, boundary, id);
    }
  }

  /**
   * A whole batch without a re-lay: what was shown and is untouched keeps its text, everything else is read from the
   * end state.
   */
  lemma {:induction false} ReplayedText(texts: Texts, ids: seq<EntryId>, moments: seq<Room>, deltas: seq<Delta>,
                                        end: Room, locals: seq<LocalNotice>, boundary: Option<ClearBoundary>, all: bool,
                                        id: EntryId)
    requires Chain(moments, deltas) && Relaid !in deltas && Catching(ids, moments[0], end, locals, boundary, all)
    requires Known(texts, ids) && id in Replayed(ids, deltas, end, locals, boundary)
    ensures var after := ReplayedTexts(texts, ids, deltas, end, locals, boundary);
            id in after && after[id] == if id in ids && !Touched(deltas, id) then texts[id] else TextOf(end, locals, id)
    decreases deltas
  {
    hide Evolves, Catching, Step, StepTexts, TextOf, Touches;
    if deltas != [] {
      var d, rest := deltas[0], deltas[1..];
      var ids', texts' := Step(ids, d, end, locals, boundary), StepTexts(texts, ids, d, end, locals, boundary);
      assert Linked(moments, deltas, 0) && d in deltas;
      StepCatches(ids, d, moments[0], moments[1], end, locals, boundary, all);
      ChainTail(moments, deltas);
      forall x | x in ids'
        ensures x in texts'
      {
        StepText(texts, ids, d, moments[0], moments[1], end, locals, boundary, all, x);
      }
      ReplayedText(texts', ids', moments[1..], rest, end, locals, boundary, all, id);
      if id in ids' {
        StepText(texts, ids, d, moments[0], moments[1], end, locals, boundary, all, id);
      } else if id in ids && !Touches(d, id) {
        CatchingOrder(ids, moments[0], end, locals, boundary, all);
        UntouchedStays(ids, d, end, locals, boundary, id);
      }
    }
  }

  lemma {:induction false} CatchingOrder(ids: seq<EntryId>, now: Room, end: Room, locals: seq<LocalNotice>,
                                         boundary: Option<ClearBoundary>, all: bool)
    requires Catching(ids, now, end, locals, boundary, all)
    ensures Display.Ascending(ids)
  {
    hide Display.Ascending, Visible, Resident;
  }

  // --- What a pass reads again, and what it carries over ------------------------------------------

  /** The bodies a batch reads again: with a re-lay those it names as replaced, otherwise those it touches. */
  predicate Renewed(deltas: seq<Delta>, id: EntryId) {
    if Relaid in deltas then id.Msg? && Replaced(id.id) in deltas else Touched(deltas, id)
  }

  /** An entry whose text a pass reads from the room: one that is new, renewed, or quotes while messages moved. */
  ghost predicate Read(was: seq<EntryId>, deltas: seq<Delta>, room: Room, locals: seq<LocalNotice>, id: EntryId) {
    id !in was || Renewed(deltas, id) || (Dirty(deltas) && HasRefs(room, locals, id))
  }

  /** The texts after a pass over `deltas`: read from the room, or carried over. */
  ghost predicate Passed(texts: Texts, ids: seq<EntryId>, prior: Texts, was: seq<EntryId>, deltas: seq<Delta>,
                         room: Room,
                         locals: seq<LocalNotice>) {
    forall id :: id in ids ==>
      id in texts
      && (Read(was, deltas, room, locals, id) ==> texts[id] == TextOf(room, locals, id))
      && (!Read(was, deltas, room, locals, id) ==> id in prior && texts[id] == prior[id])
  }

  /** Every count was measured from what the room now says. */
  ghost predicate Fresh(texts: Texts, ids: seq<EntryId>, room: Room, locals: seq<LocalNotice>) {
    forall id :: id in ids ==> id in texts && texts[id] == TextOf(room, locals, id)
  }

  /** Whatever a pass carries over says the same at both moments. */
  ghost predicate Unmoved(ids: seq<EntryId>, was: seq<EntryId>, deltas: seq<Delta>, start: Room,
                          before: seq<LocalNotice>,
                          room: Room, locals: seq<LocalNotice>) {
    forall id :: id in ids && !Read(was, deltas, room, locals, id) ==>
      TextOf(start, before, id) == TextOf(room, locals, id)
  }

  /** Before pills are read again. */
  ghost predicate Halfway(texts: Texts, ids: seq<EntryId>, prior: Texts, was: seq<EntryId>, deltas: seq<Delta>,
                          room: Room,
                          locals: seq<LocalNotice>) {
    forall id :: id in ids ==>
      id in texts
      && (id !in was || Renewed(deltas, id) ==> texts[id] == TextOf(room, locals, id))
      && (id in was && !Renewed(deltas, id) ==> id in prior && texts[id] == prior[id])
  }

  lemma {:induction false} ReplayedHalfway(prior: Texts, was: seq<EntryId>, moments: seq<Room>, deltas: seq<Delta>,
                                           end: Room, locals: seq<LocalNotice>, boundary: Option<ClearBoundary>,
                                           all: bool)
    requires Chain(moments, deltas) && Relaid !in deltas && Known(prior, was)
    requires Catching(was, moments[0], end, locals, boundary, all)
    ensures Halfway(ReplayedTexts(prior, was, deltas, end, locals, boundary),
                    Replayed(was, deltas, end, locals, boundary), prior, was, deltas, end, locals)
  {
    assert |moments| == |deltas| + 1;
    hide Chain, Catching, Touched, TextOf, ReplayedTexts, Replayed;
    forall id | id in Replayed(was, deltas, end, locals, boundary)
      ensures var after := ReplayedTexts(prior, was, deltas, end, locals, boundary);
              id in after
              && after[id] == if id in was && !Touched(deltas, id) then prior[id] else TextOf(end, locals, id)
    {
      ReplayedText(prior, was, moments, deltas, end, locals, boundary, all, id);
    }
  }

  lemma {:induction false} CarriedHalfway(prior: Texts, was: seq<EntryId>, ids: seq<EntryId>, room: Room,
                                          locals: seq<LocalNotice>)
    requires Known(prior, was)
    ensures Halfway(CarriedTexts(prior, was, ids, room, locals), ids, prior, was, [], room, locals)
  {
    hide TextOf;
  }

  // --- Re-lays ------------------------------------------------------------------------------------

  /** A re-lay has carried the texts over and read those that `done` names as replaced. */
  ghost predicate Reading(texts: Texts, ids: seq<EntryId>, prior: Texts, was: seq<EntryId>, done: seq<Delta>,
                          room: Room,
                          locals: seq<LocalNotice>) {
    forall id :: id in ids ==>
      var again := id !in was || (id.Msg? && Replaced(id.id) in done);
      && id in texts && (again ==> texts[id] == TextOf(room, locals, id))
      && (!again ==> id in prior && texts[id] == prior[id])
  }

  lemma {:induction false} RelaidStart(texts: Texts, ids: seq<EntryId>, prior: Texts, was: seq<EntryId>, room: Room,
                                       locals: seq<LocalNotice>)
    requires Known(prior, was) && texts == CarriedTexts(prior, was, ids, room, locals)
    ensures Reading(texts, ids, prior, was, [], room, locals)
  {
    hide TextOf;
  }

  lemma {:induction false} ReadingNext(texts: Texts, ids: seq<EntryId>, prior: Texts, was: seq<EntryId>,
                                       deltas: seq<Delta>, i: nat, room: Room, locals: seq<LocalNotice>,
                                       boundary: Option<ClearBoundary>)
    requires i < |deltas| && Reading(texts, ids, prior, was, deltas[..i], room, locals)
    requires InStep(ids, room, locals, boundary)
    ensures Reading(if deltas[i].Replaced? then StepTexts(texts, ids, deltas[i], room, locals, boundary) else texts,
                    ids, prior, was, deltas[..i + 1], room, locals)
  {
    hide TextOf, Visible, Display.Ascending;
    assert deltas[..i + 1] == deltas[..i] + [deltas[i]];
  }

  lemma {:induction false} ReadingDone(texts: Texts, ids: seq<EntryId>, prior: Texts, was: seq<EntryId>,
                                       deltas: seq<Delta>, room: Room, locals: seq<LocalNotice>)
    requires Relaid in deltas && Reading(texts, ids, prior, was, deltas, room, locals)
    ensures Halfway(texts, ids, prior, was, deltas, room, locals)
  {
    hide TextOf;
  }

  // --- Pills -----------------------------------------------------------------------------------------

  /** The texts with those of the first `n` entries that carry references read again. */
  ghost function PillsRead(texts: Texts, entries: seq<ViewEntry>, n: nat, room: Room, locals: seq<LocalNotice>): Texts
    requires n <= |entries|
  {
    if n == 0 then texts
    else
      var read, last := PillsRead(texts, entries, n - 1, room, locals), entries[n - 1];
      if last.hasRefs then read[last.id := TextOf(room, locals, last.id)] else read
  }

  lemma {:induction false} PillsStart(texts: Texts, entries: seq<ViewEntry>, room: Room, locals: seq<LocalNotice>)
    ensures PillsRead(texts, entries, 0, room, locals) == texts
  {
  }

  lemma {:induction false} PillsNext(texts: Texts, entries: seq<ViewEntry>, i: nat, room: Room,
                                     locals: seq<LocalNotice>)
    requires i < |entries|
    ensures var read := PillsRead(texts, entries, i, room, locals);
            PillsRead(texts, entries, i + 1, room, locals) ==
            if entries[i].hasRefs then read[entries[i].id := TextOf(room, locals, entries[i].id)] else read
  {
  }

  lemma {:induction false} NoPills(texts: Texts, entries: seq<ViewEntry>, n: nat, room: Room, locals: seq<LocalNotice>)
    requires n <= |entries| && forall i :: 0 <= i < |entries| ==> !entries[i].hasRefs
    ensures PillsRead(texts, entries, n, room, locals) == texts
  {
    if n > 0 {
      NoPills(texts, entries, n - 1, room, locals);
    }
  }

  lemma {:induction false} PillAt(texts: Texts, entries: seq<ViewEntry>, n: nat, room: Room, locals: seq<LocalNotice>,
                                  i: nat)
    requires n <= |entries| && i < |entries| && Distinct(entries) && entries[i].id in texts
    ensures var read := PillsRead(texts, entries, n, room, locals);
            var id := entries[i].id;
            id in read && read[id] == if i < n && entries[i].hasRefs then TextOf(room, locals, id) else texts[id]
  {
    hide TextOf;
    if n > 0 {
      PillAt(texts, entries, n - 1, room, locals, i);
    }
  }

  /** Reading the pills, if messages moved, completes the pass. */
  lemma {:induction false} HalfwayPasses(mid: Texts, texts: Texts, entries: seq<ViewEntry>, prior: Texts,
                                         was: seq<EntryId>, deltas: seq<Delta>, room: Room, locals: seq<LocalNotice>)
    requires Halfway(mid, IdsOf(entries), prior, was, deltas, room, locals)
    requires FlagsOk(entries, room, locals, []) && Distinct(entries)
    requires texts == if Dirty(deltas) then PillsRead(mid, entries, |entries|, room, locals) else mid
    ensures Passed(texts, IdsOf(entries), prior, was, deltas, room, locals)
  {
    hide IdsOf, TextOf, PillsRead, Dirty, HasRefs, Renewed, Distinct;
    forall id | id in IdsOf(entries)
      ensures id in texts
      ensures Read(was, deltas, room, locals, id) ==> texts[id] == TextOf(room, locals, id)
      ensures !Read(was, deltas, room, locals, id) ==> id in prior && texts[id] == prior[id]
    {
      var i :| 0 <= i < |IdsOf(entries)| && IdsOf(entries)[i] == id;
      assert FlagOk(entries[i], room, locals, []);
      if Dirty(deltas) {
        PillAt(mid, entries, |entries|, room, locals, i);
      }
    }
  }

  // --- Fresh views ------------------------------------------------------------------------------------

  /** From a fresh view a pass leads to a fresh one exactly when what it carries over says the same at both moments. */
  lemma {:induction false} FreshIff(texts: Texts, ids: seq<EntryId>, prior: Texts, was: seq<EntryId>,
                                    deltas: seq<Delta>, start: Room, before: seq<LocalNotice>, room: Room,
                                    locals: seq<LocalNotice>)
    requires Fresh(prior, was, start, before) && Passed(texts, ids, prior, was, deltas, room, locals)
    ensures Fresh(texts, ids, room, locals) <==> Unmoved(ids, was, deltas, start, before, room, locals)
  {
    hide TextOf, Renewed, Dirty, HasRefs;
    if Fresh(texts, ids, room, locals) {
      forall id | id in ids && !Read(was, deltas, room, locals, id)
        ensures TextOf(start, before, id) == TextOf(room, locals, id)
      {
        assert id in was;
      }
    }
  }

  /** Entry by entry: a carried count is right under every measure exactly when both moments give the same text. */
  lemma {:induction false} CarriedIsRight(texts: Texts, ids: seq<EntryId>, prior: Texts, was: seq<EntryId>,
                                          deltas: seq<Delta>, start: Room, before: seq<LocalNotice>, room: Room,
                                          locals: seq<LocalNotice>, id: EntryId)
    requires Fresh(prior, was, start, before) && Passed(texts, ids, prior, was, deltas, room, locals)
    requires id in ids && !Read(was, deltas, room, locals, id)
    ensures (forall measure: Measure :: TextLines(measure, texts[id]) == EntryLines(measure, room, locals, id)) <==>
              TextOf(start, before, id) == TextOf(room, locals, id)
  {
    hide TextOf, TextLines, Renewed, Dirty, HasRefs;
    RightUnderEveryMeasure(texts[id], TextOf(room, locals, id));
    assert forall measure: Measure ::
        EntryLines(measure, room, locals, id) == TextLines(measure, TextOf(room, locals, id));
  }

  // --- Batches without a re-lay ------------------------------------------------------------------------

  lemma {:induction false} QuietQuotes(moments: seq<Room>, deltas: seq<Delta>, refs: seq<Option<nat>>)
    requires Chain(moments, deltas) && Relaid !in deltas && !Dirty(deltas)
    ensures QuotesOf(moments[0], refs) == QuotesOf(moments[|deltas|], refs)
    decreases deltas
  {
    hide Evolves, QuotesOf;
    if deltas != [] {
      assert Linked(moments, deltas, 0) && deltas[0] in deltas;
      QuietOnce(moments[0], deltas[0], moments[1], refs);
      ChainTail(moments, deltas);
      QuietQuotes(moments[1..], deltas[1..], refs);
    }
  }

  lemma {:induction false} QuietOnce(a: Room, d: Delta, b: Room, refs: seq<Option<nat>>)
    requires Evolves(a, d, b) && !d.Relaid? && !AboutMessages(d)
    ensures QuotesOf(a, refs) == QuotesOf(b, refs)
  {
    hide Find, FindNotice, Ordered, QuotesOf;
    SameQuotes(a, b, refs);
  }

  lemma {:induction false} UntouchedText(moments: seq<Room>, deltas: seq<Delta>, locals: seq<LocalNotice>, id: EntryId)
    requires Chain(moments, deltas) && Resident(moments[0], locals, id) && !Touched(deltas, id)
    requires HasRefs(moments[|deltas|], locals, id) ==> Relaid !in deltas && !Dirty(deltas)
    ensures TextOf(moments[0], locals, id) == TextOf(moments[|deltas|], locals, id)
  {
    assert |moments| == |deltas| + 1;
    hide Chain, Resolve, Touched, QuotesOf;
    UntouchedRecord(moments, deltas, locals, id);
    if HasRefs(moments[|deltas|], locals, id) {
      QuietQuotes(moments, deltas, Resolve(moments[0], locals, id).value.body.refs);
    }
  }

  /** Such a batch carries over nothing that moved, so a fresh view stays fresh. */
  lemma {:induction false} ReplayUnmoved(ids: seq<EntryId>, was: seq<EntryId>, moments: seq<Room>, deltas: seq<Delta>,
                                         locals: seq<LocalNotice>)
    requires Chain(moments, deltas) && Relaid !in deltas && AllResident(was, moments[0], locals)
    ensures |moments| == |deltas| + 1
    ensures Unmoved(ids, was, deltas, moments[0], locals, moments[|deltas|], locals)
  {
    assert |moments| == |deltas| + 1;
    hide Chain, TextOf, Touched, Dirty, HasRefs, Resident;
    forall id | id in ids && !Read(was, deltas, moments[|deltas|], locals, id)
      ensures TextOf(moments[0], locals, id) == TextOf(moments[|deltas|], locals, id)
    {
      var i :| 0 <= i < |was| && was[i] == id;
      UntouchedText(moments, deltas, locals, id);
    }
  }

  // --- Where carrying over fails -------------------------------------------------------------------

  /** A passed count is the old one. */
  lemma {:induction false} CarriedCount(texts: Texts, ids: seq<EntryId>, prior: Texts, was: seq<EntryId>,
                                        deltas: seq<Delta>, start: Room, before: seq<LocalNotice>, room: Room,
                                        locals: seq<LocalNotice>, id: EntryId)
    requires Fresh(prior, was, start, before) && Passed(texts, ids, prior, was, deltas, room, locals)
    requires id in ids && !Read(was, deltas, room, locals, id) && TextOf(start, before, id) != TextOf(room, locals, id)
    requires !TextOf(room, locals, id).Blank?
    ensures var measure := Telling(TextOf(room, locals, id));
            TextLines(measure, texts[id]) == 1 && EntryLines(measure, room, locals, id) == 2
  {
    hide Renewed, Dirty, HasRefs, Resolve, TextOf;
  }

  ghost function Told(id: nat, text: nat): Message {
    Message(id, false, Body(text, []), Label("", 0, false, false, false))
  }

  /** A room of one message. */
  ghost function Single(text: nat): Room {
    Room([Told(1, text)], [])
  }

  lemma {:induction false} SingleText(text: nat, locals: seq<LocalNotice>)
    ensures TextOf(Single(text), locals, Msg(1)) == Plain(Body(text, [])) && !HasRefs(Single(text), locals, Msg(1))
    ensures forall id: nat :: Find(Single(text), id) == if id == 1 then Some(Told(1, text)) else None
  {
    assert Single(text).messages[..0] == [];
  }

  /**
   * Re-laid: a message evicted and fetched again carries an edit no delta names. Its old count of one row stays,
   * though it now takes two.
   */
  lemma {:induction false} RevivedKeepsOldCount(texts: Texts, prior: Texts)
    requires Fresh(prior, [Msg(1)], Single(0), [])
    requires Passed(texts, [Msg(1)], prior, [Msg(1)], [EvictedThrough(1), Relaid], Single(1), [])
    ensures Chain([Single(0), Room([], []), Single(1)], [EvictedThrough(1), Relaid])
    ensures var measure := Telling(Plain(Body(1, [])));
            TextLines(measure, texts[Msg(1)]) == 1 && EntryLines(measure, Single(1), [], Msg(1)) == 2
  {
    var moments, deltas := [Single(0), Room([], []), Single(1)], [EvictedThrough(1), Relaid];
    SingleText(0, []);
    SingleText(1, []);
    assert Linked(moments, deltas, 0) && Linked(moments, deltas, 1);
    hide Chain, TextOf, HasRefs, Single;
    CarriedCount(texts, [Msg(1)], prior, [Msg(1)], deltas, Single(0), [], Single(1), [], Msg(1));
  }

  /** Trimmed: the pass reads no delta, so an edit still pending is counted as before. */
  lemma {:induction false} TrimKeepsOldCount(texts: Texts, prior: Texts, before: seq<LocalNotice>,
                                             locals: seq<LocalNotice>)
    requires Fresh(prior, [Msg(1)], Single(0), before)
    requires Passed(texts, [Msg(1)], prior, [Msg(1)], [], Single(1), locals)
    ensures Chain([Single(0), Single(1)], [Replaced(1)])
    ensures var measure := Telling(Plain(Body(1, [])));
            TextLines(measure, texts[Msg(1)]) == 1 && EntryLines(measure, Single(1), locals, Msg(1)) == 2
  {
    SingleText(0, before);
    SingleText(1, locals);
    assert Linked([Single(0), Single(1)], [Replaced(1)], 0);
    hide Chain, TextOf, HasRefs, Single;
    CarriedCount(texts, [Msg(1)], prior, [Msg(1)], [], Single(0), before, Single(1), locals, Msg(1));
  }

  /** The second message of a room quotes the first, which is there or not. */
  ghost function QuotingRoom(there: bool): Room {
    var reply := Message(2, false, Body(0, [Some(1)]), Label("", 0, false, false, false));
    Room(if there then [Told(1, 0), reply] else [reply], [])
  }

  lemma {:induction false} QuotingRoomText(there: bool)
    ensures HasRefs(QuotingRoom(there), [], Msg(2))
    ensures TextOf(QuotingRoom(there), [], Msg(2)) ==
            Quoting([if there then Some(Quote("", 0)) else None], Body(0, [Some(1)]))
    ensures Ordered(QuotingRoom(there))
  {
    var room := QuotingRoom(there);
    assert QuoteOf(room, Some(1)) == if there then Some(Quote("", 0)) else None by {
      QuotedFound(there);
    }
    var quotes := QuotesOf(room, [Some(1)]);
    assert quotes == [quotes[0]];
  }

  lemma {:induction false} QuotedFound(there: bool)
    ensures Find(QuotingRoom(there), 1) == if there then Some(Told(1, 0)) else None
  {
    var messages := QuotingRoom(there).messages;
    assert there ==> messages[..1] == [Told(1, 0)];
    assert there ==> Position([Told(1, 0)], 1) == 0;
  }

  lemma {:induction false} OlderPageEvolves()
    ensures Evolves(QuotingRoom(false), Relaid, QuotingRoom(true))
  {
    var a, b := QuotingRoom(false), QuotingRoom(true);
    QuotingRoomText(false);
    QuotingRoomText(true);
    hide Position;
    forall id: nat | Find(a, id).Some?
      ensures Find(b, id) == Find(a, id)
    {
      assert a.messages[0] in a.messages && id == 2;
      var i := Position(b.messages, 2);
      assert b.messages[1].id == 2;
    }
  }

  /** An older page alone re-lays without reading pills again: the reply keeps the count it had without its quote. */
  lemma {:induction false} OlderPageKeepsPills(texts: Texts, prior: Texts)
    requires Fresh(prior, [Msg(2)], QuotingRoom(false), [])
    requires Passed(texts, [Msg(1), Msg(2)], prior, [Msg(2)], [Relaid], QuotingRoom(true), [])
    ensures Chain([QuotingRoom(false), QuotingRoom(true)], [Relaid])
    ensures var measure := Telling(TextOf(QuotingRoom(true), [], Msg(2)));
            TextLines(measure, texts[Msg(2)]) == 1 && EntryLines(measure, QuotingRoom(true), [], Msg(2)) == 2
  {
    QuotingRoomText(false);
    QuotingRoomText(true);
    OlderPageEvolves();
    hide Evolves, TextOf, HasRefs, QuotingRoom;
    assert Linked([QuotingRoom(false), QuotingRoom(true)], [Relaid], 0);
    CarriedCount(texts, [Msg(1), Msg(2)], prior, [Msg(2)], [Relaid], QuotingRoom(false), [], QuotingRoom(true), [],
                 Msg(2));
  }
}
