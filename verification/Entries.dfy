/** A view's entries with their fold flags and line counts, and how far a batch of deltas may have outdated them. */
module Entries {
  import opened Arithmetic
  import opened History
  import opened Display
  import opened Layout

  datatype ViewEntry = ViewEntry(id: EntryId, expanded: bool, hasRefs: bool)

  datatype ViewCursor = ViewCursor(entry: EntryId, offset: nat)

  /** What a pass over a batch leaves for its end. */
  datatype Effects = Effects(repack: bool, referencesDirty: bool)

  /** What a pill shows of the message it quotes. */
  datatype Quote = Quote(sender: string, text: nat)

  /** What the rows of an entry are measured from; only a body with references reads other messages. */
  datatype Text = Blank | Plain(body: Body) | Quoting(quotes: seq<Option<Quote>>, body: Body)

  /** How many rows a body wraps to. */
  datatype Measure = Measure(plain: Body -> nat, quoting: (seq<Option<Quote>>, Body) -> nat)

  datatype Record = Record(body: Body, mark: Label)

  /** What the id resolves to. */
  function Resolve(room: Room, locals: seq<LocalNotice>, id: EntryId): (record: Option<Record>)
    ensures record.Some? <==> Visible(room, locals, id)
  {
    match id
    case Msg(m) =>
      var found := Find(room, m);
      if found.Some? && !found.value.deleted then Some(Record(found.value.body, found.value.mark)) else None
    case Shared(k) =>
      var found := FindNotice(room, k);
      if found.Some? then Some(Record(found.value.body, found.value.mark)) else None
    case Local(n) =>
      var found := FindLocal(locals, n);
      if found.Some? then Some(Record(found.value.body, found.value.mark)) else None
  }

  /** The label of one pill: none when what it quotes is not there to be read. */
  function QuoteOf(room: Room, target: Option<nat>): Option<Quote> {
    if target.None? then None
    else
      var found := Find(room, target.value);
      if found.Some? && !found.value.deleted then Some(Quote(found.value.mark.sender, found.value.body.text)) else None
  }

  function QuotesOf(room: Room, refs: seq<Option<nat>>): (quotes: seq<Option<Quote>>)
    ensures |quotes| == |refs| && forall i :: 0 <= i < |refs| ==> quotes[i] == QuoteOf(room, refs[i])
  {
    if refs == [] then [] else QuotesOf(room, refs[..|refs| - 1]) + [QuoteOf(room, refs[|refs| - 1])]
  }

  /** Rooms that differ in marks alone quote alike. */
  lemma {:induction false} SameQuotes(a: Room, b: Room, refs: seq<Option<nat>>)
    requires Relabels(a, b)
    ensures QuotesOf(a, refs) == QuotesOf(b, refs)
  {
    hide Find, QuotesOf;
  }

  /** What `room` gives the entry to show; an id whose record is gone is one blank line. */
  function TextOf(room: Room, locals: seq<LocalNotice>, id: EntryId): Text {
    match Resolve(room, locals, id)
    case Some(record) =>
      if record.body.hasRefs then Quoting(QuotesOf(room, record.body.refs), record.body) else Plain(record.body)
    case None => Blank
  }

  function TextLines(measure: Measure, text: Text): (lines: nat)
    ensures lines >= 1
  {
    match text
    case Blank => 1
    case Plain(body) => Max(1, measure.plain(body))
    case Quoting(quotes, body) => Max(1, measure.quoting(quotes, body))
  }

  /** The rows of an entry. */
  function EntryLines(measure: Measure, room: Room, locals: seq<LocalNotice>, id: EntryId): (lines: nat)
    ensures lines >= 1
  {
    TextLines(measure, TextOf(room, locals, id))
  }

  /** A count taken from one text is right for another under every measure exactly when the texts are the same. */
  lemma {:induction false} RightUnderEveryMeasure(a: Text, b: Text)
    ensures a == b <==> forall measure: Measure :: TextLines(measure, a) == TextLines(measure, b)
  {
    if a != b {
      var measure := Telling(if a.Blank? then b else a);
      assert TextLines(measure, a) != TextLines(measure, b);
    }
  }

  /** The measure that gives two rows to one text and one to any other. */
  ghost function Telling(text: Text): Measure {
    Measure(body => if Plain(body) == text then 2 else 1,
            (quotes, body) => if Quoting(quotes, body) == text then 2 else 1)
  }

  function IdsOf(entries: seq<ViewEntry>): (ids: seq<EntryId>)
    ensures |ids| == |entries| && forall i :: 0 <= i < |ids| ==> ids[i] == entries[i].id
  {
    if entries == [] then [] else IdsOf(entries[..|entries| - 1]) + [entries[|entries| - 1].id]
  }

  /** The list the row index packs. */
  function DocOf(entries: seq<ViewEntry>, counts: seq<nat>, room: Room, locals: seq<LocalNotice>): (doc: seq<Item>)
    requires |counts| == |entries|
    ensures |doc| == |entries|
    ensures forall i :: 0 <= i < |doc| ==> doc[i] == ItemOf(entries[i], counts[i], room, locals)
  {
    if entries == [] then []
    else
      var n := |entries| - 1;
      DocOf(entries[..n], counts[..n], room, locals) + [ItemOf(entries[n], counts[n], room, locals)]
  }

  function ItemOf(entry: ViewEntry, count: nat, room: Room, locals: seq<LocalNotice>): Item {
    var record := Resolve(room, locals, entry.id);
    Item(count, entry.expanded, if record.Some? then Some(record.value.mark) else None)
  }

  lemma {:induction false} DocPrefix(entries: seq<ViewEntry>, counts: seq<nat>, room: Room, locals: seq<LocalNotice>,
                                     n: nat)
    requires |counts| == |entries| && n <= |entries|
    ensures DocOf(entries, counts, room, locals)[..n] == DocOf(entries[..n], counts[..n], room, locals)
  {
    hide DocOf, ItemOf;
  }

  // --- What a delta may outdate ---------------------------------------------------------

  /** The deltas that rewrite or drop the entry of `id`. */
  predicate Touches(d: Delta, id: EntryId) {
    match d
    case Replaced(m) => id == Msg(m)
    case Tombstoned(m) => id == Msg(m)
    case EvictedThrough(w) => Evicted(id, w)
    case NoticeRemoved(k) => id == Shared(k)
    case _ => false
  }

  predicate Touched(deltas: seq<Delta>, id: EntryId) {
    deltas != [] && (Touches(deltas[0], id) || Touched(deltas[1..], id))
  }

  ghost predicate AnyTouched(deltas: seq<Delta>, ids: seq<EntryId>) {
    exists i :: 0 <= i < |ids| && Touched(deltas, ids[i])
  }

  ghost predicate AllResident(ids: seq<EntryId>, room: Room, locals: seq<LocalNotice>) {
    forall i :: 0 <= i < |ids| ==> Resident(room, locals, ids[i])
  }

  /** A record no delta of a chain touches has the same body at its end, and the same marks unless relabelled. */
  lemma {:induction false} UntouchedRecord(moments: seq<Room>, deltas: seq<Delta>, locals: seq<LocalNotice>,
                                           id: EntryId)
    requires Chain(moments, deltas) && Resident(moments[0], locals, id) && !Touched(deltas, id)
    ensures Resident(moments[|deltas|], locals, id)
    ensures SameBody(moments[0], moments[|deltas|], locals, id)
    ensures Relabelled !in deltas ==> Resolve(moments[|deltas|], locals, id) == Resolve(moments[0], locals, id)
    decreases deltas
  {
    hide Evolves, Resolve, Resident;
    if deltas != [] {
      assert Linked(moments, deltas, 0) && deltas[0] in deltas;
      UntouchedOnce(moments[0], deltas[0], moments[1], locals, id);
      ChainTail(moments, deltas);
      UntouchedRecord(moments[1..], deltas[1..], locals, id);
    }
  }

  ghost predicate SameBody(a: Room, b: Room, locals: seq<LocalNotice>, id: EntryId) {
    var was, now := Resolve(a, locals, id), Resolve(b, locals, id);
    (was.Some? <==> now.Some?) && (was.Some? ==> was.value.body == now.value.body)
  }

  lemma {:induction false} UntouchedOnce(a: Room, d: Delta, b: Room, locals: seq<LocalNotice>, id: EntryId)
    requires Evolves(a, d, b) && Resident(a, locals, id) && !Touches(d, id)
    ensures Resident(b, locals, id) && SameBody(a, b, locals, id)
    ensures !d.Relabelled? ==> Resolve(b, locals, id) == Resolve(a, locals, id)
  {
    hide Find, FindNotice, FindLocal, Ordered;
  }

  // --- Compacting -------------------------------------------------------------------------

  /** The entries an eviction keeps. */
  function KeepEntries(entries: seq<ViewEntry>, w: nat): seq<ViewEntry> {
    if entries == [] then []
    else
      var last := entries[|entries| - 1];
      KeepEntries(entries[..|entries| - 1], w) + if Evicted(last.id, w) then [] else [last]
  }

  /** ... and, place for place, their line counts. */
  function KeepCounts(entries: seq<ViewEntry>, counts: seq<nat>, w: nat): (kept: seq<nat>)
    requires |counts| == |entries|
    ensures |kept| == |KeepEntries(entries, w)|
  {
    if entries == [] then []
    else
      var n := |entries| - 1;
      KeepCounts(entries[..n], counts[..n], w) + if Evicted(entries[n].id, w) then [] else [counts[n]]
  }

  lemma {:induction false} KeepIds(entries: seq<ViewEntry>, w: nat)
    ensures IdsOf(KeepEntries(entries, w)) == Survivors(IdsOf(entries), w)
  {
    if entries != [] {
      var front, last := entries[..|entries| - 1], entries[|entries| - 1];
      KeepIds(front, w);
      assert IdsOf(entries)[..|entries| - 1] == IdsOf(front);
      var kept := KeepEntries(front, w);
      if !Evicted(last.id, w) {
        assert IdsOf(kept + [last]) == IdsOf(kept) + [last.id];
      }
    }
  }

  // --- Remapping a lost entry ------------------------------------------------------------------

  /** The nearest survivor at or after `from`, if any. */
  function NextSurvivor(previous: seq<EntryId>, from: nat, left: seq<EntryId>): (id: Option<EntryId>)
    requires from <= |previous|
    ensures id.None? ==> forall i :: from <= i < |previous| ==> previous[i] !in left
    ensures id.Some? ==> exists k :: from <= k < |previous| && previous[k] == id.value && id.value in left
                           && forall i :: from <= i < k ==> previous[i] !in left
    decreases |previous| - from
  {
    if from == |previous| then None
    else if previous[from] in left then Some(previous[from])
    else NextSurvivor(previous, from + 1, left)
  }

  /** The nearest survivor before `until`, if any. */
  function PreviousSurvivor(previous: seq<EntryId>, until: nat, left: seq<EntryId>): (id: Option<EntryId>)
    requires until <= |previous|
    ensures id.None? ==> forall i :: 0 <= i < until ==> previous[i] !in left
    ensures id.Some? ==> exists k :: 0 <= k < until && previous[k] == id.value && id.value in left
                           && forall i :: k < i < until ==> previous[i] !in left
  {
    if until == 0 then None
    else if previous[until - 1] in left then Some(previous[until - 1])
    else PreviousSurvivor(previous, until - 1, left)
  }

  /**
   * `heir`, at `k`, is the one to take over from `position`: the nearest survivor after it or, when none after it
   * survives, the nearest before.
   */
  ghost predicate TakesOver(previous: seq<EntryId>, position: nat, left: seq<EntryId>, k: int, heir: EntryId) {
    && 0 <= k < |previous| && k != position && previous[k] == heir && heir in left
    && (if k > position then forall i :: position < i < k ==> previous[i] !in left
        else forall i :: k < i < |previous| && i != position ==> previous[i] !in left)
  }

  /** Who takes over for the entry that stood at `position`: the nearest newer survivor, else the nearest older. */
  function RemapMissing(previous: seq<EntryId>, position: nat, left: seq<EntryId>): (id: Option<EntryId>)
    requires position < |previous|
    ensures id.Some? ==> exists k :: TakesOver(previous, position, left, k, id.value)
    ensures id.None? ==> forall i :: 0 <= i < |previous| && i != position ==> previous[i] !in left
  {
    var newer := NextSurvivor(previous, position + 1, left);
    if newer.Some? then NewerTakesOver(previous, position, left); newer
    else OlderTakesOver(previous, position, left); PreviousSurvivor(previous, position, left)
  }

  lemma {:induction false} NewerTakesOver(previous: seq<EntryId>, position: nat, left: seq<EntryId>)
    requires position < |previous| && NextSurvivor(previous, position + 1, left).Some?
    ensures var newer := NextSurvivor(previous, position + 1, left).value;
            exists k :: TakesOver(previous, position, left, k, newer)
  {
    var id := NextSurvivor(previous, position + 1, left).value;
    var k :| position + 1 <= k < |previous| && previous[k] == id && id in left
             && forall i :: position + 1 <= i < k ==> previous[i] !in left;
    assert TakesOver(previous, position, left, k, id);
  }

  lemma {:induction false} OlderTakesOver(previous: seq<EntryId>, position: nat, left: seq<EntryId>)
    requires position < |previous| && NextSurvivor(previous, position + 1, left).None?
    ensures var older := PreviousSurvivor(previous, position, left);
            older.Some? ==> exists k :: TakesOver(previous, position, left, k, older.value)
  {
    var older := PreviousSurvivor(previous, position, left);
    if older.Some? {
      var k :| 0 <= k < position && previous[k] == older.value && older.value in left
               && forall i :: k < i < position ==> previous[i] !in left;
      assert TakesOver(previous, position, left, k, older.value);
    }
  }

  // --- Counts and flags through a batch ------------------------------------------------------------

  predicate HasRefs(room: Room, locals: seq<LocalNotice>, id: EntryId) {
    var record := Resolve(room, locals, id);
    record.Some? && record.value.body.hasRefs
  }

  /** An entry nobody has touched: messages start folded, notices open. */
  function NewEntry(room: Room, locals: seq<LocalNotice>, id: EntryId): (entry: ViewEntry)
    ensures entry.id == id && (entry.expanded <==> id.Shared? || id.Local?)
    ensures entry.hasRefs <==>
              Resolve(room, locals, id).Some? && Resolve(room, locals, id).value.body.refs != []
  {
    ViewEntry(id, !id.Msg?, HasRefs(room, locals, id))
  }

  // --- Reference flags -----------------------------------------------------------------------------

  /** The entry is flagged as in a rebuild, unless a delta still to come rewrites it anyway. */
  ghost predicate FlagOk(entry: ViewEntry, room: Room, locals: seq<LocalNotice>, rest: seq<Delta>) {
    Touched(rest, entry.id) || entry.hasRefs == HasRefs(room, locals, entry.id)
  }

  ghost predicate FlagsOk(entries: seq<ViewEntry>, room: Room, locals: seq<LocalNotice>, rest: seq<Delta>) {
    forall i :: 0 <= i < |entries| ==> FlagOk(entries[i], room, locals, rest)
  }

  lemma {:induction false} FlagsInsert(entries: seq<ViewEntry>, room: Room, locals: seq<LocalNotice>, rest: seq<Delta>,
                                       at: nat, id: EntryId)
    requires FlagsOk(entries, room, locals, rest) && at <= |entries|
    ensures FlagsOk(InsertAt(entries, at, NewEntry(room, locals, id)), room, locals, rest)
  {
    hide Touched, HasRefs;
  }

  lemma {:induction false} FlagsReplace(entries: seq<ViewEntry>, room: Room, locals: seq<LocalNotice>, d: Delta,
                                        rest: seq<Delta>, at: nat)
    requires FlagsOk(entries, room, locals, [d] + rest) && at < |entries|
    requires forall i :: 0 <= i < |entries| && i != at ==> !Touches(d, entries[i].id)
    ensures FlagsOk(entries[at := entries[at].(hasRefs := HasRefs(room, locals, entries[at].id))], room, locals, rest)
  {
    hide Touched, HasRefs, Touches;
    forall i | 0 <= i < |entries| && i != at
      ensures FlagOk(entries[i], room, locals, rest)
    {
      assert FlagOk(entries[i], room, locals, [d] + rest);
      TouchedSplit(d, rest, entries[i].id);
    }
  }

  lemma {:induction false} FlagsRemove(entries: seq<ViewEntry>, room: Room, locals: seq<LocalNotice>, d: Delta,
                                       rest: seq<Delta>, at: nat)
    requires FlagsOk(entries, room, locals, [d] + rest) && at < |entries|
    requires forall i :: 0 <= i < |entries| && i != at ==> !Touches(d, entries[i].id)
    ensures FlagsOk(RemoveAt(entries, at), room, locals, rest)
  {
    hide Touched, HasRefs, Touches;
    var left := RemoveAt(entries, at);
    forall i | 0 <= i < |left|
      ensures FlagOk(left[i], room, locals, rest)
    {
      var j := if i < at then i else i + 1;
      assert left[i] == entries[j];
      assert FlagOk(entries[j], room, locals, [d] + rest);
      TouchedSplit(d, rest, entries[j].id);
    }
  }

  lemma {:induction false} FlagsKeep(entries: seq<ViewEntry>, room: Room, locals: seq<LocalNotice>, rest: seq<Delta>,
                                     w: nat)
    requires FlagsOk(entries, room, locals, [EvictedThrough(w)] + rest)
    ensures FlagsOk(KeepEntries(entries, w), room, locals, rest)
  {
    hide Touched, HasRefs;
    if entries != [] {
      var n := |entries| - 1;
      FlagsKeep(entries[..n], room, locals, rest, w);
      assert FlagOk(entries[n], room, locals, [EvictedThrough(w)] + rest);
      TouchedSplit(EvictedThrough(w), rest, entries[n].id);
    }
  }

  /** A delta that touches no entry leaves nothing to wait for. */
  lemma {:induction false} FlagsPass(entries: seq<ViewEntry>, room: Room, locals: seq<LocalNotice>, d: Delta,
                                     rest: seq<Delta>)
    requires FlagsOk(entries, room, locals, [d] + rest)
    requires forall i :: 0 <= i < |entries| ==> !Touches(d, entries[i].id)
    ensures FlagsOk(entries, room, locals, rest)
  {
    hide Touched, HasRefs, Touches;
    forall i | 0 <= i < |entries|
      ensures FlagOk(entries[i], room, locals, rest)
    {
      assert FlagOk(entries[i], room, locals, [d] + rest);
      TouchedSplit(d, rest, entries[i].id);
    }
  }

  // --- Line counts -----------------------------------------------------------------------------------

  /** Line counts, while the index keeps any. */
  type Counts = Option<seq<nat>>

  /** What each entry's count was last measured from. */
  type Texts = map<EntryId, Text>

  function CountAt(counts: Counts, i: nat): Option<nat>
    requires counts.Some? ==> i < |counts.value|
  {
    if counts.Some? then Some(counts.value[i]) else None
  }

  ghost predicate CountOk(entry: ViewEntry, count: Option<nat>, measure: Measure, texts: Texts) {
    entry.id in texts && (count.Some? ==> count.value == TextLines(measure, texts[entry.id]))
  }

  /** Every count is the one its text measures to. */
  ghost predicate CountsOk(entries: seq<ViewEntry>, counts: Counts, measure: Measure, texts: Texts) {
    (counts.Some? ==> |counts.value| == |entries|)
    && forall i :: 0 <= i < |entries| ==> CountOk(entries[i], CountAt(counts, i), measure, texts)
  }

  lemma {:induction false} CountsInsert(entries: seq<ViewEntry>, counts: Counts, after: Counts, measure: Measure,
                                        texts: Texts, at: nat, entry: ViewEntry, text: Text)
    requires CountsOk(entries, counts, measure, texts) && at <= |entries|
    requires forall i :: 0 <= i < |entries| ==> entries[i].id != entry.id
    requires after.Some? ==> counts.Some? && after.value == InsertAt(counts.value, at, TextLines(measure, text))
    ensures CountsOk(InsertAt(entries, at, entry), after, measure, texts[entry.id := text])
  {
    hide TextLines;
    var more := InsertAt(entries, at, entry);
    forall i | 0 <= i < |more|
      ensures CountOk(more[i], CountAt(after, i), measure, texts[entry.id := text])
    {
      if i != at {
        var j := if i < at then i else i - 1;
        assert more[i] == entries[j];
        assert CountOk(entries[j], CountAt(counts, j), measure, texts);
      }
    }
  }

  lemma {:induction false} CountsReplace(entries: seq<ViewEntry>, counts: Counts, after: Counts, measure: Measure,
                                         texts: Texts, at: nat, entry: ViewEntry, text: Text)
    requires CountsOk(entries, counts, measure, texts) && at < |entries| && entry.id == entries[at].id
    requires forall i :: 0 <= i < |entries| && i != at ==> entries[i].id != entry.id
    requires after.Some? ==> counts.Some? && after.value == counts.value[at := TextLines(measure, text)]
    ensures CountsOk(entries[at := entry], after, measure, texts[entry.id := text])
  {
    hide TextLines;
    forall i | 0 <= i < |entries| && i != at
      ensures CountOk(entries[i], CountAt(after, i), measure, texts[entry.id := text])
    {
      assert CountOk(entries[i], CountAt(counts, i), measure, texts);
    }
  }

  lemma {:induction false} CountsRemove(entries: seq<ViewEntry>, counts: Counts, after: Counts, measure: Measure,
                                        texts: Texts, at: nat)
    requires CountsOk(entries, counts, measure, texts) && at < |entries|
    requires after.Some? ==> counts.Some? && after.value == RemoveAt(counts.value, at)
    ensures CountsOk(RemoveAt(entries, at), after, measure, texts)
  {
    hide TextLines;
    var left := RemoveAt(entries, at);
    forall i | 0 <= i < |left|
      ensures CountOk(left[i], CountAt(after, i), measure, texts)
    {
      var j := if i < at then i else i + 1;
      assert left[i] == entries[j];
      assert CountOk(entries[j], CountAt(counts, j), measure, texts);
    }
  }

  function KeptCounts(entries: seq<ViewEntry>, counts: Counts, w: nat): Counts
    requires counts.Some? ==> |counts.value| == |entries|
  {
    if counts.Some? then Some(KeepCounts(entries, counts.value, w)) else None
  }

  lemma {:induction false} CountsKeep(entries: seq<ViewEntry>, counts: Counts, measure: Measure, texts: Texts, w: nat)
    requires CountsOk(entries, counts, measure, texts)
    ensures CountsOk(KeepEntries(entries, w), KeptCounts(entries, counts, w), measure, texts)
  {
    hide TextLines;
    if entries != [] {
      var n := |entries| - 1;
      var fewer := if counts.Some? then Some(counts.value[..n]) else None;
      forall i | 0 <= i < n
        ensures CountOk(entries[..n][i], CountAt(fewer, i), measure, texts)
      {
        assert CountOk(entries[i], CountAt(counts, i), measure, texts);
      }
      CountsKeep(entries[..n], fewer, measure, texts, w);
      assert CountOk(entries[n], CountAt(counts, n), measure, texts);
    }
  }

  // --- Batches ------------------------------------------------------------------------------------------

  lemma {:induction false} TouchedSplit(d: Delta, rest: seq<Delta>, id: EntryId)
    ensures Touched([d] + rest, id) <==> Touches(d, id) || Touched(rest, id)
  {
    assert ([d] + rest)[1..] == rest;
  }

  lemma {:induction false} AnyTouchedLater(d: Delta, rest: seq<Delta>, ids: seq<EntryId>)
    ensures AnyTouched([d] + rest, ids) <==>
              AnyTouched(rest, ids) || exists i :: 0 <= i < |ids| && Touches(d, ids[i])
  {
    hide Touched, Touches;
    forall i | 0 <= i < |ids|
      ensures Touched([d] + rest, ids[i]) <==> Touches(d, ids[i]) || Touched(rest, ids[i])
    {
      TouchedSplit(d, rest, ids[i]);
    }
  }
}
