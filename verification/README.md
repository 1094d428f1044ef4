# chatt: verified models of the chat view, file transfer and key bindings

chatt is a terminal chat client with voice, files and end-to-end encrypted direct messages. This project models the
parts of it that have to keep several things in agreement over time, and proves that they do:

* **The row index of the chat view** (`src/chat_buffer.rs`). A view caches a list of entries, a wrapped line count per
  entry, a packing of entries into headed blocks and a Fenwick tree of rows per block. The index is repaired after an
  append and edited in place when a message is folded; `Fenwick`, `Layout`, `Tiling`, `Screen`, `Increment`, `Steps` and
  `RowIndex` show when it is the index a rebuild installs, and that rows and body positions are in bijection. `Tiling`
  separates what rests on line counts alone from what rests on the marks in the headings too: rows, lookups, folds and
  the cursor's row are stated for every tiling, the packing only where a rebuild is meant.
* **Catching up with the room** (`src/app/room.rs`, `src/chat_buffer.rs`). `RoomLog` is the canonical log with its
  journal: every operation records deltas that say exactly what it did. `Display`, `Entries`, `Measuring`, `Sequence`,
  `Resync`, `Handover`, `OwnNotices`, `Clearing` and `Viewport` are the view that replays those deltas against the *end* state of the
  room. `Viewport.ChatViewport.Reconcile` is the result: whatever happened since, the view shows the entries a rebuild
  would show, each kind in its order, with its cursors and folds kept or handed on, and every line count is the measure of a
  text that the pass read from the room or carried over, as stated entry by entry. The order *between* messages, shared
  notices and own notices is a rebuild's after a rebuild or a re-lay, and after a replay exactly under the conditions of
  `Order`, `OneDelta` and `Batch`.
* **Moving and drawing** (`src/chat_buffer.rs`). `Scroll` is the minimal scroll that keeps the cursor's row in the safe
  band, `Words` the Vim word motions, `Highlight` the verbatim and highlighted wrapping of code.
* **File transfer** (`src/client_net.rs`, `crates/rpc/src`). `Wire`, `Padme`, `Throttle`, `Upload`, `Download`, `Ticks`,
  `Receiving` and `Transfer` are the upload poll with its buffer, seal counter, padding and pacing, the receiver with its
  two work budgets, what a tick over all receivers can come to and the tick itself, and the theorems about both ends
  together; `Transfer.Session.Run` states them over whole runs and `Transfer.Session.BringHome` that no run leads into a
  dead end.
* **Ordering in the network worker** (`src/client_net.rs`). `Controls` is the deferral of server controls behind the MLS
  actor, `Commands` the two queues of user commands, `Offers` the bounded backlog of file offers.
* **Key bindings** (`src/bindings.rs`). `Bindings` is the recursive expansion of inheriting tables over a document and the
  built-in defaults.

## How things are modelled

* Objects whose methods update fields are classes (`FenwickRows`, `LayoutIndex`, `ChatViewport`, `RoomHistory`,
  `StopWalk`, `CodeLayout`, `PendingWire`, `UploadThrottle`, `OutgoingUpload`, `ReceiveSink`, `IncomingFile`,
  `Session`, `ControlPath`, `CommandPath`, `OfferBacklog`, `LayerParser`). `Vec` and `VecDeque` fields are `seq` fields.
* Integers are unbounded. Where the code saturates or masks, so does the model (`SatSub`, `SatAdd`, `IsolateLowBit`,
  `ClearLowBit`); list lengths and row counts are taken to fit a 64-bit word, which `requires` clauses with
  `USIZE_LIMIT` state where the bit tricks depend on it.
* How many rows a body wraps to is an arbitrary function of the body and, for one with reference pills, of the sender and
  text of each message they quote. The ghost field `texts` of `ChatViewport` holds what each count was measured from.
* The journal's deltas promise what `History.Evolves` says of each; `RoomLog` proves the room keeps those promises and
  says which deltas each operation tells.
* Proofs by induction are written out. Every lemma turns Dafny's automatic induction off: the hypothesis that Dafny 4.11
  generates is not restricted to well-typed values and can be inconsistent over sequences of datatypes.
* Sealing is symbolic: a frame opens under the counter it was sealed with and under no other. The compressor is a free
  source of bytes, so claims about zstd transfers are about offsets, counters, sizes and budgets; exact bytes are claimed
  for identity encoding. How much a file read or write accepts, whether the actor's mailbox has room, and how the
  server's answers interleave are parameters, so every claim is for all of them.

## What does not hold

Each of these is a property one might expect; the model keeps the code's behaviour and proves when it does hold.

* *A second `/clear` keeps what the first one hid.* The boundary is recomputed from the entries on screen.
  `Clearing.ClearIsComplete` gives the exact condition and `Clearing.SecondClearForgets` the smallest failure. A view
  left like that goes on showing only what it should, and all of it again after the next re-lay or rebuild
  (`Viewport.ChatViewport.Reconcile`).
* *A sealed transfer an honest sender makes is accepted.* Every frame costs 20 bytes, however small, and a throttled
  sender cuts small frames, while the receiver's bound is set from the padded size. A sealed identity transfer is
  accepted under every schedule exactly when `Transfer.AlwaysFits(size)`: `Transfer.Session.Run` is one half and
  `Transfer.Session.Crumble`, a schedule that lets one byte through at a time, the other. `Transfer.FitsUpTo` puts the
  line between 3680 and 3720 bytes, and `Transfer.FewFramesFit` gives what one schedule comes to.
* *A tick decodes no more than its budget.* A pump that fails inside its loop leaves the shared budget as it was, so the
  next file starts with bytes already spent; `Receiving.OverspentTick` writes eleven bytes under a budget of eight. Which
  outcomes one pump has, over every behaviour of its target and of the decompressor, is exactly `Ticks.Possible`, a
  condition on what the file holds and the two budgets (`Ticks.PlanIsPossible`, `Ticks.PossibleHappens`). So a tick stays
  within a limit under every behaviour exactly when `Ticks.Within` holds of the holdings and budgets
  (`Ticks.TickWithin`). For files of any mixture of encodings that were sent no more than they announced this is a
  number, `Ticks.Most` (`Ticks.MostIsExact`; `Receiving.PlainHasRoom` says which files those are), and for compressed
  files alone the sum of `Min(budget, size - have)` over those with something to do (`Ticks.CompressedTick`). Identity
  transfers whose targets keep taking bytes are always within.
* *Carried line counts are right after a re-laid batch.* From counts that were right, they are right afterwards exactly
  when everything carried over says the same at both moments (`Measuring.FreshIff`, and entry by entry under every
  measure `Measuring.CarriedIsRight`). A message evicted and fetched again within one batch may carry an edit no delta
  names (`Measuring.RevivedKeepsOldCount`), and an older page alone reads no reference pill again, so a reply whose
  quoted message just arrived keeps its old count (`Measuring.OlderPageKeepsPills`). Without a re-lay right counts always
  stay right (`Measuring.ReplayUnmoved`, `Viewport.ChatViewport.Replay`).
* *Carried line counts are right when the view's own notices are trimmed.* That path of `reconcile` skips the deltas still
  to come. The same condition decides, with no delta read; `Measuring.TrimKeepsOldCount` is a failure.
* *Blocks regroup when marks change.* A relabelling never repacks although grouping reads the local and unverified marks.
  Every view keeps a tiling, and it is the packing a rebuild gives exactly when no boundary lies inside a block and every
  block but the last is full (`Viewport.PackedIff`, `Tiling.RelabelledPacks`); `Tiling.OneMarkBreaksTheGroup` is a
  failure.
* *An append leaves the rows on screen where they are.* The code relies on it and schedules no reflow. The repair packs
  the last block anew, and after a relabelling a boundary may lie inside it. `Increment.AppendMovesLine` says how far
  each line moves, `Increment.AppendKeepsRow` and `RowIndex.LayoutIndex.RepairAfterAppend` exactly when none does;
  packed blocks are such a case (`Increment.PackedKeepsRows`), `Increment.DividedBlockMovesRows` is a failure.
* *Folding a message leaves a right index.* Whether a message is long is decided by a fresh count, the block is rewritten
  from the count kept. When the two agree the index is right; in general exactly when the message is long by the kept
  count, or alone in its block and opened (`RowIndex.LayoutIndex.SetExpand`, `Increment.ToggleTiles`).
  `Increment.StaleFoldBreaks` is a failure.
* *A replayed list is ordered like a rebuilt one.* Each kind of entry is, but not always one kind among the others. From a
  list in order, `OneDelta.StepThreads` decides each delta: the list is in order afterwards exactly when
  - a message that is appended or inserted has no notice ahead of its place that stands behind it
    (`OneDelta.InsertedBehindNotice` is a failure), or, hidden by a clear, parts no own and shared notice anew;
  - a shared notice that arrives belongs behind every message and, with a message in between, behind every own notice,
    which for one anchored at the newest message means that no own notice is shown after that message
    (`OneDelta.ArrivalThreads`, with `OneDelta.OwnNoticeStaysAhead` as a failure);
  - no own and shared notice are parted only by messages that are deleted or evicted
    (`OneDelta.TombstoneJoinsNotices` is a failure; a rewrite of a record deleted since counts as the deletion,
    `OneDelta.RewriteHides`);
  - no notice owes its place to a shared notice that is removed.

  Rewrites and new marks never turn the order. From an empty room on, with a cap of at least one message, anchors ascend
  up to the newest message at every moment (`AllMoored`, kept by every operation of `RoomLog.RoomHistory`), so a removed
  notice does not turn it either, nor an appended message newer than every own anchor (`OneDelta.MooredHoldsNone`,
  `OneDelta.MooredWelcomes`). `OneDelta.FollowThreads` carries the conditions over whole runs.
  A batch is replayed against its end: it gives the very list of a rebuild exactly when the order of what stays did not
  turn and every newcomer that stays fits where it is put (`Batch.ReplayIsSequence`).
* *A new own notice is put where a rebuild would put it.* It is when the view shows every message and drops no notice to
  make room (`OwnNotices.PushKeeps`); `OwnNotices.PushThreads` gives the exact condition and
  `OwnNotices.DroppedHoldsNext` a failure.
* *A stale scroll anchor is clamped to its message.* It is clamped to the block. `RowIndex.ClampLands` states when that is
  the same, `RowIndex.StaleLineStrays` a case where it is not.
* *A cursor survives the trimming of the notice it is on when a new notice is pushed.* `PushNotice` states exactly when the
  cursors still name shown entries; `Viewport.TrimUnderCursor` is a failure.

## Model

| member | source | states |
|---|---|---|
| Fenwick.FenwickRows.Push | src/chat_buffer.rs:1151-1161 | the tree stands for the old sequence with the value appended |
| Fenwick.FenwickRows.Truncate | src/chat_buffer.rs:1163-1166 | the tree stands for a prefix of the old sequence, and the total for its sum |
| Fenwick.FenwickRows.Set | src/chat_buffer.rs:1168-1177 | the tree stands for the sequence with one value replaced, up or down |
| Fenwick.FenwickRows.PrefixSum | src/chat_buffer.rs:1179-1187 | the bit-clearing walk adds up exactly the first `count` values |
| Fenwick.FenwickRows.RangeSum | src/chat_buffer.rs:1189-1191 | the difference of two prefix sums; no saturation for a range in bounds |
| Fenwick.FenwickRows.RowToBlock | src/chat_buffer.rs:1193-1210 | the descent returns the block whose half-open row interval holds the clamped row |
| Fenwick.FenwickRows.Add | src/chat_buffer.rs:1212-1218 | adding along the parent walk changes one value of the sequence |
| Fenwick.FenwickRows.Sub | src/chat_buffer.rs:1220-1226 | likewise for subtracting; no node underflows |
| Fenwick.BlockOfRowUnique | src/chat_buffer.rs:1193-1210 | the block whose interval holds a row is unique |
| Fenwick.NodeMoved | src/chat_buffer.rs:1212-1226 | a node changes with a value exactly when its range covers it |
| Layout.RunEnd | src/chat_buffer.rs:4002-4018 | the run is the longest stretch without a grouping boundary |
| Layout.PackRun | src/chat_buffer.rs:4059-4100 | packing a run gives its greedy partition into sound blocks |
| Layout.PackFrom | src/chat_buffer.rs:3909-3917 | packing from any entry gives the greedy partition of the rest; from the first one that is the packing `Tiling.PackingShows` describes |
| Layout.GreedyUnique | src/chat_buffer.rs:3909-3930 | blocks that tile, respect boundaries and limits, and could not have taken more are unique |
| Tiling.PackingIff | src/chat_buffer.rs:4020-4057 | blocks that tile the list by its line counts are its packing exactly when no boundary lies inside one and every block but the last is full |
| Tiling.PackingShows | src/chat_buffer.rs:4020-4057 | blocks are the packing exactly when they follow one another over the list and each is cut as large as twelve lines allow from messages of one sender, side, trust and edit state at most 90 seconds apart and at most 40 lines long, a longer one standing alone and folded to 30; stated on the records, without the boundary test |
| Tiling.OneVoice | src/chat_buffer.rs:4020-4057 | any two messages under one heading are of one voice and neither is long |
| Tiling.RelabelledPacks | src/chat_buffer.rs:1775-1779 | after a change of marks alone the blocks still pack exactly when no boundary appears inside one and each but the last is still full |
| Tiling.OneMarkBreaksTheGroup | src/chat_buffer.rs:4037-4042 | one unverified mark under a shared heading leaves blocks no rebuild would give |
| Screen.RowAt | src/chat_buffer.rs:4179-4181 | the rows of block `k` stand at the sum of the weights before it: heading, shown body, ellipsis |
| Screen.NamedRow | src/chat_buffer.rs:4156-4177 | the row named for a line shows that line |
| Screen.RowNamed | src/chat_buffer.rs:4102-4154 | the line a row shows is named by that row, so no line is shown twice |
| Screen.BodyLineShown | src/chat_buffer.rs:4208-4214 | a body line has a row exactly when its message shows it |
| Increment.AppendPacks | src/chat_buffer.rs:3932-4000 | adding the newest entry to the last block or behind it packs the longer list |
| Increment.AppendIsAppended | src/chat_buffer.rs:3932-4000 | a rebuild of the longer list gives the same blocks |
| Increment.AppendMovesLine | src/chat_buffer.rs:3932-4000 | after an append to any tiling, each line on screen moves down by exactly the number of blocks that come to stand before it |
| Increment.AppendKeepsRow | src/chat_buffer.rs:3932-4000 | every row below the old total keeps its entry, line and kind exactly when the newest entry starts a block or no boundary lies inside the block that was last |
| Increment.AppendKeepsRowIndex | src/chat_buffer.rs:3932-4000 | every line keeps its row exactly then |
| Increment.PackedKeepsRows | src/chat_buffer.rs:2053-2059 | from packed blocks, repaired or rebuilt, no row and no line moves |
| Increment.RebuildRepairs | src/chat_buffer.rs:3909-4000 | a packing of the longer list keeps and repacks just what the repair does |
| Increment.DividedBlockMovesRows | src/chat_buffer.rs:2053-2059 | after a mark divides two messages under one heading, the next append moves the second down a row |
| Increment.ToggleTiles | src/chat_buffer.rs:3641-3684 | rewriting a message's block in place tiles the list with the new fold flag exactly when the message is long by its kept count, or alone in the block and opened |
| Increment.ToggleRepacks | src/chat_buffer.rs:3641-3684 | and packs it then if it was packed |
| Increment.StaleFoldBreaks | src/chat_buffer.rs:3641-3684 | opening a message of a shared block that is long only by a fresh count loses a row |
| Steps.StepsAreInverse | src/chat_buffer.rs:4216-4256 | stepping to the next and to the previous body position undo each other |
| Steps.NextIsSuccessor | src/chat_buffer.rs:4216-4235 | no visible position lies between a position and the next |
| Steps.RowOrder | src/chat_buffer.rs:4258-4289 | rows follow the order of positions |
| Steps.StepSkipsNoBody | src/chat_buffer.rs:4216-4235 | a step goes to the very next body row of the screen |
| Steps.LastStepIsLastBody | src/chat_buffer.rs:4216-4256 | where no step is left there is no body row left |
| RowIndex.LayoutIndex.Install | src/chat_buffer.rs:3909-3930 | the index holds the greedy packing of the list, its counts and its row tree |
| RowIndex.LayoutIndex.RepairAfterAppend | src/chat_buffer.rs:3932-3962 | an index that held the other entries holds them all, and one that only tiled them tiles them all, its rows on screen unmoved exactly when no boundary lies inside the block the newest entry was to join |
| RowIndex.LayoutIndex.RebuildTailFrom | src/chat_buffer.rs:3964-4000 | the blocks that end before the start are kept and the rest is packed anew; where the kept ones were packed or tiled, so is the whole |
| RowIndex.LayoutIndex.SetExpand | src/chat_buffer.rs:3641-3684 | from any tiling, with a fresh count: nothing for a short or unknown message, no change for one that is so already, otherwise its block rewritten, which tiles the refolded list exactly when the kept count allows it, and always when the two counts agree; packed if it was |
| RowIndex.LayoutIndex.CachedVisibleLine | src/chat_buffer.rs:4102-4154 | for any tiling, the line at a row is the one the rendered rows show there, for every row |
| RowIndex.LayoutIndex.VisibleLineRow | src/chat_buffer.rs:4156-4176 | for any tiling, the row of a line, for every line on screen, and the clamped row for any other body line; a heading or fold mark that is not there has none |
| RowIndex.ClampLands | src/chat_buffer.rs:4164-4174 | the clamped row shows the message exactly when it shows the line or has the block to itself |
| RowIndex.StaleLineStrays | src/chat_buffer.rs:4164-4174 | a line far past the end of a message in a shared block lands on no row of it |
| RowIndex.LayoutIndex.PosRowAndTotal | src/chat_buffer.rs:4258-4289 | for any tiling, the row of a clamped body position and the row count |
| RowIndex.RepairIsRebuild | src/chat_buffer.rs:3932-4000 | two indexes that hold one list are equal, blocks, counts and tree |
| RowIndex.RepairPoint | src/chat_buffer.rs:3932-3962 | the repair always finds a start before which everything is packed and full |
| Scroll.SafeInterval | src/chat_buffer.rs:3413-3453 | the views that keep a row in the safe band are an interval |
| Scroll.KeepVisibleIsMinimal | src/chat_buffer.rs:3413-3453 | the view ends safe and no safe view is nearer to where it stood |
| Scroll.KeepVisibleSettles | src/chat_buffer.rs:3413-3453 | a second call moves nothing, and a safe view does not move |
| Words.StopWalk.WalkNext | src/chat_buffer.rs:2991-3007 | goes to the next stop in reading order, or stays on the last |
| Words.StopWalk.WalkPrev | src/chat_buffer.rs:3009-3027 | goes to the previous stop in reading order, or stays on the first |
| Words.StopWalk.WordForward | src/chat_buffer.rs:3029-3056 | lands on the least word start or empty line after the cursor, else the last stop; a word is a run of one class, or under the big motions of no blanks |
| Words.StopWalk.WordEnd | src/chat_buffer.rs:3058-3083 | lands on the least word end after the cursor, else the last stop |
| Words.StopWalk.WordBack | src/chat_buffer.rs:3085-3107 | lands on the greatest word start before the cursor, else the first stop |
| Words.BackUndoesForward | src/chat_buffer.rs:3029-3107 | back undoes forward from any word start that has a successor |
| Words.MotionsAreFunctions | src/chat_buffer.rs:3029-3107 | each promise names one stop |
| Highlight.CodeLines | src/chat_buffer.rs:5006-5023 | lines are numbered by logical offset, one byte apart |
| Highlight.CutsWrap | src/chat_buffer.rs:5055-5086 | each row fits unless nothing of width stands before its last glyph, and no row could have taken the next glyph |
| Highlight.WrapUnique | src/chat_buffer.rs:5055-5086 | there is one such wrapping |
| Highlight.CodeLayout.EmitPlain | src/chat_buffer.rs:5055-5086 | segments tile the line and rows break where the widths say |
| Highlight.CodeLayout.EmitHighlighted | src/chat_buffer.rs:5088-5144 | the same breaks, every byte in the style of the run over its logical offset or the fallback |
| Highlight.CodeLayout.EmitChunk | src/chat_buffer.rs:5146-5201 | one row's bytes are tiled and styled, and the run cursor passes no run still needed |
| Highlight.CodeLayout.LayoutHighlighted | src/chat_buffer.rs:4970-4983 | all lines of a block, with one run cursor shared between them |
| Highlight.CodeLayout.LayoutCodeBlock | src/chat_buffer.rs:4940-5004 | highlighted or plain, a block takes the rows its widths call for; an empty one takes a blank row |
| RoomLog.RoomHistory.Record | src/app/room.rs:655-676 | the journal holds the last 256 changes, which lead to the present moment |
| RoomLog.RoomHistory.DeltasSince | src/app/room.rs:560-577 | exactly the changes since the applied revision, or nothing exactly when there are more than 256 |
| RoomLog.RoomHistory.ReceiveChat | src/app/room.rs:890-931 | a new message goes to its sorted place, the front is trimmed, and the journal is told exactly that |
| RoomLog.RoomHistory.FoldDelete | src/app/room.rs:813-833 | a delete applies exactly to a resident message not deleted yet; it leaves a blank tombstone and every other message, and tells the journal so |
| RoomLog.RoomHistory.FoldEdit | src/app/room.rs:813-856 | an edit applies exactly to a resident message that is neither deleted nor a file and does not carry it already; only that message takes body and marks, and the journal is told so |
| RoomLog.RoomHistory.MergePage | src/app/room.rs:933-1046 | a page's unseen messages are prepended as far as the cap allows and merged in; the journal is told of a re-lay exactly when any went in front, of each insertion and of the eviction |
| RoomLog.AbsentMembers | src/app/room.rs:969 | the unseen messages of a page are exactly those whose id is not resident |
| RoomLog.TrimExcess | src/app/room.rs:1666-1686 | nothing goes while the log is within a 64th over its cap, and otherwise exactly the cap stays |
| RoomLog.RoomHistory.InsertAll | src/app/room.rs:933-1046 | merging a batch at once is a chain of single insertions, each told to the journal |
| RoomLog.RoomHistory.PushNotice | src/app/room.rs:708-739 | the newest notices up to the cap, with the new one anchored after the newest message; if no anchor in the room's past was later than a newer one or than the newest message, none is now |
| RoomLog.RoomHistory.Relabel | src/app/room.rs:2693-2709 | marks are derived anew for every record, and one delta that names nobody says so |
| RoomLog.RoomHistory.SetMaxMessages | src/app/room.rs:1149-1164 | a lower cap leaves the newest messages and the newest notices and tells the journal of both |
| RoomLog.MergeSorted | src/app/room.rs:1628-1664 | the linear merge is the merge of two sorted logs |
| RoomLog.InsortEvolves | src/app/room.rs:1511-1533 | an insert is an append or an insertion, as the delta says |
| Display.StepCatches | src/chat_buffer.rs:1733-1781 | one delta applied against the end state keeps the view between its moment and the end |
| Display.ReplayIsRebuild | src/chat_buffer.rs:1687-1727 | a batch applied delta by delta against the end state shows exactly the visible, uncleared ids in order |
| Display.InStepAgree | src/chat_buffer.rs:1897-1919 | two views in step with one room show the same messages and notices in the same order |
| Entries.UntouchedRecord | src/chat_buffer.rs:1687-1781 | a record no delta touches has the same body at the end, and the same marks unless relabelled |
| Entries.RightUnderEveryMeasure | src/chat_buffer.rs:1970-1976 | a count taken from one text is right for another under every measure exactly when the texts are the same |
| Entries.NextSurvivor | src/chat_buffer.rs:1052-1059 | the nearest newer survivor |
| Entries.PreviousSurvivor | src/chat_buffer.rs:1060-1066 | the nearest older survivor |
| Entries.RemapMissing | src/chat_buffer.rs:1052-1067 | the heir of a lost entry is a survivor with none between, newer if there is one newer and else older; nobody exactly when nobody is left |
| Entries.NewEntry | src/chat_buffer.rs:2049-2052 | a new message starts folded, a notice open, and the reference flag is what the body says |
| Sequence.VisibleEntryIds | src/app/room.rs:335-356 | visible messages and notices, each in its own order and a notice behind a message exactly when it or an earlier one is anchored there or later |
| Sequence.ThreadLocals | src/chat_buffer.rs:1897-1915 | the view's own notices threaded in behind the messages they are anchored to, every list in order |
| Sequence.SequenceIds | src/chat_buffer.rs:1897-1920 | exactly the visible ids no clear hid, in the order the anchors give |
| Sequence.ThreadedUnique | src/chat_buffer.rs:1897-1920 | that order leaves no choice: lists of the same ids that follow it are equal |
| OneDelta.StepThreads | src/chat_buffer.rs:1733-1781 | from a list in the threaded order, one delta leaves a list in that order exactly when a condition on the list and the room before it holds, delta by delta; a rewrite or new marks always do |
| OneDelta.WelcomeThreads | src/chat_buffer.rs:2027-2073 | a message put at a place is in order exactly when no notice ahead of it stands behind it; one hidden by a clear exactly when it parts no pair of notices anew |
| OneDelta.LossThreads | src/chat_buffer.rs:2111-2200 | what is left without some messages is in order exactly when no own and shared notice shown were parted only by those |
| OneDelta.AddedThreads | src/chat_buffer.rs:2027-2073 | a shared notice put last is in order exactly when all messages and, parted by one, all own notices shown come before it |
| OneDelta.RemovedThreads | src/chat_buffer.rs:2111-2116 | a list without a shared notice is in order exactly when no other notice owed its place to that one alone |
| OneDelta.RewriteHides | src/chat_buffer.rs:2076-2109 | a rewrite that finds its record deleted keeps the order exactly when the deletion would |
| OneDelta.InsertedBehindNotice | src/chat_buffer_review_tests.rs:472-498 | a late message lands behind a notice anchored at a deleted message, where a rebuild puts it ahead |
| OneDelta.TombstoneJoinsNotices | src/chat_buffer.rs:2111-2116 | deleting the one message between an own and a shared notice turns their order, and the list keeps the old one |
| OneDelta.OwnNoticeStaysAhead | src/chat_buffer.rs:2027-2073 | a shared notice is put behind an own one after the newest message, where a rebuild puts it ahead |
| OneDelta.ArrivalThreads | src/chat_buffer.rs:2027-2073 | anchored at the newest message, a notice put last is in order exactly when it is hidden or no own notice shown is behind that message |
| OneDelta.MooredHoldsNone | src/app/room.rs:713-758 | while anchors ascend, removing a shared notice never turns the order |
| OneDelta.MooredWelcomes | src/app/room.rs:890-931 | nor does appending a message newer than every anchor of an own notice |
| OneDelta.FollowThreads | src/chat_buffer.rs:1582-1613 | a view that replays every change as it comes is in order at every moment exactly when every change finds its condition met |
| Batch.BatchThreads | src/chat_buffer.rs:1722-1726 | a batch replayed against its end leaves a list in order exactly when what stays was in order and each newcomer that stays fits its place |
| Batch.ReplayIsSequence | src/chat_buffer.rs:1722-1731 | from a list in order, the replayed list is the rebuilt one exactly when no order among what stays turned and each newcomer that stays fits |
| Resync.Assemble | src/chat_buffer.rs:1811-1855 | each id gets its old entry with a fresh reference flag, or a new entry, handed over once |
| Resync.FillCounts | src/chat_buffer.rs:3877-3906 | carried counts are kept and missing ones measured |
| Resync.CountsResync | src/chat_buffer.rs:1811-1893 | a re-laid list's counts are the measures of the texts carried over with them |
| Measuring.ReplayedText | src/chat_buffer.rs:1722-1781 | through a batch an entry keeps its text if it was shown and is untouched, and is otherwise read from the end state |
| Measuring.FreshIff | src/chat_buffer.rs:1687-1731 | from right counts a pass leads to right counts exactly when what it carries over says the same at both moments |
| Measuring.CarriedIsRight | src/chat_buffer.rs:1840-1855 | entry by entry: a carried count is right under every measure exactly when both moments give the same text |
| Measuring.ReplayUnmoved | src/chat_buffer.rs:1722-1731 | a batch without a re-lay carries over nothing that moved |
| Measuring.RevivedKeepsOldCount | src/chat_buffer.rs:1694-1721 | a message evicted and fetched again with an edit keeps a count of one where it takes two rows |
| Measuring.TrimKeepsOldCount | src/chat_buffer.rs:1599-1609 | so does one whose edit is pending when own notices are trimmed |
| Measuring.OlderPageKeepsPills | src/chat_buffer.rs:1716-1719 | and a reply whose quoted message arrives with an older page |
| Resync.Successor | src/chat_buffer.rs:1858-1865 | an entry that is still there keeps its cursor; otherwise the nearest newer survivor takes over, else the nearest older, and nobody only if none is left |
| Resync.OneHeir | src/chat_buffer.rs:1858-1865 | those rules leave no choice of heir |
| Handover.ReanchoredMoves | src/chat_buffer.rs:1878-1884 | the scroll anchor goes to the same heir with its line |
| Handover.HandedPasses | src/chat_buffer.rs:2118-2146 | a cursor on a removed entry goes to the start of the next one, else of the one before |
| Handover.RecoveredGoes | src/chat_buffer.rs:2174-2200 | a cursor on an evicted entry goes to the start of the front entry |
| Handover.StepCarries | src/chat_buffer.rs:1733-1781 | under one delta an entry that is not dropped stays with its fold, and a newcomer has the default one |
| Handover.Landing | src/chat_buffer.rs:1630-1646 | settling after a pass leaves a pinned reader at the end of the newest entry and any other where the pass put them |
| OwnNotices.PushThreads | src/chat_buffer.rs:2292-2327 | an own notice put last is in order exactly when dropping the oldest turns nothing and no shared notice shown stands behind a later message |
| OwnNotices.DroppedHoldsNext | src/chat_buffer.rs:2313-2317 | dropping an own notice anchored at a deleted message leaves the next one behind a message it belongs ahead of |
| OwnNotices.PushKeeps | src/chat_buffer.rs:2300-2303 | which holds in a view that shows every message and drops nothing |
| OwnNotices.PushedShowing | src/chat_buffer.rs:2292-2327 | the view shows what it should, and all of it if it did, when a notice is added and the oldest trimmed |
| Clearing.BoundaryHides | src/chat_buffer.rs:1456-1480 | the boundary hides exactly the ids no later than a shown one of their kind |
| Clearing.ObserveAll | src/chat_buffer.rs:2329-2333 | the loop over the entries computes that boundary |
| Clearing.ClearIsComplete | src/chat_buffer.rs:2329-2346 | a clear leaves nothing to show exactly when each kind was on screen or is not visible at all |
| Clearing.SecondClearForgets | src/chat_buffer.rs:2329-2336 | a second clear of an empty screen brings the first one's messages back |
| Viewport.ChatViewport.InsertEntry | src/chat_buffer.rs:2027-2073 | an id that is visible and not cleared is shown at its place, folded as new, measured, the index repaired in place at the end and marked for a repack elsewhere |
| Viewport.ChatViewport.AppendEntry | src/chat_buffer.rs:2053-2059 | an append keeps a packed index packed and a laid one laid, with the exact condition for the rows on screen to stay |
| Viewport.ChatViewport.ReplaceEntry | src/chat_buffer.rs:2076-2109 | a rewritten record is measured again from what the room says, one that no longer resolves goes |
| Viewport.ChatViewport.RemoveEntry | src/chat_buffer.rs:2111-2116 | the entry of an id goes if it is shown |
| Viewport.ChatViewport.RemoveEntryAt | src/chat_buffer.rs:2118-2146 | cursors on the entry go to the start of the next one, else of the one before, and the scroll anchor is let go; all others stay |
| Viewport.ChatViewport.CompactFront | src/chat_buffer.rs:2156-2173 | the swap loop is a stable filter, alike on entries and line counts |
| Viewport.ChatViewport.DropEvictedFront | src/chat_buffer.rs:2156-2200 | exactly the evicted messages go, and lost cursors go to the start of the front entry |
| Viewport.ChatViewport.ApplyDelta | src/chat_buffer.rs:1733-1781 | one delta: entries, folds, ids and texts as specified, counts true to their texts, cursors on entries that stay as they were; an arrival asks for no repack |
| Viewport.ChatViewport.ApplyDeltas | src/chat_buffer.rs:1722-1726 | a whole batch ends showing what the room calls for, each text kept or read and each fold and cursor kept as specified; a batch of arrivals keeps the index |
| Viewport.ChatViewport.RemeasureReferenceBodies | src/chat_buffer.rs:1978-2011 | every body with references, and no other, is measured against the end state |
| Viewport.ChatViewport.Finish | src/chat_buffer.rs:1951-1969 | the index tiles the list; it is repacked exactly when something asked for it or a body with references was measured again, and otherwise left as it is |
| Viewport.ChatViewport.ResyncEntries | src/chat_buffer.rs:1788-1893 | the rebuilt list is in step and in the threaded order, carries what survived with its folds and is packed; cursor, selection and scroll anchor go to their heirs, with the offset and the line they had |
| Viewport.ChatViewport.ApplyRelaid | src/chat_buffer.rs:1694-1721 | a batch with a re-lay ends in step and in the threaded order from any valid view, with exactly the new and the replaced bodies read again |
| Viewport.ChatViewport.SettleCursor | src/chat_buffer.rs:1630-1646 | a reader pinned to the tail with no selection goes to the end of the newest entry, an unset cursor to its start, any other stays |
| Viewport.ChatViewport.Replay | src/chat_buffer.rs:1687-1731 | any batch leads from a coherent view to a coherent one, showing all if it did or was re-laid, every text read or carried over and every fold, cursor and selection kept or handed on as specified; with a re-lay the list is in the threaded order, without one it is the replayed list and right counts stay right; a re-lay or a batch of arrivals keeps the index |
| Viewport.ChatViewport.Rebuild | src/chat_buffer.rs:1650-1683 | a rebuild leads to a current view in the threaded order with nothing measured |
| Viewport.ChatViewport.StartOver | src/chat_buffer.rs:1651-1669 | nothing derived from another generation stays |
| Viewport.ChatViewport.ReconcileTrimmed | src/chat_buffer.rs:1599-1609 | dropping own notices re-lays the list and ends current and in the threaded order, with only new entries read |
| Viewport.ChatViewport.CatchUp | src/chat_buffer.rs:1610-1612 | replays exactly the changes since while they are the last 256, and rebuilds otherwise; in both cases the view is coherent, current if it was, with what each path reads, the list it leaves and where it leaves cursor and folds |
| Viewport.ChatViewport.Reconcile | src/chat_buffer.rs:1582-1613 | whatever the room did, the view ends coherent with it and its cursors on shown entries; it is current if it was, and current and in the threaded order if anything re-laid or rebuilt the list; otherwise its list is the replayed one; which path is taken, what it reads and carries over, that a pinned reader ends on the newest entry and any other on theirs or its heir, which folds stay, and which notices |
| Viewport.ChatViewport.StillFollowing | src/chat_buffer.rs:1582-1613 | whatever the room does next, the view can catch up |
| Viewport.ChatViewport.PushNotice | src/chat_buffer.rs:2292-2327 | a notice is shown last and open, the others as they were, and the view stays as coherent as it was; the cursors stay named exactly when none was on a trimmed notice |
| Viewport.ChatViewport.EnsureLayoutIndex | src/chat_buffer.rs:3843-3875 | a view without a layout is measured and packed against the room, one with a layout is left alone |
| Viewport.PackedIff | src/chat_buffer.rs:1775-1779 | whatever marks moved, the index is the packed one exactly when they still group its blocks |
| Viewport.HeadingsAgree | src/chat_buffer.rs:4020-4057 | in a packed view everything under one heading has a record in the room, of one sender, side, trust and edit state |
| Viewport.HeadingsPart | src/chat_buffer.rs:4020-4057 | and two neighbours under different headings differ in one of these, stand more than 90 seconds apart, are long, or would take more than twelve lines |
| Viewport.TrimUnderCursor | src/chat_buffer.rs:2300-2312 | a cursor on the only notice there is room for names nothing after the next push |
| Viewport.ChatViewport.ClearScrollback | src/chat_buffer.rs:2329-2346 | an empty, coherent screen, current exactly when the clear is complete |
| Viewport.ChatViewport.ScrollToRow | src/chat_buffer.rs:3426-3451 | the scroll arithmetic is the minimal one, and a moved view drops its anchor |
| Viewport.ChatViewport.KeepCursorVisible | src/chat_buffer.rs:3413-3453 | the cursor's row ends in the safe band, in any view with a layout, packed or only tiled |
| Padme.PadmeLen | crates/rpc/src/mls.rs:28-36 | padding never shortens |
| Padme.PadmeBound | crates/rpc/src/mls.rs:28-36 | padding adds at most an eighth |
| Padme.PadmeIsLeast | crates/rpc/src/mls.rs:28-36 | the padded length is the least multiple of its step that holds the stream |
| Padme.StepIs | crates/rpc/src/mls.rs:32-34 | between 2^e and twice that the step is 2^e over 2 to the number of binary digits of e |
| Padme.FewClasses | crates/rpc/src/mls.rs:28-36 | so a padded length there is one of at most 2e steps above 2^e, which is all it gives away |
| Padme.MaskRoundsUp | crates/rpc/src/mls.rs:32-35 | in machine words, adding the mask and clearing its bits is that length, as long as the sum fits |
| Wire.PendingWire.Take | src/client_net.rs:2950-2959 | takes a prefix of what is pending and leaves the rest |
| Wire.PendingWire.Write | src/client_net.rs:2971-2980 | appends, and compacts before a chunk of spent bytes has built up |
| Wire.ChunkAt | src/client_net.rs:4767-4834 | offset and counter of a chunk are fixed by its position |
| Wire.WireBudget | src/client_net.rs:4767-4834 | the wire carries payload, padding and one overhead per frame |
| Wire.CarriersBound | src/client_net.rs:4767-4834 | frames are at most one to a payload byte and those without payload, and exactly that when each carries at most a byte |
| Throttle.UploadThrottle.SetRate | src/client_net.rs:2817-2820 | the budget is clamped to the new rate |
| Throttle.UploadThrottle.Refill | src/client_net.rs:2823-2831 | in any window payload stays within one second's worth plus the elapsed time's |
| Throttle.UploadThrottle.Consume | src/client_net.rs:2847-2852 | spending within the budget keeps that bound |
| Throttle.UploadThrottle.DelayUntil | src/client_net.rs:2856-2862 | the delay is zero exactly when the budget is there |
| Throttle.UploadThrottle.DelayIsLeast | src/client_net.rs:2856-2862 | a refill brings the bytes exactly when the delay has passed, and just then the bucket holds them or is full |
| Upload.OutgoingUpload.ReadSource | src/client_net.rs:6597-6632 | prefix, memory and file reads together give the source from the offset on |
| Upload.OutgoingUpload.Begin | src/client_net.rs:4675-4762 | the transfer opens under the name and size of an open file, and under no name and the size class of a sealed one |
| Upload.OutgoingUpload.SendChunk | src/client_net.rs:4767-4834 | one chunk of the first pending bytes, as many as chunk limit and budget allow, at the next offset and counter; exactly those leave the buffer and the budget |
| Upload.OutgoingUpload.FlushAhead | src/client_net.rs:4836-4849 | a flush queues what the encoder held and is progress |
| Upload.OutgoingUpload.ReadMore | src/client_net.rs:4851-4919 | source bytes are fed in order, as many as allowed and given; a source that ends early is noticed |
| Upload.OutgoingUpload.FinishEncoder | src/client_net.rs:4921-4931 | the encoder finishes once, and queues what it held |
| Upload.OutgoingUpload.SendPadding | src/client_net.rs:4944-4998 | a padding frame pays off what is owed, up to a full frame |
| Upload.OutgoingUpload.Poll | src/client_net.rs:4670-5029 | a poll starts the transfer exactly when it tells the server so, completes or cancels it exactly when it tells the server that, and sends nothing sealed outside a session; it spends exactly the bytes it sends and reads; progress lowers the rank, a poll is blocked exactly in the stuck states and then changes nothing, completion means all was sent |
| Upload.OutgoingUpload.Meanwhile | src/client_net.rs:2817-2831 | between polls the rate, the tokens and the announcement move as they are told, and nothing that is left to do |
| Upload.OutgoingUpload.WakeIsExact | src/client_net.rs:3803-3827 | idle exactly for want of room or of the announcement, a delay exactly while only tokens are waited for and zero exactly when those for a chunk are there, and at once otherwise, when a poll moves the upload |
| Upload.OutgoingUpload.StuckIs | src/client_net.rs:4670-5029 | the states a poll can do nothing in are: not announced yet; or out of tokens with bytes pending and the source at its end, a MiB queued, or 4 MiB read ahead of a limited compressor |
| Upload.OutgoingUpload.PollToRest | src/client_net.rs:4670-5029 | polling while it is productive ends, whatever happens in between; blocked at rest with the file announced means starved of tokens; each productive poll sends at most one chunk, and an identity upload needs no more of them than bytes and frames left |
| Download.ReceiveSink.Write | src/client_net.rs:3305-3333 | never more than the declared size, never more than the budget |
| Download.IncomingFile.HandleChunk | src/client_net.rs:5602-5657 | a chunk is accepted exactly at the expected offset, within the bound and, where a seal is expected, under the running counter |
| Download.IncomingFile.Feed | src/client_net.rs:3364-3394 | what the decoder takes leaves the queue and, for identity, is written in order |
| Download.IncomingFile.FinishDecoder | src/client_net.rs:3396-3416 | the decoder is closed only with every byte handed over and the sender done |
| Download.IncomingFile.Pump | src/client_net.rs:3360-3430 | what is written and consumed is what was planned, a failure inside the loop leaves the decode budget as it was, a finished file has the declared size, an honest transfer never fails |
| Download.IdentitySpend | src/client_net.rs:3360-3430 | without decompression a pump writes what it consumes |
| Download.SteadySpend | src/client_net.rs:3360-3430 | and with a target that keeps taking bytes it is limited by its budgets, the queue and the declared size alone |
| Ticks.PlanIsPossible | src/client_net.rs:3360-3430 | whatever target and decompressor do, what one pump writes, consumes and whether it breaks off is among the outcomes its holding and the budgets allow |
| Ticks.PossibleHappens | src/client_net.rs:3360-3430 | and each of those outcomes happens under some behaviour |
| Ticks.TickWithin | src/client_net.rs:5689-5710 | a tick stays within a limit under every behaviour exactly when holdings and budgets say so |
| Ticks.MostIsExact | src/client_net.rs:5689-5710 | for files of any encodings sent no more than announced, exactly when `Most`, computed from holdings and budgets, does |
| Ticks.CompressedTick | src/client_net.rs:5689-5710 | a tick over compressed files keeps its decode budget under every behaviour exactly when the sum of what each may write alone does |
| Receiving.PlainHasRoom | src/client_net.rs:5610-5618 | a plain identity file is never sent more than announced |
| Receiving.PumpIncomingFiles | src/client_net.rs:5689-5735 | what a tick writes is `TickTotal` of what the files hold; it and the left-over budget add up to the budget and what broken pumps wrote; it keeps to the decode budget wherever `Ticks.Within` says so, and always for identity transfers to steady targets; exactly the files that failed or are complete leave the table |
| Receiving.OverspentTick | src/client_net.rs:5689-5710 | a corrupt first file makes a tick write eleven bytes under a budget of eight |
| Transfer.NextChunkMatches | src/client_net.rs:5602-5657 | the receiver's offset and counter are those of the sender's next chunk, which is accepted exactly when the wire bytes so far fit the bound of the advertised size |
| Transfer.BoundIs | crates/rpc/src/control.rs:798-813 | the bound on wire bytes in numbers, for plain, compressed and sealed transfers |
| Transfer.PlainIsAccepted | src/client_net.rs:5610-5618 | no chunk of a plain identity transfer is turned away |
| Transfer.HonestIsAccepted | src/client_net.rs:5602-5657 | nor is one of a sealed identity transfer of a size that always fits |
| Transfer.Relay | src/client_net.rs:5602-5657 | relaying a chunk keeps both ends in step, accepted or not |
| Transfer.WrittenIsPrefix | src/client_net.rs:3360-3430 | at any moment the receiver has written a prefix of the source |
| Transfer.DoneSendsAll | src/client_net.rs:4933-5029 | a finished upload has sent the whole source and exactly its padding |
| Transfer.FinishedIsExact | src/client_net.rs:3432-3436 | a transfer that finishes has written exactly the source bytes |
| Transfer.Session.Poll | src/client_net.rs:4670-5029 | a poll of the sender queues at most one chunk, within the token budget, and makes progress unless stuck; what the server has been told is at every moment a start, the data in order, and at the end a completion or a cancellation |
| Transfer.HeardNext | src/client_net.rs:4670-5029 | what a poll adds to what the server was told keeps that shape |
| Transfer.SealedOpensAlike | src/client_net.rs:4675-4707 | sealed transfers of one size class open alike, whatever they hold and are called |
| Transfer.Session.Pump | src/client_net.rs:3360-3430 | the receiver writes as much as planned and fails exactly when the pump breaks off or ends at another size |
| Transfer.Session.Do | src/client_net.rs:4670-5029 | each move has its effect and no other |
| Transfer.Session.Deliver | src/client_net.rs:5602-5657 | a delivery fails exactly when the next chunk does not fit the bound; completion is heard once all chunks are |
| Transfer.Session.Run | src/client_net.rs:4670-5029 | over any schedule of polls, refills, new rates, relays and pumps, all of it carried out unless the receiver fails: always a prefix of the source, exactly the source once finished, and no failure at the receiving end of a plain identity transfer nor of a sealed one of a size that always fits |
| Transfer.Session.BringHome | src/client_net.rs:4670-5029 | from wherever any schedule has brought it, a transfer that no schedule makes fail can be brought to its end, whatever the rate, and the receiver then has exactly the source |
| Transfer.RelayedIsHonest | src/client_net.rs:3360-3430 | a receiver relayed everything is one its pump never fails |
| Transfer.SealedWithin | crates/rpc/src/control.rs:798-813 | no schedule makes a sealed identity upload take more than a frame to a byte and its padding frames |
| Transfer.CrumbledTotal | crates/rpc/src/control.rs:798-813 | one that sent a byte to a frame takes exactly that |
| Transfer.FitsUpTo | crates/rpc/src/control.rs:798-813 | up to 3680 bytes every schedule fits, from 3720 bytes on not every schedule does |
| Transfer.Session.Crumble | src/client_net.rs:4767-4834 | any size that does not always fit is turned away under a rate of one byte a second |
| Transfer.FewFramesFit | crates/rpc/src/control.rs:798-813 | a finished sealed upload takes its padded stream and an overhead per frame, no prefix takes more, and with few enough frames it fits |
| Controls.ControlPath.ActorStep | src/client_net.rs:3591-3596 | the actor takes the oldest input, and an answer carries the generation its control came with |
| Controls.ControlPath.QueueInput | src/client_net.rs:3526-3534 | an input joins the end of the mailbox or is parked behind it; it fails exactly when one is parked already |
| Controls.ControlPath.FlushPendingInput | src/client_net.rs:3536-3543 | a parked input is sent or stays parked; the line of inputs is the same |
| Controls.ControlPath.DrainOutputs | src/client_net.rs:3545-3618 | the counter never underflows and stale generations count for nothing |
| Controls.ControlPath.HandleControl | src/client_net.rs:5869-5880 | a control is handled next in wire order, the worker's own only with no answer owed |
| Controls.ControlPath.ProcessServerControls | src/client_net.rs:3896-3959 | at most one control is put aside, none is lost, and one put aside is the next handled |
| Controls.HandledInWireOrder | src/client_net.rs:3896-3959 | controls are handled in received order, each of the worker's own after the answers to all MLS controls before it, and the actor takes the MLS controls in that order too |
| Commands.CommandPath.Turn | src/client_net.rs:1977-2018 | one turn loses and doubles nothing and keeps gated commands in order; it handles a gated command only in a ready session, keeps what waits while there is none, does nothing while the mailbox is full, and moves when it can |
| Commands.CommandPath.DrainPending | src/client_net.rs:1977-1998 | exactly the first eight waiting commands are handled, or fewer up to a full mailbox |
| Commands.CommandPath.DrainChannel | src/client_net.rs:1999-2018 | a command is handled if it may be and nothing it must follow waits, and otherwise waits behind those that wait already |
| Commands.HandledInOrder | src/client_net.rs:650-671 | the gated commands handled are at every moment the first ones submitted, and each was handled in a ready session |
| Offers.OfferBacklog.Defer | src/client_net.rs:6389-6414 | an offer is kept exactly when the room's queue with it stays within 1024 offers and 2 MiB and all queues together within 8192 and 16 MiB; counters stay the sums they stand for |
| Offers.RetainedIs | src/client_net.rs:2779-2790 | an offer is held at 256 bytes, and 16 more with an event id |
| Offers.OfferBacklog.Drain | src/client_net.rs:6434-6484 | exactly the longest ready prefix leaves the queue, in order |
| Offers.TotalUpdate | src/client_net.rs:6408-6412 | a room's change moves the totals by its own weight |
| Bindings.LayerParser.ExtendLayer | src/bindings.rs:496-557 | the recursion ends, emits the expansion and leaves the trail as it was |
| Bindings.LayerParser.ExtendName | src/bindings.rs:504-536 | one inherited name, in the defaults and then in the document |
| Bindings.LayerParser.ParseLayer | src/bindings.rs:585-592 | a layer's default table and then the document's |
| Bindings.FailsIff | src/bindings.rs:504-536 | expanding fails exactly when a name reached is undefined or on a cycle |
| Bindings.ExpandInOrder | src/bindings.rs:496-557 | inherited before own, earlier entries before later ones, the defaults before the document |
| Bindings.ExpandEmits | src/bindings.rs:496-557 | every way through the inherit lists contributes the operations of the table it leads to, once and in their order there, and nothing else is emitted |
| Bindings.DocumentWins | src/bindings.rs:585-592 | the last operation on a key counts, and a key the document's table binds ends up as that table says |

## Left out

- Sockets, polling, threads, files, name resolution, dialing, login and pairing: input and output over other libraries.
- Cryptography, MLS, zstd, TOML parsing, the router builder, Unicode widths and the message tokenizer are not part of this model; only the facts named above are used.
- The scroll offset an append leaves: the code does not promise one.
- Display.InStepAgree: the order between kinds is not part of being in step; `Sequence` states what a rebuild gives and `OneDelta` and `Batch` when a replay gives the same.
- Layout caches of single entries, the remembered column, drag state, the render epoch and the jump to the bottom some notices ask for: bookkeeping beside the row index.
- Pills, quotes, lists, headings and clipboard yanks: they rest on the tokenizer.
- Highlight.CodeLayout.EmitHighlighted: cell columns of segments and quote markers are not modelled, only bytes, styles and row breaks.
- RoomLog.RoomHistory.MergePage: mutation records and provenance replacements that come with a page are not modelled.
- RoomLog.RoomHistory.FoldEdit: whether the message is a file and what its provenance allows are parameters.
- RoomLog.RoomHistory.Relabel: marks are stored with the records here, where the code derives them when it draws.
- Viewport.ChatViewport.KeepCursorVisible: the line of the cursor is a parameter, since byte offsets in a body rest on the tokenizer.
- Receiving.PumpIncomingFiles: progress events and the finalizing of finished files are not modelled.
- RoomLog.RoomHistory.ReceiveChat: pending edits and deletes that fold into a late message, attachments and provenance are not modelled.
- Upload.OutgoingUpload.Poll: room, transfer and event ids, the local copy, progress events and sealing errors are not modelled; a failed or empty read is one case, which cancels.
- Throttle.UploadThrottle.Refill: reals with a floor stand for floating point, the clock does not run backwards, and only the upper bound is claimed, since truncation can keep tokens from accruing.
- Bindings.LayerParser.ExtendLayer: key syntax errors and the warning about tables nobody inherits are not modelled.
- Commands.CommandPath.Turn: a handler error ends the session; the claims are for sessions without one.
- Selection of a session's end, reconnection schedules, voice, screen sharing, pairing, history fetches and the web log would only add easy members or other subsystems.
