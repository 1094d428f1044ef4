/** One tick over all incoming files: they share the two work budgets, in whatever order the table gives them. */
module Receiving {
  import opened Arithmetic
  import opened Wire
  import opened Upload
  import opened Download
  import opened Ticks

  /** What one file was granted, what it wrote and how it ended. */
  datatype Share = Share(wire: nat, decoded: nat, written: nat, consumed: nat, result: Pumped)

  /** Bytes written in the tick. */
  function BytesWritten(shares: seq<Share>): nat {
    if shares == [] then 0 else BytesWritten(shares[..|shares| - 1]) + shares[|shares| - 1].written
  }

  /** Bytes written by pumps that broke off: their budget was handed back. */
  function Wasted(shares: seq<Share>): nat {
    if shares == [] then 0 else Wasted(shares[..|shares| - 1]) + WastedIn(shares[|shares| - 1])
  }

  /** Wire bytes used up in the tick. */
  function Consumed(shares: seq<Share>): nat {
    if shares == [] then 0 else Consumed(shares[..|shares| - 1]) + shares[|shares| - 1].consumed
  }

  function WastedIn(share: Share): nat {
    if share.result.Broken? then share.written else 0
  }

  lemma {:induction false} SharesAppend(shares: seq<Share>, share: Share)
    ensures BytesWritten(shares + [share]) == BytesWritten(shares) + share.written
    ensures Wasted(shares + [share]) == Wasted(shares) + WastedIn(share)
    ensures Consumed(shares + [share]) == Consumed(shares) + share.consumed
  {
    assert (shares + [share])[..|shares|] == shares;
  }

  lemma {:induction false} NothingWasted(shares: seq<Share>)
    requires forall i :: 0 <= i < |shares| ==> WastedIn(shares[i]) == 0
    ensures Wasted(shares) == 0
  {
    if shares != [] {
      NothingWasted(shares[..|shares| - 1]);
    }
  }

  lemma {:induction false} WrittenIsConsumed(shares: seq<Share>)
    requires forall i :: 0 <= i < |shares| ==> shares[i].written == shares[i].consumed
    ensures BytesWritten(shares) == Consumed(shares)
  {
    if shares != [] {
      WrittenIsConsumed(shares[..|shares| - 1]);
    }
  }

  /** No two entries of the table are one file or write to one place. */
  ghost predicate Apart(files: seq<IncomingFile>) {
    forall i, j :: 0 <= i < j < |files| ==> files[i] != files[j] && files[i].sink != files[j].sink
  }

  /** Nothing is decompressed. */
  ghost predicate Verbatim(files: seq<IncomingFile>) {
    forall i :: 0 <= i < |files| ==> files[i].encoding == Identity
  }

  /** Each file's target always takes something. */
  ghost predicate Steady(grants: nat -> (nat -> nat)) {
    forall i: nat, k: nat :: grants(i)(k) > 0
  }

  /** The budget a file leaves to the next one. */
  function Left(share: Share): nat {
    if share.result.Broken? then share.decoded else SatSub(share.decoded, share.written)
  }

  /** Every file gets what the one before it left. */
  ghost predicate HandedOn(shares: seq<Share>, wireBudget: nat, decodedBudget: nat) {
    && (forall i :: 0 <= i < |shares| ==> shares[i].written <= shares[i].decoded)
    && (shares != [] ==> shares[0].wire == wireBudget && shares[0].decoded == decodedBudget)
    && forall i :: 0 <= i < |shares| - 1 ==> Follows(shares, i)
  }

  ghost predicate Follows(shares: seq<Share>, i: nat)
    requires i + 1 < |shares|
  {
    shares[i + 1].decoded == Left(shares[i]) && shares[i + 1].wire == SatSub(shares[i].wire, shares[i].consumed)
  }

  /** A file stays until its pump fails or all of it is written. */
  ghost predicate Stays(file: IncomingFile, share: Share)
    reads file, file.sink
  {
    share.result.Fine? && !file.ReadyToFinalize()
  }

  method PumpOne(file: IncomingFile, wire: nat, decoded: nat, grants: nat -> nat, decodings: nat -> Decoding)
    returns (stays: bool, wireLeft: nat, decodedLeft: nat, ghost share: Share)
    requires file.Valid()
    modifies file, file.sink
    ensures file.Valid() && |file.sink.target| == old(|file.sink.target|) + share.written
    ensures share.wire == wire && share.decoded == decoded && share.written <= decoded
    ensures stays <==> Stays(file, share)
    ensures decodedLeft == Left(share) && decodedLeft + share.written == decoded + WastedIn(share)
    ensures wireLeft + share.consumed == wire
    ensures Planned(share) == old(file.Planned(wire, decoded, grants, decodings))
    ensures file.encoding == Identity ==> share.written == share.consumed
    ensures file.encoding == Identity && (forall k :: grants(k) > 0) ==> WastedIn(share) == 0
  {
    PlanOf(file, wire, decoded, grants, decodings);
    hide IncomingFile.Valid, IncomingFile.Planned, IncomingFile.Honest;
    var result;
    result, wireLeft, decodedLeft := file.Pump(wire, decoded, grants, decodings);
    share := Share(wire, decoded, |file.sink.target| - old(|file.sink.target|), wire - wireLeft, result);
    stays := result.Fine? && !file.ReadyToFinalize();
  }

  function Planned(share: Share): Spending {
    Spending(share.written, share.consumed, share.result.Broken?)
  }

  lemma {:induction false} PlanOf(file: IncomingFile, wire: nat, decoded: nat, grants: nat -> nat,
                                  decodings: nat -> Decoding)
    requires file.Valid()
    ensures var plan := file.Planned(wire, decoded, grants, decodings);
            file.encoding == Identity ==>
              plan.written == plan.consumed && ((forall k :: grants(k) > 0) && plan.broke ==> plan.written == 0)
  {
    hide Spend, InOrder;
    if file.encoding == Identity {
      var have, unread := |file.sink.target|, |file.Unread()|;
      IdentitySpend(file.size, have, unread, file.Closing(), wire, decoded, grants, decodings, 0);
      if forall k :: grants(k) > 0 {
        SteadySpend(file.size, have, unread, file.Closing(), wire, decoded, grants, decodings, 0);
      }
    }
  }

  ghost function Held(file: IncomingFile): Holding
    requires file.Valid()
    reads file, file.sink
  {
    Holding(file.encoding, file.size, |file.sink.target|, |file.Unread()|, file.Closing())
  }

  lemma {:induction false} PlannedIs(file: IncomingFile, wire: nat, decoded: nat, grants: nat -> nat,
                                     decodings: nat -> Decoding)
    requires file.Valid()
    ensures file.Planned(wire, decoded, grants, decodings) == PumpPlan(Held(file), wire, decoded, grants, decodings)
  {
    hide Spend, InOrder;
  }

  /** One file's share moves the total from what is planned to what is written. */
  lemma {:induction false} TickStep(held: seq<Holding>, i: nat, share: Share, grants: nat -> (nat -> nat),
                                    decodings: nat -> (nat -> Decoding))
    requires i < |held| && share.wire > 0 && share.decoded > 0
    requires Planned(share) == PumpPlan(held[i], share.wire, share.decoded, grants(i), decodings(i))
    ensures TickTotal(held, i, share.wire, share.decoded, grants, decodings) ==
            share.written + TickTotal(held, i + 1, SatSub(share.wire, share.consumed), Left(share), grants, decodings)
  {
    hide PumpPlan;
  }

  /**
   * Pumps the files one after the other until a budget is spent. What it writes is fixed beforehand by what the files
   * hold and what the outside will do. Written and left-over bytes add up to the budget and what broken pumps wrote,
   * so the tick stays within its budget exactly when those wrote no more than is left. That is always so while nothing
   * is decompressed and either every target takes something or the wire budget is the smaller one, and whenever what
   * the files hold bounds it: `Ticks.TickWithin` says that no weaker condition on them does.
   */
  method PumpIncomingFiles(files: seq<IncomingFile>, wireBudget: nat, decodedBudget: nat,
                           grants: nat -> (nat -> nat), decodings: nat -> (nat -> Decoding),
                           ghost held: seq<Holding>)
    returns (wireLeft: nat, decodedLeft: nat, kept: set<IncomingFile>, ghost shares: seq<Share>)
    requires Apart(files) && forall i :: 0 <= i < |files| ==> files[i].Valid()
    requires |held| == |files| && forall i :: 0 <= i < |files| ==> held[i] == Held(files[i])
    modifies files, set i | 0 <= i < |files| :: files[i].sink
    ensures |shares| <= |files| && (|shares| < |files| ==> wireLeft == 0 || decodedLeft == 0)
    ensures forall i :: 0 <= i < |files| ==> files[i].Valid()
    ensures forall i :: 0 <= i < |shares| ==> |files[i].sink.target| == old(|files[i].sink.target|) + shares[i].written
    ensures forall i :: |shares| <= i < |files| ==> files[i].sink.target == old(files[i].sink.target)
    ensures Books(shares, wireBudget, decodedBudget, wireLeft, decodedLeft)
    ensures forall i :: 0 <= i < |shares| ==>
              Planned(shares[i]) == PumpPlan(held[i], shares[i].wire, shares[i].decoded, grants(i), decodings(i))
    ensures BytesWritten(shares) == TickTotal(held, 0, wireBudget, decodedBudget, grants, decodings)
    ensures Within(held, 0, wireBudget, decodedBudget, decodedBudget) ==> BytesWritten(shares) <= decodedBudget
    ensures BytesWritten(shares) <= decodedBudget <==> Wasted(shares) <= decodedLeft
    ensures Verbatim(files) && (Steady(grants) || wireBudget <= decodedBudget) ==> BytesWritten(shares) <= decodedBudget
    ensures forall f :: f in kept ==> f in files
    ensures forall i :: 0 <= i < |files| ==> (files[i] in kept <==> (i < |shares| ==> Stays(files[i], shares[i])))
  {
    hide IncomingFile.Valid, BytesWritten, Wasted, Books, WastedIn, Left, Planned, Held, TickTotal, PumpPlan, Ledger,
         Within, Started, Stays;
    StartedHeld(files, held);
    ghost var tick := Tick(held, wireBudget, decodedBudget, grants, decodings);
    ghost var was := Targets(files);
    wireLeft, decodedLeft, kept, shares := PumpEach(files, wireBudget, decodedBudget, grants, decodings, tick, was);
    LedgerCloses(tick, shares, wireLeft, decodedLeft, Verbatim(files));
  }

  ghost function Targets(files: seq<IncomingFile>): (targets: seq<seq<Byte>>)
    reads files, set k | 0 <= k < |files| :: files[k].sink
    ensures |targets| == |files| && forall i :: 0 <= i < |files| ==> targets[i] == files[i].sink.target
  {
    if files == [] then [] else Targets(files[..|files| - 1]) + [files[|files| - 1].sink.target]
  }

  /** The first `i` files have had their share, the others are as they were. */
  ghost predicate Halfway(files: seq<IncomingFile>, i: nat, shares: seq<Share>, kept: set<IncomingFile>,
                          held: seq<Holding>, was: seq<seq<Byte>>)
    reads files, set k | 0 <= k < |files| :: files[k].sink
  {
    && |shares| == i <= |files| == |held| == |was| && (forall f :: f in kept ==> f in files)
    && (forall j :: 0 <= j < i ==>
          && files[j].Valid() && |files[j].sink.target| == |was[j]| + shares[j].written
          && (files[j] in kept <==> Stays(files[j], shares[j])))
    && (forall j :: i <= j < |files| ==>
          files[j].Valid() && files[j].sink.target == was[j] && held[j] == Held(files[j]) && files[j] in kept)
  }

  method PumpEach(files: seq<IncomingFile>, wireBudget: nat, decodedBudget: nat, grants: nat -> (nat -> nat),
                  decodings: nat -> (nat -> Decoding), ghost tick: Tick, ghost was: seq<seq<Byte>>)
    returns (wireLeft: nat, decodedLeft: nat, kept: set<IncomingFile>, ghost shares: seq<Share>)
    requires Apart(files) && Halfway(files, 0, [], (set f | f in files), tick.held, was)
    requires tick == Tick(tick.held, wireBudget, decodedBudget, grants, decodings)
    modifies files, set i | 0 <= i < |files| :: files[i].sink
    ensures Halfway(files, |shares|, shares, kept, tick.held, was)
    ensures |shares| < |files| ==> wireLeft == 0 || decodedLeft == 0
    ensures Ledger(tick, shares, wireLeft, decodedLeft, Verbatim(files))
  {
    hide BytesWritten, Wasted, Books, WastedIn, Left, Planned, Held, TickTotal, PumpPlan, Ledger, Halfway, Apart;
    wireLeft, decodedLeft, kept, shares := wireBudget, decodedBudget, (set f | f in files), [];
    LedgerOpens(tick, Verbatim(files));
    HalfwayCounts(files, 0, shares, kept, tick.held, was);
    for i := 0 to |files|
      invariant |shares| == i && Ledger(tick, shares, wireLeft, decodedLeft, Verbatim(files))
      invariant Halfway(files, i, shares, kept, tick.held, was)
    {
      if wireLeft == 0 || decodedLeft == 0 {
        break;
      }
      ghost var share;
      kept, wireLeft, decodedLeft, share :=
        PumpAt(files, i, kept, wireLeft, decodedLeft, grants(i), decodings(i), shares, tick.held, was);
      LedgerGrows(tick, shares, share, wireLeft, decodedLeft, Verbatim(files));
      shares := shares + [share];
    }
  }

  lemma {:induction false} HalfwayCounts(files: seq<IncomingFile>, i: nat, shares: seq<Share>, kept: set<IncomingFile>,
                                         held: seq<Holding>, was: seq<seq<Byte>>)
    requires Halfway(files, i, shares, kept, held, was)
    ensures |shares| == i <= |files| == |held|
  {
  }

  /** The next file gets what is left of the budgets, and goes if its pump fails or all of it is there. */
  method PumpAt(files: seq<IncomingFile>, i: nat, kept: set<IncomingFile>, wire: nat, decoded: nat, grants: nat -> nat,
                decodings: nat -> Decoding, ghost shares: seq<Share>, ghost held: seq<Holding>,
                ghost was: seq<seq<Byte>>)
    returns (left: set<IncomingFile>, wireLeft: nat, decodedLeft: nat, ghost share: Share)
    requires Apart(files) && i < |files| && Halfway(files, i, shares, kept, held, was)
    modifies files[i], files[i].sink
    ensures Halfway(files, i + 1, shares + [share], left, held, was)
    ensures share.wire == wire && share.decoded == decoded && share.written <= decoded
    ensures decodedLeft == Left(share) && decodedLeft + share.written == decoded + WastedIn(share)
    ensures wireLeft + share.consumed == wire
    ensures i < |held| && Planned(share) == PumpPlan(held[i], wire, decoded, grants, decodings)
    ensures files[i].encoding == Identity ==> share.written == share.consumed
    ensures files[i].encoding == Identity && (forall k :: grants(k) > 0) ==> WastedIn(share) == 0
  {
    hide IncomingFile.Valid, WastedIn, Left, Planned, Held, PumpPlan, Stays;
    var file := files[i];
    assert forall j :: 0 <= j < |files| && j != i ==> files[j] != file && files[j].sink != file.sink;
    PlannedIs(file, wire, decoded, grants, decodings);
    var stays;
    stays, wireLeft, decodedLeft, share := PumpOne(file, wire, decoded, grants, decodings);
    left := if stays then kept else kept - {file};
  }

  lemma {:induction false} StartedHeld(files: seq<IncomingFile>, held: seq<Holding>)
    requires |held| == |files| && forall i :: 0 <= i < |files| ==> files[i].Valid()
    requires forall i :: 0 <= i < |files| ==> held[i] == Held(files[i])
    ensures Started(held)
  {
    hide InOrder, WireTotal, Payloads;
  }

  /** A plain identity receiver, whose wire bound is its size, is never sent more than that. */
  lemma {:induction false} PlainHasRoom(file: IncomingFile)
    requires file.Valid() && file.encoding == Identity && file.seal.None? && file.WireBound() == file.size
    ensures Held(file).have + Held(file).unread <= file.size
  {
    hide InOrder, WireTotal, Payloads;
    WireBudget(file.log, false);
  }

  /** What is given to a tick. */
  datatype Tick = Tick(held: seq<Holding>, wire: nat, decoded: nat, grants: nat -> (nat -> nat),
                       decodings: nat -> (nat -> Decoding))

  /** Everything known of a tick while it lasts. */
  ghost predicate Ledger(tick: Tick, shares: seq<Share>, wireLeft: nat, decodedLeft: nat, verbatim: bool) {
    && |shares| <= |tick.held| && Books(shares, tick.wire, tick.decoded, wireLeft, decodedLeft)
    && (forall i :: 0 <= i < |shares| ==>
          Planned(shares[i]) ==
          PumpPlan(tick.held[i], shares[i].wire, shares[i].decoded, tick.grants(i), tick.decodings(i)))
    && BytesWritten(shares) + TickTotal(tick.held, |shares|, wireLeft, decodedLeft, tick.grants, tick.decodings)
       == TickTotal(tick.held, 0, tick.wire, tick.decoded, tick.grants, tick.decodings)
    && (verbatim ==> Unpacked(shares, Steady(tick.grants)))
  }

  lemma {:induction false} LedgerOpens(tick: Tick, verbatim: bool)
    ensures Ledger(tick, [], tick.wire, tick.decoded, verbatim)
  {
    hide TickTotal;
    NoShares(tick.wire, tick.decoded);
  }

  lemma {:induction false} LedgerGrows(tick: Tick, shares: seq<Share>, share: Share, wireLeft: nat, decodedLeft: nat,
                                       verbatim: bool)
    requires Ledger(tick, shares, share.wire, share.decoded, verbatim) && |shares| < |tick.held|
    requires share.wire > 0 && share.decoded > 0 && share.written <= share.decoded
    requires decodedLeft == Left(share) && decodedLeft + share.written == share.decoded + WastedIn(share)
    requires wireLeft + share.consumed == share.wire
    requires var i := |shares|;
             Planned(share) == PumpPlan(tick.held[i], share.wire, share.decoded, tick.grants(i), tick.decodings(i))
    requires verbatim ==> share.written == share.consumed && (Steady(tick.grants) ==> WastedIn(share) == 0)
    ensures Ledger(tick, shares + [share], wireLeft, decodedLeft, verbatim)
  {
    hide TickTotal, PumpPlan, BytesWritten, Wasted, Books, Left, WastedIn, Planned, Unpacked;
    BooksAppend(shares, share, tick.wire, tick.decoded, wireLeft, decodedLeft);
    if verbatim {
      UnpackedAppend(shares, share, Steady(tick.grants));
    }
    TickStep(tick.held, |shares|, share, tick.grants, tick.decodings);
    SharesAppend(shares, share);
  }

  lemma {:induction false} LedgerCloses(tick: Tick, shares: seq<Share>, wireLeft: nat, decodedLeft: nat, verbatim: bool)
    requires Ledger(tick, shares, wireLeft, decodedLeft, verbatim)
    requires |shares| == |tick.held| || wireLeft == 0 || decodedLeft == 0
    ensures Books(shares, tick.wire, tick.decoded, wireLeft, decodedLeft)
    ensures forall i :: 0 <= i < |shares| ==>
              Planned(shares[i]) ==
              PumpPlan(tick.held[i], shares[i].wire, shares[i].decoded, tick.grants(i), tick.decodings(i))
    ensures BytesWritten(shares) == TickTotal(tick.held, 0, tick.wire, tick.decoded, tick.grants, tick.decodings)
    ensures BytesWritten(shares) <= tick.decoded <==> Wasted(shares) <= decodedLeft
    ensures Started(tick.held) && Within(tick.held, 0, tick.wire, tick.decoded, tick.decoded) ==>
              BytesWritten(shares) <= tick.decoded
    ensures verbatim && (Steady(tick.grants) || tick.wire <= tick.decoded) ==> BytesWritten(shares) <= tick.decoded
  {
    assert TickTotal(tick.held, |shares|, wireLeft, decodedLeft, tick.grants, tick.decodings) == 0;
    hide TickTotal, PumpPlan, BytesWritten, Wasted, Books, Planned, Unpacked, Within, Started;
    if Started(tick.held) && Within(tick.held, 0, tick.wire, tick.decoded, tick.decoded) {
      WithinHolds(tick.held, 0, tick.wire, tick.decoded, tick.decoded, tick.grants, tick.decodings);
    }
    BooksBalance(shares, tick.wire, tick.decoded, wireLeft, decodedLeft, Steady(tick.grants));
  }

  /** Who was granted what, and how it adds up to what is left. */
  ghost predicate Books(shares: seq<Share>, wireBudget: nat, decodedBudget: nat, wireLeft: nat, decodedLeft: nat) {
    && HandedOn(shares, wireBudget, decodedBudget)
    && (if shares == [] then wireLeft == wireBudget && decodedLeft == decodedBudget
        else
          var last := shares[|shares| - 1];
          decodedLeft == Left(last) && wireLeft == SatSub(last.wire, last.consumed))
    && BytesWritten(shares) + decodedLeft == decodedBudget + Wasted(shares) && Consumed(shares) + wireLeft == wireBudget
  }

  lemma {:induction false} BooksAppend(shares: seq<Share>, share: Share, wireBudget: nat, decodedBudget: nat,
                                       wireLeft: nat, decodedLeft: nat)
    requires Books(shares, wireBudget, decodedBudget, share.wire, share.decoded) && share.written <= share.decoded
    requires decodedLeft == Left(share) && decodedLeft + share.written == share.decoded + WastedIn(share)
    requires wireLeft + share.consumed == share.wire
    ensures Books(shares + [share], wireBudget, decodedBudget, wireLeft, decodedLeft)
  {
    hide BytesWritten, Wasted, Consumed, WastedIn, Left, HandedOn;
    SharesAppend(shares, share);
    HandedOnAppend(shares, share, wireBudget, decodedBudget);
  }

  /** Shares of files that decompress nothing; steady ones waste nothing either. */
  ghost predicate Unpacked(shares: seq<Share>, steady: bool) {
    forall i :: 0 <= i < |shares| ==>
      shares[i].written == shares[i].consumed && (steady ==> WastedIn(shares[i]) == 0)
  }

  lemma {:induction false} UnpackedAppend(shares: seq<Share>, share: Share, steady: bool)
    ensures Unpacked(shares, steady) && share.written == share.consumed && (steady ==> WastedIn(share) == 0) ==>
              Unpacked(shares + [share], steady)
  {
    hide WastedIn;
  }

  lemma {:induction false} BooksBalance(shares: seq<Share>, wireBudget: nat, decodedBudget: nat, wireLeft: nat,
                                        decodedLeft: nat, steady: bool)
    requires Books(shares, wireBudget, decodedBudget, wireLeft, decodedLeft)
    ensures BytesWritten(shares) <= decodedBudget <==> Wasted(shares) <= decodedLeft
    ensures Unpacked(shares, steady) && (steady || wireBudget <= decodedBudget) ==>
              BytesWritten(shares) <= decodedBudget
  {
    hide BytesWritten, Wasted, Consumed, WastedIn, Left, HandedOn;
    if Unpacked(shares, steady) {
      WrittenIsConsumed(shares);
      if steady {
        NothingWasted(shares);
      }
    }
  }

  lemma {:induction false} HandedOnAppend(shares: seq<Share>, share: Share, wireBudget: nat, decodedBudget: nat)
    requires HandedOn(shares, wireBudget, decodedBudget) && share.written <= share.decoded
    requires if shares == [] then share.wire == wireBudget && share.decoded == decodedBudget
             else
               var last := shares[|shares| - 1];
               share.decoded == Left(last) && share.wire == SatSub(last.wire, last.consumed)
    ensures HandedOn(shares + [share], wireBudget, decodedBudget)
  {
    var all := shares + [share];
    forall i | 0 <= i < |all| - 1
      ensures Follows(all, i)
    {
      assert i < |shares| - 1 ==> Follows(shares, i);
    }
  }

  lemma {:induction false} NoShares(wireBudget: nat, decodedBudget: nat)
    ensures Books([], wireBudget, decodedBudget, wireBudget, decodedBudget)
    ensures forall steady :: Unpacked([], steady)
  {
  }

  // --- A tick over its budget -------------------------------------------------------------------

  /** A compressed file of which two wire bytes have arrived. */
  method Compressed() returns (file: IncomingFile)
    ensures fresh(file) && fresh(file.sink) && file.Valid()
    ensures file.size == 20 && file.encoding == Zstd && file.sink.target == [] && |file.Unread()| == 2
    ensures !file.completeReceived
  {
    file := new IncomingFile(20, Zstd, 100, None);
    var accepted := file.HandleChunk(Chunk(0, Plain([1, 2])));
  }

  /** The first stream yields three bytes and turns out corrupt, every other one yields eight. */
  function CorruptFirst(i: nat): nat -> Decoding {
    if i == 0 then (k => Decoding([[0, 0, 0]], true, 1)) else (k => Decoding([[0, 0, 0, 0, 0, 0, 0, 0]], false, 1))
  }

  lemma {:induction false} Yields(i: nat, grants: nat -> nat)
    requires grants(0) == 100
    ensures Spend(Zstd, 20, 0, 2, false, 8, 8, grants, CorruptFirst(i), 0) ==
            if i == 0 then Spending(3, 0, true) else Spending(8, 1, false)
  {
    var outputs := CorruptFirst(i)(0).outputs;
    assert outputs[1..] == [];
    assert Poured(20, 0, 8, 100, outputs) == Attempted(|outputs[0]|, Wrote(0));
  }

  /** Two files under budgets of eight bytes each way, and eleven bytes are written. */
  method OverspentTick()
    returns (files: seq<IncomingFile>, wireLeft: nat, decodedLeft: nat, ghost shares: seq<Share>)
    ensures |files| == |shares| == 2 && Books(shares, 8, 8, wireLeft, decodedLeft)
    ensures |files[0].sink.target| + |files[1].sink.target| == BytesWritten(shares) == 11
  {
    var first := Compressed();
    var second := Compressed();
    files := [first, second];
    var hundred: nat -> nat := k => 100;
    var kept;
    assert PumpPlan(Held(first), 8, 8, hundred, CorruptFirst(0)) == Spending(3, 0, true) by {
      Yields(0, hundred);
    }
    assert PumpPlan(Held(second), 8, 8, hundred, CorruptFirst(1)) == Spending(8, 1, false) by {
      Yields(1, hundred);
    }
    hide IncomingFile.Valid, Spend, Poured, Books, BytesWritten, Wasted, CorruptFirst, Held, PumpPlan, TickTotal;
    wireLeft, decodedLeft, kept, shares :=
      PumpIncomingFiles(files, 8, 8, i => hundred, CorruptFirst, [Held(first), Held(second)]);
    TwoShares(shares, wireLeft, decodedLeft);
    assert files[0] == first && files[1] == second;
  }

  lemma {:induction false} WrittenByTwo(a: Share, b: Share)
    ensures BytesWritten([a, b]) == a.written + b.written
  {
    assert [a, b][..1] == [a];
    assert BytesWritten([a]) == BytesWritten([a][..0]) + a.written;
  }

  lemma {:induction false} TwoShares(shares: seq<Share>, wireLeft: nat, decodedLeft: nat)
    requires Books(shares, 8, 8, wireLeft, decodedLeft)
    requires |shares| <= 2 && (|shares| < 2 ==> wireLeft == 0 || decodedLeft == 0)
    requires |shares| > 0 && shares[0].wire == 8 && shares[0].decoded == 8 ==>
               Planned(shares[0]) == Spending(3, 0, true)
    requires |shares| > 1 && shares[1].wire == 8 && shares[1].decoded == 8 ==>
               Planned(shares[1]) == Spending(8, 1, false)
    ensures |shares| == 2 && shares[0].written == 3 && shares[1].written == 8 && BytesWritten(shares) == 11
  {
    if |shares| == 2 {
      WrittenByTwo(shares[0], shares[1]);
      assert shares == [shares[0], shares[1]];
    }
    hide BytesWritten, Wasted, Consumed;
    assert |shares| > 1 ==> Follows(shares, 0);
  }
}
