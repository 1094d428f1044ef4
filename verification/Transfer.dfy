/** Sender and receiver together: the server relays chunk boundaries one to one and in order. */
module Transfer {
  import opened Arithmetic
  import opened Padme
  import opened Wire
  import opened Throttle
  import opened Upload
  import opened Download

  /** The most wire bytes a transfer of `size` may take. */
  function MaxFileWireBytes(encoding: Encoding, sealed: bool, size: nat): nat {
    if sealed then
      var stream := ZstdBound(size) + ZstdBound(size) / 8;
      var chunks := stream / MAX_FRAME_PAYLOAD + 2;
      stream + chunks * FILE_CHUNK_OVERHEAD
    else if encoding == Identity then size
    else ZstdBound(size)
  }

  function ZstdBound(size: nat): nat {
    size + size / 128 + 64 * 1024
  }

  /** The bound a receiver sets itself, from the size it was told. */
  function WireLimit(encoding: Encoding, sealed: bool, size: nat): nat {
    MaxFileWireBytes(encoding, sealed, Advertised(size, sealed))
  }

  /** Both ends agree on what the transfer is, and the receiver has been relayed the first `k` chunks. */
  ghost predicate Relayed(upload: OutgoingUpload, incoming: IncomingFile, k: nat)
    reads upload, incoming
  {
    && incoming.size == upload.size && incoming.encoding == upload.encoding
    && incoming.seal.Some? == upload.seal.Some?
    && incoming.WireBound() == WireLimit(upload.encoding, upload.seal.Some?, upload.size)
    && k <= |upload.log| && incoming.log == upload.log[..k]
  }

  /**
   * The bound in numbers: the size itself for plain bytes, a 128th and 64 KiB more for a compressed stream, and for a
   * sealed one what such a stream of the size class may come to, an eighth more, in frames of 20 bytes each.
   */
  lemma {:induction false} BoundIs(upload: OutgoingUpload, incoming: IncomingFile, k: nat)
    requires Relayed(upload, incoming, k)
    ensures upload.seal.None? && upload.encoding == Identity ==> incoming.WireBound() == upload.size
    ensures upload.seal.None? && upload.encoding == Zstd ==>
              incoming.WireBound() == upload.size + upload.size / 128 + 65_536
    ensures upload.seal.Some? ==>
              var stream := PadmeLen(upload.size) + PadmeLen(upload.size) / 128 + 65_536;
              incoming.WireBound() == stream + stream / 8 + ((stream + stream / 8) / 196_588 + 2) * 20
  {
    hide PadmeLen;
  }

  /** The receiver is always in step: offset and counter of the next chunk are the ones it waits for. */
  lemma {:induction false} NextChunkMatches(upload: OutgoingUpload, incoming: IncomingFile, k: nat)
    requires upload.Valid() && incoming.Valid() && Relayed(upload, incoming, k) && k < |upload.log|
    ensures var next := upload.log[k];
            && incoming.wireReceived == next.offset
            && (incoming.seal.Some? ==> next.packet.Frame? && next.packet.counter == incoming.seal.value.counter)
            && (incoming.Accepts(next) <==> WireTotal(upload.log[..k + 1]) <= incoming.WireBound())
            && upload.log[..k] + [next] == upload.log[..k + 1]
  {
    hide InOrder, WireTotal, Payloads;
    ChunkAt(upload.log, upload.seal.Some?, k);
    LogAppend(upload.log[..k], upload.log[k]);
    assert upload.log[..k] + [upload.log[k]] == upload.log[..k + 1];
  }

  /** A plain identity transfer never outgrows its bound, so every relayed chunk is accepted. */
  lemma {:induction false} PlainIsAccepted(upload: OutgoingUpload, incoming: IncomingFile, k: nat)
    requires upload.Valid() && incoming.Valid() && Relayed(upload, incoming, k) && k < |upload.log|
    requires upload.encoding == Identity && upload.seal.None?
    ensures incoming.Accepts(upload.log[k])
  {
    hide InOrder, WireTotal, Payloads;
    NextChunkMatches(upload, incoming, k);
    LogPrefix(upload.log, k + 1);
    WireBudget(upload.log, false);
  }

  // --- Sealed transfers ------------------------------------------------------------------------

  /** The most frames a sealed identity upload can take: one to a byte, and those that only pad. */
  function MostFrames(size: nat): nat {
    size + PadFrames(PadmeLen(size) - size)
  }

  /** The most wire bytes it can take. */
  function MostWireBytes(size: nat): nat {
    PadmeLen(size) + FILE_CHUNK_OVERHEAD * MostFrames(size)
  }

  /** Whether the receiver's bound holds even that; it depends on the size alone. */
  predicate AlwaysFits(size: nat) {
    MostWireBytes(size) <= WireLimit(Identity, true, size)
  }

  /** Up to a size every schedule fits, and from just above it on not every schedule does. */
  lemma {:induction false} FitsUpTo(size: nat)
    ensures size <= 3680 ==> AlwaysFits(size)
    ensures size >= 3720 ==> !AlwaysFits(size)
  {
    hide PadmeLen;
    PadmeBound(size);
  }

  /** No schedule makes a sealed identity upload take more. */
  lemma {:induction false} SealedWithin(upload: OutgoingUpload)
    requires upload.Valid() && upload.encoding == Identity && upload.seal.Some?
    ensures WireTotal(upload.log) <= MostWireBytes(upload.size)
  {
    hide InOrder, WireTotal, Payloads, PadTotal, Fillers, PadmeLen, PadFrames;
    WireBudget(upload.log, true);
    CarriersBound(upload.log);
    if upload.seal.value.padRemaining.Some? {
      assert Payloads(upload.log) + [] == Payloads(upload.log);
      PadFramesMonotone(PadTotal(upload.log), PadmeLen(upload.size) - upload.size);
    }
  }

  /** One that sent a byte to a frame takes exactly that. */
  lemma {:induction false} CrumbledTotal(upload: OutgoingUpload)
    requires upload.Valid() && upload.Done() && upload.encoding == Identity && upload.seal.Some? && Crumbled(upload.log)
    ensures WireTotal(upload.log) == MostWireBytes(upload.size)
  {
    hide InOrder, WireTotal, Payloads, PadTotal, Fillers, PadmeLen, PadFrames;
    NoPadding();
    WireBudget(upload.log, true);
    CarriersBound(upload.log);
    assert Payloads(upload.log) + [] == Payloads(upload.log);
  }

  lemma {:induction false} NoPadding()
    ensures PadFrames(0) == 0
  {
  }

  /**
   * What one schedule comes to: each frame costs the overhead, however little it carries, so the upload is accepted to
   * its end exactly when that total is. With about two and a half thousand bytes to a frame it is, whatever the size.
   */
  lemma {:induction false} FewFramesFit(upload: OutgoingUpload, k: nat)
    requires upload.Valid() && upload.Done() && upload.seal.Some? && k <= |upload.log|
    ensures WireTotal(upload.log) == PadmeLen(|Payloads(upload.log)|) + FILE_CHUNK_OVERHEAD * |upload.log|
    ensures WireTotal(upload.log[..k]) <= WireTotal(upload.log)
    ensures upload.encoding == Identity && FILE_CHUNK_OVERHEAD * |upload.log| <= upload.size / 128 + 64 * 1024 ==>
              WireTotal(upload.log) <= WireLimit(Identity, true, upload.size)
  {
    hide InOrder, WireTotal, Payloads, PadmeLen;
    DoneSendsAll(upload);
    LogPrefix(upload.log, k);
    PadmeBound(upload.size);
  }

  /** A chunk that honest ends relay is accepted: always when plain, and under every schedule when that always fits. */
  lemma {:induction false} HonestIsAccepted(upload: OutgoingUpload, incoming: IncomingFile, k: nat)
    requires upload.Valid() && incoming.Valid() && Relayed(upload, incoming, k) && k < |upload.log|
    requires upload.encoding == Identity && (upload.seal.None? || AlwaysFits(upload.size))
    ensures incoming.Accepts(upload.log[k])
  {
    hide OutgoingUpload.Valid, IncomingFile.Valid, WireTotal, MostWireBytes, MaxFileWireBytes, IncomingFile.Accepts;
    if upload.seal.None? {
      PlainIsAccepted(upload, incoming, k);
    } else {
      NextChunkMatches(upload, incoming, k);
      LogPrefix(upload.log, k + 1);
      SealedWithin(upload);
    }
  }

  /** Relaying the next chunk keeps both ends in step, whether it is accepted or not. */
  method Relay(chunk: Chunk, incoming: IncomingFile, ghost upload: OutgoingUpload, ghost k: nat)
    returns (accepted: bool)
    requires upload.Valid() && incoming.Valid() && Relayed(upload, incoming, k)
    requires k < |upload.log| && chunk == upload.log[k]
    modifies incoming`pendingWire, incoming`pendingOffset, incoming`wireReceived, incoming`seal, incoming`log
    ensures incoming.Valid() && upload.Valid()
    ensures accepted <==> WireTotal(upload.log[..k + 1]) <= incoming.WireBound()
    ensures accepted ==> Relayed(upload, incoming, k + 1)
    ensures !accepted ==> Relayed(upload, incoming, k)
    ensures upload.encoding == Identity && (upload.seal.None? || AlwaysFits(upload.size)) ==> accepted
  {
    hide InOrder, WireTotal, Payloads, MaxFileWireBytes, MostWireBytes, OutgoingUpload.Valid, IncomingFile.Valid, Raw,
         IncomingFile.Accepts;
    NextChunkMatches(upload, incoming, k);
    if upload.encoding == Identity && (upload.seal.None? || AlwaysFits(upload.size)) {
      HonestIsAccepted(upload, incoming, k);
    }
    TakenAsSent(upload, incoming, k);
    accepted := incoming.HandleChunk(chunk);
  }

  lemma {:induction false} TakenAsSent(upload: OutgoingUpload, incoming: IncomingFile, k: nat)
    requires upload.Valid() && k < |upload.log| && incoming.seal.Some? == upload.seal.Some?
    ensures incoming.Taken(upload.log[k]) == upload.log[k]
  {
    ChunkAt(upload.log, upload.seal.Some?, k);
  }

  /** At any moment the receiver has written a prefix of the source, and no more than was declared. */
  lemma {:induction false} WrittenIsPrefix(upload: OutgoingUpload, incoming: IncomingFile, k: nat)
    requires upload.Valid() && incoming.Valid() && Relayed(upload, incoming, k) && upload.encoding == Identity
    ensures incoming.sink.target <= upload.content && |incoming.sink.target| <= upload.size
  {
    hide InOrder, WireTotal, Payloads;
    LogPrefix(upload.log, k);
  }

  /** A finished upload has sent its whole stream and, sealed, exactly the padding of its size class. */
  lemma {:induction false} DoneSendsAll(upload: OutgoingUpload)
    requires upload.Valid() && upload.Done()
    ensures upload.encoding == Identity ==>
              upload.size <= |upload.content| && Payloads(upload.log) == upload.content[..upload.size]
    ensures upload.seal.Some? ==>
              WireTotal(upload.log) == PadmeLen(|Payloads(upload.log)|) + FILE_CHUNK_OVERHEAD * |upload.log|
    ensures upload.seal.None? ==> WireTotal(upload.log) == |Payloads(upload.log)|
  {
    hide InOrder, WireTotal, Payloads, PadTotal, PadmeLen;
    WireBudget(upload.log, upload.seal.Some?);
    assert Payloads(upload.log) + [] == Payloads(upload.log);
  }

  /** A transfer that finishes has written exactly the source bytes. */
  lemma {:induction false} FinishedIsExact(upload: OutgoingUpload, incoming: IncomingFile)
    requires upload.Valid() && upload.Done() && upload.encoding == Identity
    requires incoming.Valid() && Relayed(upload, incoming, |upload.log|)
    requires incoming.decoderFinished && incoming.Unread() == []
    ensures incoming.sink.target == upload.content[..upload.size]
    ensures |upload.content| == upload.size ==> incoming.sink.target == upload.content
  {
    hide InOrder, WireTotal, Payloads;
    DoneSendsAll(upload);
    assert upload.log[..|upload.log|] == upload.log;
    assert incoming.sink.target + [] == incoming.sink.target;
  }

  /** A receiver that was relayed everything and told so is one its pump never fails. */
  lemma {:induction false} RelayedIsHonest(upload: OutgoingUpload, incoming: IncomingFile)
    requires upload.Valid() && upload.Done() && upload.encoding == Identity
    requires incoming.Valid() && Relayed(upload, incoming, |upload.log|)
    requires incoming.decoderFinished ==> incoming.Unread() == []
    ensures incoming.Honest()
  {
    hide InOrder, WireTotal, Payloads;
    DoneSendsAll(upload);
    assert upload.log[..|upload.log|] == upload.log;
  }

  // --- Whole runs ------------------------------------------------------------------------------

  /** What may happen next, with everything the outside decides about it. */
  datatype Move =
    | Announcing
    | Refilling(elapsed: real)
    | Repacing(rate: nat)
    | Polling(sourceBudget: nat, authenticated: bool, granted: nat, emitted: seq<Byte>)
    | Relaying
    | Pumping(wireBudget: nat, decodedBudget: nat, grants: nat -> nat, decodings: nat -> Decoding)

  /** The receiver's disk takes something whenever it is given something. */
  ghost predicate Generous(move: Move) {
    move.Pumping? ==> forall k :: move.grants(k) > 0
  }

  lemma {:induction false} LogGrows(log: seq<Chunk>, chunk: Chunk, k: nat)
    requires k <= |log|
    ensures (log + [chunk])[..k] == log[..k] && (log + [chunk])[k..] == log[k..] + [chunk]
    ensures (log[k..] + [chunk])[|log[k..]|..] == [chunk]
  {
  }

  lemma {:induction false} StartsEmpty(upload: OutgoingUpload)
    requires upload.Valid()
    ensures !upload.started ==> upload.log == []
  {
  }

  /** What has arrived never exceeds what was declared. */
  lemma {:induction false} StaysHonest(upload: OutgoingUpload, k: nat)
    requires upload.Valid() && k <= |upload.log|
    ensures upload.encoding == Identity ==> |Payloads(upload.log[..k])| <= upload.size
  {
    hide InOrder, WireTotal, Payloads;
    LogPrefix(upload.log, k);
  }

  // --- What the server hears --------------------------------------------------------------------

  /** How a transfer has to open: a sealed one gives away its size class and nothing else. */
  ghost function Greeting(upload: OutgoingUpload): Control
    reads upload`seal
  {
    if upload.seal.Some? then Start("sealed.bin", PadmeLen(upload.size), Sealed)
    else Start(upload.name, upload.size, Open(upload.encoding))
  }

  ghost function DataOf(log: seq<Chunk>): (controls: seq<Control>)
    ensures |controls| == |log| && forall i :: 0 <= i < |log| ==> controls[i] == Data(log[i])
  {
    if log == [] then [] else DataOf(log[..|log| - 1]) + [Data(log[|log| - 1])]
  }

  /** Nothing before the start, then the start, every chunk in order, and one ending. */
  ghost predicate Heard(controls: seq<Control>, greeting: Control, started: bool, log: seq<Chunk>, completed: bool,
                        canceled: bool) {
    var head := if started then [greeting] else [];
    if completed then controls == head + DataOf(log) + [Complete]
    else if canceled then exists reason :: controls == head + DataOf(log) + [Cancel(reason)]
    else controls == head + DataOf(log)
  }

  lemma {:induction false} DataPush(log: seq<Chunk>, chunk: Chunk)
    ensures DataOf(log + [chunk]) == DataOf(log) + [Data(chunk)]
  {
    hide DataOf;
  }

  /** One control more, as the outcome of the poll that sent it calls for. */
  lemma {:induction false} HeardNext(upload: OutgoingUpload, controls: seq<Control>, started: bool, log: seq<Chunk>,
                                     outcome: Outcome, sent: Option<Control>, authenticated: bool)
    requires Heard(controls, Greeting(upload), started, log, false, false) && (!started ==> log == [])
    requires upload.Tells(outcome, sent, started, authenticated)
    ensures var more := controls + if sent.Some? then [sent.value] else [];
            var longer := if sent.Some? && sent.value.Data? then log + [sent.value.chunk] else log;
            Heard(more, Greeting(upload), started || outcome.Progress?, longer, outcome.Completed?, outcome.Canceled?)
    ensures outcome.Completed? ==> sent == Some(Complete)
  {
    hide DataOf, PadmeLen;
    if sent.Some? && sent.value.Data? {
      DataPush(log, sent.value.chunk);
    }
    assert log == [] ==> DataOf(log) == [];
  }

  /** Two sealed transfers of one size class look the same to the server until the first chunk, whatever they hold. */
  lemma {:induction false} SealedOpensAlike(a: OutgoingUpload, b: OutgoingUpload)
    requires a.seal.Some? && b.seal.Some? && PadmeLen(a.size) == PadmeLen(b.size)
    ensures Greeting(a) == Greeting(b)
  {
  }

  /** A sender, a receiver and the chunks between them. */
  class Session {
    const upload: OutgoingUpload
    const incoming: IncomingFile
    const throttle: UploadThrottle
    var queue: seq<Chunk>
    var completed: bool
    var canceled: bool
    var failed: bool
    /** How many chunks have arrived. */
    ghost var k: nat
    /** Everything the sender has told the server. */
    ghost var controls: seq<Control>
    /** Every move made. */
    ghost var trail: seq<Move>

    ghost predicate Valid()
      reads this, upload, upload.pending, incoming, incoming.sink, throttle
    {
      && throttle.Paced() && upload.Valid() && incoming.Valid() && Relayed(upload, incoming, k)
      && queue == upload.log[k..]
      && (completed ==> upload.Done())
      && (incoming.completeReceived ==> completed && queue == [])
      && (upload.encoding == Identity ==> incoming.Honest())
      && Heard(controls, Greeting(upload), upload.started, upload.log, completed, canceled)
    }

    constructor (upload: OutgoingUpload, incoming: IncomingFile, throttle: UploadThrottle)
      requires throttle.Paced() && upload.Valid() && incoming.Valid() && Relayed(upload, incoming, 0)
      requires upload.log == []
      requires !incoming.completeReceived && !incoming.decoderFinished
      ensures Valid() && this.upload == upload && this.incoming == incoming && this.throttle == throttle
      ensures queue == [] && !completed && !canceled && !failed && k == 0 && (!upload.started ==> controls == [])
    {
      this.upload, this.incoming, this.throttle := upload, incoming, throttle;
      queue, completed, canceled, failed, k, trail := [], false, false, false, 0, [];
      controls := if upload.started then [Greeting(upload)] else [];
      new;
      assert Payloads([]) == [];
    }

    /** The transfer is one that every schedule gets through. */
    ghost predicate Unfailing()
      reads upload
    {
      upload.encoding == Identity && (upload.seal.None? || AlwaysFits(upload.size))
    }

    /** What has been written is a prefix of the source, and all of it once that is ready. */
    lemma {:induction false} Safe()
      requires Valid()
      ensures |incoming.sink.target| <= upload.size
      ensures upload.encoding == Identity ==> incoming.sink.target <= upload.content
      ensures upload.encoding == Identity && incoming.ReadyToFinalize() ==>
                upload.size <= |upload.content| && incoming.sink.target == upload.content[..upload.size]
    {
      hide OutgoingUpload.Valid, MaxFileWireBytes, OutgoingUpload.Done, IncomingFile.Honest;
      if upload.encoding == Identity {
        WrittenIsPrefix(upload, incoming, k);
        if incoming.ReadyToFinalize() {
          assert k == |upload.log|;
          DoneSendsAll(upload);
          FinishedIsExact(upload, incoming);
        }
      }
    }

    method Announce()
      requires Valid()
      modifies upload`seal
      ensures Valid() && upload.seal.Some? == old(upload.seal).Some? && !upload.Unannounced()
      ensures upload.Weight() == old(upload.Weight())
    {
      hide OutgoingUpload.Valid, IncomingFile.Valid, MaxFileWireBytes, IncomingFile.Honest;
      upload.Announce();
    }

    /** Time passes. */
    method Wait(elapsed: real)
      requires Valid() && elapsed >= 0.0
      modifies throttle
      ensures Valid() && throttle.rate == old(throttle.rate) && throttle.tokens >= old(throttle.tokens)
      ensures throttle.rate > 0 ==>
                throttle.tokens == Min(old(throttle.tokens) + (elapsed * throttle.rate as real).Floor, throttle.rate)
    {
      hide OutgoingUpload.Valid, IncomingFile.Valid, MaxFileWireBytes, IncomingFile.Honest, OutgoingUpload.Done;
      throttle.Refill(throttle.last + elapsed);
    }

    method Repace(rate: nat)
      requires Valid()
      modifies throttle
      ensures Valid() && throttle.rate == rate && throttle.tokens == Min(old(throttle.tokens), rate)
    {
      hide OutgoingUpload.Valid, IncomingFile.Valid, MaxFileWireBytes, IncomingFile.Honest, OutgoingUpload.Done;
      throttle.SetRate(rate);
    }

    /** The sender makes a step and what it sends joins the queue. */
    method Poll(sourceBudget: nat, authenticated: bool, granted: nat, emitted: seq<Byte>) returns (outcome: Outcome)
      requires Valid() && !completed && !canceled
      modifies this`queue, this`completed, this`canceled, this`controls, upload, upload.pending, throttle`tokens,
               throttle`spent
      ensures Valid() && completed == outcome.Completed? && canceled == outcome.Canceled?
      ensures upload.seal.Some? == old(upload.seal).Some?
      ensures upload.encoding == Identity && outcome.Progress? ==> upload.Weight() < old(upload.Weight())
      ensures outcome.Canceled? && authenticated && granted > 0 ==>
                upload.sourceOffset == |upload.content| < upload.size
      ensures sourceBudget > 0 ==> (outcome.Blocked? <==> old(upload.Stuck(throttle)))
      ensures old(queue) <= queue && |queue| <= |old(queue)| + 1 && (completed ==> queue == old(queue))
      ensures upload.log == old(upload.log) + queue[|old(queue)|..]
      ensures |queue| > |old(queue)| ==> |queue[|old(queue)|].packet.data| <= old(throttle.Budget())
    {
      hide OutgoingUpload.Valid, IncomingFile.Valid, MaxFileWireBytes, OutgoingUpload.Done, OutgoingUpload.Stuck,
           OutgoingUpload.RankOf, Less, UploadThrottle.Paced, IncomingFile.Honest, Heard, PadmeLen, WireLimit,
           OutgoingUpload.Tells, OutgoingUpload.Reads, OutgoingUpload.Weight;
      ghost var was := upload.log;
      StartsEmpty(upload);
      var sent, left;
      outcome, sent, left := upload.Poll(throttle, sourceBudget, authenticated, granted, emitted);
      HeardNext(upload, controls, old(upload.started), was, outcome, sent, authenticated);
      if sent.Some? && sent.value.Data? {
        LogGrows(was, sent.value.chunk, k);
      }
      Note(outcome, sent, was);
    }

    /** Takes down what a poll came to. */
    method Note(outcome: Outcome, sent: Option<Control>, ghost was: seq<Chunk>)
      requires throttle.Paced() && upload.Valid() && incoming.Valid() && k <= |was| && queue == was[k..]
      requires upload.log == if sent.Some? && sent.value.Data? then was + [sent.value.chunk] else was
      requires incoming.log == was[..k] && Relayed(upload, incoming, k)
      requires outcome.Completed? ==> upload.Done() && sent == Some(Complete)
      requires !incoming.completeReceived && (upload.encoding == Identity ==> incoming.Honest())
      requires Heard(controls + if sent.Some? then [sent.value] else [], Greeting(upload), upload.started, upload.log,
                     outcome.Completed?, outcome.Canceled?)
      modifies this`queue, this`completed, this`canceled, this`controls
      ensures Valid() && completed == outcome.Completed? && canceled == outcome.Canceled?
      ensures queue == if sent.Some? && sent.value.Data? then old(queue) + [sent.value.chunk] else old(queue)
    {
      hide OutgoingUpload.Valid, IncomingFile.Valid, MaxFileWireBytes, OutgoingUpload.Done, UploadThrottle.Paced,
           IncomingFile.Honest, Heard, Greeting, WireLimit;
      completed, canceled := outcome.Completed?, outcome.Canceled?;
      controls := controls + if sent.Some? then [sent.value] else [];
      if sent.Some? && sent.value.Data? {
        LogGrows(was, sent.value.chunk, k);
        queue := queue + [sent.value.chunk];
      }
    }

    /** The next chunk arrives, or the word that there is none left. */
    method Deliver()
      requires Valid() && !failed
      modifies this`queue, this`failed, this`k, incoming
      ensures Valid()
      ensures failed <==> old(queue) != [] && WireTotal(upload.log[..old(k) + 1]) > incoming.WireBound()
      ensures !failed && old(queue) != [] ==> queue == old(queue)[1..] && k == old(k) + 1
      ensures old(queue) == [] || failed ==> queue == old(queue) && k == old(k)
      ensures incoming.completeReceived <==> old(incoming.completeReceived) || (old(queue) == [] && completed)
      ensures Unfailing() ==> !failed
    {
      hide OutgoingUpload.Valid, MaxFileWireBytes, OutgoingUpload.Done, Payloads, WireTotal, InOrder, Heard, Greeting;
      if queue == [] {
        if completed {
          DoneSendsAll(upload);
          assert k == |upload.log| && upload.log[..k] == upload.log;
          incoming.HandleComplete();
        }
        return;
      }
      assert queue[0] == upload.log[k];
      StaysHonest(upload, k + 1);
      var accepted := Relay(queue[0], incoming, upload, k);
      if accepted {
        queue, k := queue[1..], k + 1;
      } else {
        failed := true;
      }
    }

    /** The receiver wrote as much as was planned; it fails if the pump breaks off or ends at another size. */
    twostate predicate Pumped(new plan: Spending)
      reads this`failed, incoming, incoming.sink
    {
      && old(incoming.sink.target) <= incoming.sink.target
      && |incoming.sink.target| == |old(incoming.sink.target)| + plan.written
      && (failed <==> old(failed) || plan.broke
                      || (incoming.decoderFinished && |incoming.sink.target| != incoming.size))
    }

    /** Budgets for more than all that is unread empty the receiver, and close it if no more is to come. */
    twostate predicate Drains(budget: nat)
      requires old(incoming.Valid()) && incoming.Valid()
      reads incoming, incoming.sink
    {
      old(incoming.Honest()) && |old(incoming.Unread())| < budget ==>
        incoming.Unread() == [] && (incoming.completeReceived ==> incoming.decoderFinished)
    }

    /** The receiver writes out what it has. */
    method Pump(wireBudget: nat, decodedBudget: nat, grants: nat -> nat, decodings: nat -> Decoding)
      requires Valid()
      modifies this`failed, incoming`pendingWire, incoming`pendingOffset, incoming`decoderFinished, incoming.sink
      ensures Valid() && Pumped(old(incoming.Planned(wireBudget, decodedBudget, grants, decodings)))
      ensures upload.encoding == Identity && (forall i :: grants(i) > 0) ==> failed == old(failed)
      ensures (forall i :: grants(i) > 0) ==> Drains(Min(wireBudget, decodedBudget))
    {
      hide OutgoingUpload.Valid, MaxFileWireBytes, OutgoingUpload.Done, Payloads, WireTotal, InOrder,
           IncomingFile.Valid, Heard, Greeting;
      var result, wireLeft, decodedLeft := incoming.Pump(wireBudget, decodedBudget, grants, decodings);
      if !result.Fine? {
        failed := true;
      }
    }

    // --- Schedules -------------------------------------------------------------------------------

    twostate predicate Undisturbed()
      reads this`queue, this`completed, this`canceled, this`failed, this`k, this`controls
    {
      && queue == old(queue) && completed == old(completed) && canceled == old(canceled) && failed == old(failed)
      && k == old(k) && controls == old(controls)
    }

    twostate predicate Weighs()
      requires old(upload.Valid()) && upload.Valid()
      reads upload, upload.pending
    {
      upload.Weight() == old(upload.Weight())
    }

    /** What a poll leads to. */
    twostate predicate Advanced(sourceBudget: nat, authenticated: bool, granted: nat)
      requires old(upload.Valid()) && upload.Valid()
      reads this`queue, this`completed, this`canceled, this`failed, this`k, this`controls,
            upload, upload.pending, incoming, incoming.sink, throttle
    {
      && unchanged(incoming) && unchanged(incoming.sink) && failed == old(failed)
      && throttle.rate == old(throttle.rate) && (completed ==> queue == old(queue))
      && old(queue) <= queue && |queue| <= |old(queue)| + 1 && upload.log == old(upload.log) + queue[|old(queue)|..]
      && (|queue| > |old(queue)| ==> |queue[|old(queue)|].packet.data| <= old(throttle.Budget()))
      && (!old(canceled) && canceled && authenticated && granted > 0 ==> |upload.content| < upload.size)
      && (upload.encoding == Identity && sourceBudget > 0 && !completed && !canceled
          && !old(upload.Stuck(throttle)) ==>
            upload.Weight() < old(upload.Weight()))
    }

    /** What a move leads to. */
    twostate predicate Made(move: Move)
      requires old(upload.Valid()) && upload.Valid() && old(incoming.Valid()) && incoming.Valid()
      reads this`queue, this`completed, this`canceled, this`failed, this`k, this`controls,
            upload, upload.pending, incoming, incoming.sink, throttle
    {
      match move
      case Announcing =>
        && Undisturbed() && unchanged(incoming) && unchanged(incoming.sink) && unchanged(throttle)
        && upload.log == old(upload.log)
        && !upload.Unannounced() && Weighs()
      case Refilling(elapsed) =>
        && Undisturbed() && unchanged(incoming) && unchanged(incoming.sink) && unchanged(upload)
        && unchanged(upload.pending) && throttle.rate == old(throttle.rate)
        && (elapsed >= 0.0 && throttle.rate > 0 ==>
              throttle.tokens == Min(old(throttle.tokens) + (elapsed * throttle.rate as real).Floor, throttle.rate))
      case Repacing(rate) =>
        && Undisturbed() && unchanged(incoming) && unchanged(incoming.sink) && unchanged(upload)
        && unchanged(upload.pending) && throttle.rate == rate && throttle.tokens == Min(old(throttle.tokens), rate)
      case Polling(sourceBudget, authenticated, granted, _) => Advanced(sourceBudget, authenticated, granted)
      case Relaying =>
        && unchanged(upload) && unchanged(upload.pending) && unchanged(throttle) && unchanged(incoming.sink)
        && completed == old(completed) && canceled == old(canceled)
        && (failed ==> old(queue) != []) && (!failed && old(queue) != [] ==> queue == old(queue)[1..])
        && (old(queue) == [] ==> queue == [])
        && (incoming.completeReceived <==> old(incoming.completeReceived) || (old(queue) == [] && completed))
      case Pumping(wireBudget, decodedBudget, grants, decodings) =>
        && unchanged(upload) && unchanged(upload.pending) && unchanged(throttle)
        && queue == old(queue) && completed == old(completed) && canceled == old(canceled) && k == old(k)
        && incoming.completeReceived == old(incoming.completeReceived)
        && Pumped(old(incoming.Planned(wireBudget, decodedBudget, grants, decodings)))
        && ((forall i :: grants(i) > 0) ==> Drains(Min(wireBudget, decodedBudget)))
    }

    method Make(move: Move)
      requires Valid() && !failed
      modifies this`queue, this`completed, this`canceled, this`failed, this`k, this`controls,
               upload, upload.pending, incoming, incoming.sink, throttle
      ensures Valid() && upload.seal.Some? == old(upload.seal).Some?
      ensures Unfailing() && Generous(move) ==> !failed
      ensures Made(move) && trail == old(trail)
    {
      hide OutgoingUpload.Valid, IncomingFile.Valid, AlwaysFits, OutgoingUpload.RankOf, Less, OutgoingUpload.Weight,
           OutgoingUpload.Stuck, WireTotal, Relayed, IncomingFile.Honest, OutgoingUpload.Done, UploadThrottle.Paced,
           Heard, Greeting, Drains, Pumped;
      match move {
        case Announcing =>
          Announce();
        case Refilling(elapsed) =>
          if elapsed >= 0.0 {
            Wait(elapsed);
          }
        case Repacing(rate) =>
          Repace(rate);
        case Polling(sourceBudget, authenticated, granted, emitted) =>
          if !completed && !canceled {
            var _ := Poll(sourceBudget, authenticated, granted, emitted);
          }
        case Relaying =>
          Deliver();
        case Pumping(wireBudget, decodedBudget, grants, decodings) =>
          Pump(wireBudget, decodedBudget, grants, decodings);
      }
    }

    /** Makes one move. */
    method Do(move: Move)
      requires Valid() && !failed
      modifies this, upload, upload.pending, incoming, incoming.sink, throttle
      ensures Valid() && upload.seal.Some? == old(upload.seal).Some?
      ensures Unfailing() && Generous(move) ==> !failed
      ensures Made(move) && trail == old(trail) + [move]
    {
      hide Made, OutgoingUpload.Valid, IncomingFile.Valid, AlwaysFits, WireTotal, Relayed, IncomingFile.Honest,
           OutgoingUpload.Done, UploadThrottle.Paced, Heard, Greeting;
      Make(move);
      trail := trail + [move];
    }

    /**
     * Any schedule of polls, refills, new rates, relayed chunks and pumps. While it lasts the receiver has a prefix
     * of the source; once it has finished it has exactly the source; and a plain identity transfer never fails at
     * the receiving end unless its own disk does, nor a sealed one of a size that always fits.
     */
    method Run(moves: seq<Move>)
      requires Valid() && !failed
      modifies this, upload, upload.pending, incoming, incoming.sink, throttle
      ensures Valid() && |incoming.sink.target| <= upload.size
      ensures upload.encoding == Identity ==> incoming.sink.target <= upload.content
      ensures upload.encoding == Identity && incoming.ReadyToFinalize() ==>
                upload.size <= |upload.content| && incoming.sink.target == upload.content[..upload.size]
      ensures upload.seal.Some? == old(upload.seal).Some?
      ensures trail <= old(trail) + moves && (!failed ==> trail == old(trail) + moves)
      ensures Unfailing() && (forall i :: 0 <= i < |moves| ==> Generous(moves[i])) ==> !failed
    {
      hide OutgoingUpload.Valid, IncomingFile.Valid, Session.Valid, AlwaysFits, Generous;
      var i := 0;
      while i < |moves| && !failed
        invariant i <= |moves| && Valid() && upload.seal.Some? == old(upload.seal).Some?
        invariant trail == old(trail) + moves[..i]
        invariant Unfailing() && (forall j :: 0 <= j < i ==> Generous(moves[j])) ==> !failed
      {
        Do(moves[i]);
        i := i + 1;
      }
      Safe();
    }

    /** The file is announced, a second passes and the sender makes a step: something is done, whatever the rate. */
    method Proceed()
      requires Valid() && Unfailing() && !failed && !completed && !canceled && upload.size <= |upload.content|
      modifies this, upload, upload.pending, incoming, incoming.sink, throttle
      ensures Valid() && Unfailing() && !failed && !canceled && old(trail) <= trail
      ensures completed || upload.Weight() < old(upload.Weight())
    {
      hide OutgoingUpload.Valid, IncomingFile.Valid, AlwaysFits, WireTotal, Relayed, OutgoingUpload.Done,
           OutgoingUpload.Weight, IncomingFile.Honest, Heard, Greeting, OutgoingUpload.ReadyNow;
      Do(Announcing);
      Do(Refilling(1.0));
      Do(Polling(1, true, 1, []));
    }

    /** What the sender has done arrives and is written out. */
    method HandOver()
      requires Valid() && Unfailing() && !failed && completed
      modifies this, upload, upload.pending, incoming, incoming.sink, throttle
      ensures Valid() && Unfailing() && !failed && old(trail) <= trail && incoming.ReadyToFinalize()
    {
      hide OutgoingUpload.Valid, AlwaysFits, WireTotal, Relayed, Heard, Greeting, InOrder, Payloads,
           OutgoingUpload.Done;
      while queue != []
        invariant Valid() && Unfailing() && !failed && completed && old(trail) <= trail
        decreases |queue|
      {
        Do(Relaying);
      }
      Do(Relaying);
      var budget := |incoming.Unread()| + 1;
      Do(Pumping(budget, budget, i => 1, i => Decoding([], false, 0)));
    }

    /**
     * From wherever any schedule has brought it, a transfer that none makes fail can be brought to its end: the
     * receiver then has the whole source. So such a transfer is never stuck for good.
     */
    method BringHome()
      requires Valid() && Unfailing() && !failed && !canceled && upload.size <= |upload.content|
      modifies this, upload, upload.pending, incoming, incoming.sink, throttle
      ensures Valid() && !failed && old(trail) <= trail
      ensures incoming.ReadyToFinalize() && incoming.sink.target == upload.content[..upload.size]
    {
      hide OutgoingUpload.SourceReady, OutgoingUpload.Streaming, OutgoingUpload.Padding, AlwaysFits, WireTotal, Relayed,
           OutgoingUpload.Weight, IncomingFile.Honest, Heard, Greeting, InOrder, Payloads;
      while !completed
        invariant Valid() && Unfailing() && !failed && !canceled && old(trail) <= trail
        decreases if completed then 0 else upload.Weight() + 1
      {
        Proceed();
      }
      HandOver();
      Safe();
    }

    /** A sealed identity upload of which every frame so far carried at most a byte, and has arrived. */
    ghost predicate Crumbling()
      reads this, upload, throttle
    {
      && upload.encoding == Identity && upload.seal.Some? && upload.size <= |upload.content| && throttle.rate == 1
      && !failed && !completed && !canceled && queue == [] && Crumbled(upload.log)
    }

    /** If such an upload is accepted to its end, its size is one that always fits. */
    lemma {:induction false} CrumbledFits()
      requires Valid() && upload.encoding == Identity && upload.seal.Some?
      requires upload.Done() && queue == [] && Crumbled(upload.log)
      ensures AlwaysFits(upload.size)
    {
      hide OutgoingUpload.Valid, OutgoingUpload.Done, InOrder, WireTotal, Payloads, MaxFileWireBytes, MostWireBytes,
           IncomingFile.Honest;
      assert upload.log[..k] == upload.log;
      CrumbledTotal(upload);
    }

    /** The file is announced, a second passes, the sender makes a step, and what it sent arrives. */
    method Crumb()
      requires Valid() && Crumbling() && !AlwaysFits(upload.size)
      modifies this, upload, upload.pending, incoming, incoming.sink, throttle
      ensures Valid() && (failed || (Crumbling() && upload.Weight() < old(upload.Weight())))
    {
      hide OutgoingUpload.Valid, IncomingFile.Valid, AlwaysFits, WireTotal, Relayed, OutgoingUpload.Done,
           OutgoingUpload.Weight, IncomingFile.Honest, Heard, Greeting, Drains, Pumped, OutgoingUpload.ReadyNow;
      Do(Announcing);
      Do(Refilling(1.0));
      Do(Polling(1, true, 1, []));
      if completed {
        CrumbledFits();
        assert false;
      } else {
        Do(Relaying);
      }
    }

    /**
     * And that is exact: a sealed identity transfer of any other size is turned away under the schedule that lets
     * one byte through at a time, although the sender is honest and the receiver keeps up.
     */
    method Crumble()
      requires Valid() && Crumbling() && !AlwaysFits(upload.size)
      modifies this, upload, upload.pending, incoming, incoming.sink, throttle
      ensures Valid() && failed
    {
      hide OutgoingUpload.SourceReady, OutgoingUpload.Streaming, OutgoingUpload.Padding, IncomingFile.Valid, AlwaysFits,
           OutgoingUpload.Weight, Crumbling, Relayed, IncomingFile.Honest, Heard, Greeting;
      ghost var weight := upload.Weight();
      while !failed
        invariant Valid() && (!failed ==> Crumbling() && weight == upload.Weight())
        decreases weight, !failed
      {
        Crumb();
        weight := if failed then weight else upload.Weight();
      }
    }
  }
}
