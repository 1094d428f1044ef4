/** One outgoing file: the poll that turns source bytes into sealed, padded, paced chunks. */
module Upload {
  import opened Arithmetic
  import opened Wire
  import opened Padme
  import opened Throttle

  const MAX_QUEUED_FILE_BYTES: nat := 1024 * 1024
  const MAX_COMPRESSED_UPLOAD_SOURCE_AHEAD_BYTES: nat := 4 * 1024 * 1024

  const MAX_FRAME_PAYLOAD: nat := MAX_FILE_CHUNK_BYTES - FILE_CHUNK_OVERHEAD

  datatype Encoding = Identity | Zstd

  /** Sealing state of a direct-message upload; the pad owed is fixed once the stream has ended. */
  datatype Seal = Seal(announced: bool, counter: nat, streamLen: nat, padRemaining: Option<nat>)

  /** Where source bytes past the prefix come from. */
  datatype Origin = Memory | File(pos: nat)

  /** What the server is told of the encoding; of a sealed file only that it is one. */
  datatype Declared = Open(encoding: Encoding) | Sealed

  datatype Reason = NotAuthenticated | EndedEarly

  datatype Control =
    | Start(name: string, size: nat, encoding: Declared)
    | Data(chunk: Chunk)
    | Complete
    | Cancel(reason: Reason)

  datatype Outcome = Progress | Blocked | Canceled | Completed

  datatype Wake = Idle | Now | After(delay: real)

  /** What is left to do, most significant first. */
  datatype Rank = Rank(unstarted: nat, source: nat, unfinished: nat, flush: nat, pending: nat, pad: nat)

  ghost predicate Less(a: Rank, b: Rank) {
    || a.unstarted < b.unstarted
    || (a.unstarted == b.unstarted
        && (|| a.source < b.source
            || (a.source == b.source
                && (|| a.unfinished < b.unfinished
                    || (a.unfinished == b.unfinished
                        && (|| a.flush < b.flush
                            || (a.flush == b.flush
                                && (|| a.pending < b.pending
                                    || (a.pending == b.pending && a.pad < b.pad)))))))))
  }

  /** Payload bytes a control carries; padding is none. */
  function PayloadOf(sent: Option<Control>): nat {
    if sent.Some? && sent.value.Data? then |sent.value.chunk.packet.data| else 0
  }

  lemma {:induction false} SentOn(sent: seq<Byte>, data: seq<Byte>, left: seq<Byte>)
    ensures (sent + data) + left == sent + (data + left)
  {
  }

  lemma {:induction false} PrefixRest(prefix: seq<Byte>, start: nat, end: nat, content: seq<Byte>, at: nat)
    requires start <= end <= |prefix| && at + (|prefix| - start) <= |content|
    requires prefix[start..] == content[at..at + (|prefix| - start)]
    ensures prefix[start..end] == content[at..at + (end - start)]
    ensures prefix[end..] == content[at + (end - start)..at + (|prefix| - start)]
  {
    assert prefix[start..end] == prefix[start..][..end - start];
    assert prefix[end..] == prefix[start..][end - start..];
  }

  lemma {:induction false} LessSource(a: Rank, b: Rank)
    requires a.unstarted == b.unstarted && a.source < b.source
    ensures Less(a, b)
  {
  }

  lemma {:induction false} LessPending(a: Rank, b: Rank)
    requires a.unstarted == b.unstarted && a.source == b.source && a.unfinished == b.unfinished
    requires a.flush <= b.flush && a.pending < b.pending
    ensures Less(a, b)
  {
  }

  /** The size the server and the receiver are told: of a sealed file only its size class. */
  function Advertised(size: nat, sealed: bool): nat {
    if sealed then PadmeLen(size) else size
  }

  /** Padding frames it takes to send `pad` bytes, all but the last of them full. */
  function PadFrames(pad: nat): nat {
    (pad + MAX_FRAME_PAYLOAD - 1) / MAX_FRAME_PAYLOAD
  }

  lemma {:induction false} PadFramesMonotone(a: nat, b: nat)
    requires a <= b
    ensures PadFrames(a) <= PadFrames(b)
  {
  }

  /** What happens between two polls, and what the next one meets. */
  datatype Turn = Turn(elapsed: real, rate: Option<nat>, announced: bool, sourceBudget: nat, authenticated: bool,
                       granted: nat, emitted: seq<Byte>)

  class OutgoingUpload {
    const name: string
    const size: nat
    const encoding: Encoding
    /** What the source holds; it may have shrunk or grown since its size was taken. */
    const content: seq<Byte>
    var origin: Origin
    var prefix: seq<Byte>
    var prefixOffset: nat
    var seal: Option<Seal>
    const pending: PendingWire
    var sourceOffset: nat
    var sourceReadAhead: nat
    var wireOffset: nat
    var sourceFinished: bool
    var encoderFinished: bool
    var started: bool
    /** Everything the encoder has put out, and every chunk queued. */
    ghost var encoded: seq<Byte>
    ghost var log: seq<Chunk>

    /** The unread source starts at `at`: first what is left of the prefix, then the origin. */
    ghost predicate SourceReady(at: nat)
      reads this`prefix, this`prefixOffset, this`origin
    {
      && prefixOffset <= |prefix|
      && at + (|prefix| - prefixOffset) <= |content|
      && prefix[prefixOffset..] == content[at..at + (|prefix| - prefixOffset)]
      && (origin.File? ==> origin.pos == at + (|prefix| - prefixOffset))
    }

    /** Chunks follow each other without a gap, and frames are numbered and measured as they go out. */
    ghost predicate Counted()
      reads this`log, this`seal, this`wireOffset
    {
      && WellFormed(log, seal.Some?) && wireOffset == WireTotal(log)
      && (seal.Some? ==> seal.value.counter == |log| && seal.value.streamLen == |Payloads(log)|)
    }

    /** Chunks sent and bytes pending are what the encoder put out; for identity that is the source so far. */
    ghost predicate Streaming()
      requires pending.Valid()
      reads this`log, this`seal, this`wireOffset, this`encoded, this`sourceOffset, pending
    {
      && Counted()
      && Payloads(log) + pending.Contents() == encoded
      && (encoding == Identity ==> sourceOffset <= |content| && encoded == content[..sourceOffset])
    }

    ghost predicate Padding()
      requires pending.Valid()
      reads this`log, this`seal, this`encoderFinished, pending
    {
      seal.Some? ==>
        match seal.value.padRemaining
        case None => PadTotal(log) == 0 && Fillers(log) == 0
        case Some(left) =>
          && encoderFinished && pending.Contents() == []
          && Fillers(log) == PadFrames(PadTotal(log))
          && (left > 0 ==> PadTotal(log) == Fillers(log) * MAX_FRAME_PAYLOAD)
          && seal.value.streamLen + PadTotal(log) + left == PadmeLen(seal.value.streamLen)
    }

    ghost predicate Valid()
      reads this, pending
    {
      && pending.Valid() && SourceReady(sourceOffset) && Streaming() && Padding()
      && sourceOffset <= size && (sourceFinished <==> sourceOffset == size)
      && (encoderFinished ==> sourceFinished)
      && (!started ==> log == [] && sourceOffset == 0 && pending.Contents() == [])
      && Bounded(pending.Len())
    }

    /** Reading stays ahead of sending by no more than the buffers allow. */
    ghost predicate Bounded(queued: nat)
      reads this`sourceReadAhead
    {
      && sourceReadAhead <= 4 * 1024 * 1024
      && (encoding == Identity ==> queued < 1024 * 1024 + 192 * 1024)
    }

    constructor (name: string, size: nat, encoding: Encoding, content: seq<Byte>, prefix: seq<Byte>, inMemory: bool,
                 sealed: bool)
      requires prefix <= content
      ensures Valid() && this.size == size && this.content == content && this.encoding == encoding && this.name == name
      ensures log == [] && !started && fresh(pending) && seal.Some? == sealed && (sealed ==> Unannounced())
      ensures this.prefix == prefix && prefixOffset == 0 && origin == if inMemory then Memory else File(|prefix|)
    {
      this.name, this.size, this.encoding, this.content := name, size, encoding, content;
      this.prefix, prefixOffset := prefix, 0;
      origin := if inMemory then Memory else File(|prefix|);
      seal := if sealed then Some(Seal(false, 0, 0, None)) else None;
      pending := new PendingWire();
      sourceOffset, sourceReadAhead, wireOffset := 0, 0, 0;
      sourceFinished, encoderFinished, started := size == 0, false, false;
      encoded, log := [], [];
    }

    /** The server has taken the event that announces the file. */
    method Announce()
      requires Valid()
      modifies this`seal
      ensures Valid() && !Unannounced() && RankOf() == old(RankOf())
      ensures seal.Some? == old(seal).Some? && PadOwed() == old(PadOwed()) && Weight() == old(Weight())
    {
      hide WellFormed, SourceReady, PadmeLen;
      if seal.Some? {
        seal := Some(seal.value.(announced := true));
      }
    }

    // --- What is left --------------------------------------------------------------------

    function PadOwed(): nat
      reads this
    {
      if seal.None? then 0
      else if seal.value.padRemaining.Some? then seal.value.padRemaining.value
      else PadmeLen(seal.value.streamLen) - seal.value.streamLen
    }

    function RankOf(): Rank
      requires pending.Valid() && sourceOffset <= size
      reads this, pending
    {
      Rank(if started then 0 else 1, size - sourceOffset, if encoderFinished then 0 else 1,
           if sourceReadAhead < MAX_COMPRESSED_UPLOAD_SOURCE_AHEAD_BYTES then 0
           else if pending.Len() == 0 then 2 else 1,
           pending.Len(), PadOwed())
    }

    /** Bytes to read, to send and to pad, and the two steps besides; an identity upload spends one with every poll. */
    function Weight(): nat
      requires pending.Valid() && sourceOffset <= size
      reads this, pending
    {
      (if started then 0 else 1) + 2 * (size - sourceOffset) + (if encoderFinished then 0 else 1) + pending.Len()
      + if seal.None? then 0
        else if seal.value.padRemaining.Some? then seal.value.padRemaining.value
        else PadmeLen(size) - size
    }

    // --- When to poll ------------------------------------------------------------------------

    predicate ReadAheadLimited(throttle: UploadThrottle)
      reads throttle
    {
      throttle.IsLimited() && encoding == Zstd
    }

    function ReadCapacity(throttle: UploadThrottle): nat
      reads this, throttle
    {
      if ReadAheadLimited(throttle) then SatSub(MAX_COMPRESSED_UPLOAD_SOURCE_AHEAD_BYTES, sourceReadAhead) else U64_MAX
    }

    /** How much the next read may ask for: as much as budget, chunk, source and read-ahead all allow. */
    function ReadLimit(throttle: UploadThrottle, sourceBudget: nat): (limit: nat)
      requires sourceOffset <= size
      reads this, throttle
      ensures limit <= sourceBudget && limit <= 192 * 1024 && limit <= size - sourceOffset
      ensures throttle.rate > 0 && encoding == Zstd ==> limit <= SatSub(4 * 1024 * 1024, sourceReadAhead)
      ensures limit == sourceBudget || limit == 192 * 1024 || limit == size - sourceOffset
              || (throttle.rate > 0 && encoding == Zstd && limit == SatSub(4 * 1024 * 1024, sourceReadAhead))
    {
      Min(Min(sourceBudget, MAX_FILE_CHUNK_BYTES), Min(size - sourceOffset, ReadCapacity(throttle)))
    }

    /** How much of that the source gives: what is left of the prefix, or what the origin has and hands out. */
    ghost function Available(limit: nat, granted: nat): nat
      requires SourceReady(sourceOffset)
      reads this
    {
      if prefixOffset < |prefix| then Min(limit, |prefix| - prefixOffset)
      else if origin.Memory? then Min(limit, |content| - sourceOffset)
      else Min(granted, Min(limit, |content| - sourceOffset))
    }

    predicate ShouldFlush(throttle: UploadThrottle)
      requires pending.Valid()
      reads this, pending, throttle
    {
      && ReadAheadLimited(throttle) && !sourceFinished
      && sourceReadAhead >= MAX_COMPRESSED_UPLOAD_SOURCE_AHEAD_BYTES && pending.Len() == 0
    }

    predicate Unannounced()
      reads this
    {
      seal.Some? && !seal.value.announced
    }

    predicate ReadyNow(throttle: UploadThrottle)
      requires pending.Valid()
      reads this, pending, throttle
    {
      if !started then !Unannounced()
      else
        || (!sourceFinished && pending.Len() < MAX_QUEUED_FILE_BYTES && ReadCapacity(throttle) > 0)
        || ShouldFlush(throttle)
        || (sourceFinished && !encoderFinished)
        || (encoderFinished && pending.Len() == 0)
    }

    /** When the poll loop should come back, given whether the write buffer takes file work. */
    function UploadWake(throttle: UploadThrottle, room: bool): Wake
      requires pending.Valid()
      reads this, pending, throttle
    {
      if !room then Idle
      else if !started && Unannounced() then Idle
      else if ReadyNow(throttle) then Now
      else After(throttle.DelayUntil(Min(pending.Len(), MAX_FILE_CHUNK_BYTES)))
    }

    /** The states in which a poll can do nothing. */
    predicate Stuck(throttle: UploadThrottle)
      requires pending.Valid()
      reads this, pending, throttle
    {
      if !started then Unannounced()
      else pending.Len() > 0 && throttle.Budget() == 0 && !ReadyNow(throttle)
    }

    /** Something is pending, and there is no reason to read on: only the token budget lets this upload move. */
    ghost predicate Waits(throttle: UploadThrottle)
      requires pending.Valid()
      reads this, pending, throttle
    {
      && started && pending.Len() > 0 && (sourceFinished ==> encoderFinished)
      && (!sourceFinished ==>
            pending.Len() >= 1024 * 1024
            || (throttle.rate > 0 && encoding == Zstd && sourceReadAhead >= 4 * 1024 * 1024))
    }

    lemma {:induction false} StuckIs(throttle: UploadThrottle)
      requires Valid()
      ensures Stuck(throttle) <==>
                (!started && Unannounced()) || (Waits(throttle) && throttle.rate > 0 && throttle.tokens == 0)
    {
      hide SourceReady, Streaming, Padding, PadmeLen;
    }

    /**
     * The wake agrees with the poll: Idle exactly for want of room or of the announcement, a delay exactly while only
     * tokens are waited for, zero when enough of them for a chunk are there, and Now in every other case, when a poll
     * moves the upload.
     */
    lemma {:induction false} WakeIsExact(throttle: UploadThrottle, room: bool)
      requires Valid()
      ensures var wake := UploadWake(throttle, room);
              && (wake.Idle? <==> !room || (!started && Unannounced()))
              && (wake.After? <==> room && Waits(throttle))
              && (wake.After? && wake.delay > 0.0 <==>
                  room && Waits(throttle) && throttle.rate > 0
                  && throttle.tokens < Min(pending.Len(), 192 * 1024))
              && (wake.Now? || wake == After(0.0) ==> !Stuck(throttle))
    {
      hide SourceReady, Streaming, Padding, PadmeLen;
    }

    // --- Steps -----------------------------------------------------------------------------

    method ReadSource(limit: nat, granted: nat) returns (data: seq<Byte>)
      requires SourceReady(sourceOffset)
      modifies this`prefix, this`prefixOffset, this`origin
      ensures |data| == old(Available(limit, granted)) && SourceReady(sourceOffset + |data|)
      ensures data == [] && limit > 0 ==> granted == 0 || sourceOffset == |content|
      ensures data == content[sourceOffset..sourceOffset + |data|]
    {
      if prefixOffset < |prefix| {
        data := ReadPrefix(limit);
        return;
      }
      match origin
      case Memory =>
        var start := Min(sourceOffset, |content|);
        var end := Min(start + limit, |content|);
        return content[start..end];
      case File(pos) =>
        var n := Min(granted, Min(limit, |content| - pos));
        data := content[pos..pos + n];
        origin := File(pos + n);
    }

    lemma {:induction false} AvailableWithin(limit: nat, granted: nat)
      requires SourceReady(sourceOffset)
      ensures Available(limit, granted) <= limit
    {
    }

    /** What was read ahead of the upload comes first. */
    method ReadPrefix(limit: nat) returns (data: seq<Byte>)
      requires SourceReady(sourceOffset) && prefixOffset < |prefix|
      modifies this`prefix, this`prefixOffset
      ensures |data| == Min(limit, |old(prefix)| - old(prefixOffset)) && SourceReady(sourceOffset + |data|)
      ensures data == content[sourceOffset..sourceOffset + |data|]
      ensures prefix == [] || prefixOffset < |prefix|
    {
      var end := Min(prefixOffset + limit, |prefix|);
      data := prefix[prefixOffset..end];
      PrefixRest(prefix, prefixOffset, end, content, sourceOffset);
      prefixOffset := end;
      if prefixOffset == |prefix| {
        prefix, prefixOffset := [], 0;
      }
    }

    /** Opens the transfer with the size the server may know. */
    method Begin() returns (sent: Control)
      requires Valid() && !started
      modifies this`started
      ensures Valid() && started && Less(RankOf(), old(RankOf())) && Weight() < old(Weight())
      ensures sent == if seal.Some? then Start("sealed.bin", PadmeLen(size), Sealed)
                      else Start(name, size, Open(encoding))
    {
      started := true;
      return Opening();
    }

    /** Sealed uploads advertise a placeholder name and the size class; the rest travels sealed. */
    function Opening(): Control
      reads this`seal
    {
      Start(if seal.Some? then "sealed.bin" else name, Advertised(size, seal.Some?),
            if seal.Some? then Sealed else Open(encoding))
    }

    function MaxPayload(): nat
      reads this
    {
      if seal.Some? then MAX_FRAME_PAYLOAD else MAX_FILE_CHUNK_BYTES
    }

    /** Sends what is pending, as far as one chunk and the budget go. */
    method SendChunk(throttle: UploadThrottle) returns (sent: Control)
      requires Valid() && started && pending.Len() > 0 && throttle.Budget() > 0 && throttle.Paced()
      modifies this, pending, throttle`tokens, throttle`spent
      ensures Valid() && started && Less(RankOf(), old(RankOf())) && throttle.Paced() && encoded == old(encoded)
      ensures sent.Data? && log == old(log) + [sent.chunk] && seal.Some? == old(seal).Some?
      ensures var most := if seal.Some? then 192 * 1024 - 20 else 192 * 1024;
              var n := Min(Min(old(pending.Len()), most), old(throttle.Budget()));
              && sent.chunk.packet.data == old(pending.Contents())[..n] && PadLen(sent.chunk.packet) == 0
              && pending.Contents() == old(pending.Contents())[n..]
              && (throttle.rate > 0 ==> throttle.tokens == old(throttle.tokens) - n)
              && (throttle.rate > 0 ==> throttle.spent == old(throttle.spent) + n)
      ensures sourceOffset == old(sourceOffset) && encoderFinished == old(encoderFinished)
      ensures sourceReadAhead == if pending.Len() == 0 then 0 else old(sourceReadAhead)
      ensures Unannounced() == old(Unannounced()) && (encoding == Identity ==> Weight() < old(Weight()))
    {
      hide Counted, Streaming, Padding, PadmeLen, SourceReady, UploadThrottle.Paced, Less;
      ghost var was := RankOf();
      var sendLen := Min(Min(pending.Len(), MaxPayload()), throttle.Budget());
      throttle.Consume(sendLen);
      var chunk := SendPending(sendLen);
      if pending.Len() == 0 {
        sourceReadAhead := 0;
      }
      LessPending(RankOf(), was);
      return Data(chunk);
    }

    /** Takes bytes off the front of what is pending and puts them on the wire, sealed if need be. */
    method SendPending(sendLen: nat) returns (chunk: Chunk)
      requires pending.Valid() && Streaming() && Padding() && 0 < sendLen <= Min(pending.Len(), MaxPayload())
      modifies this`log, this`seal, this`wireOffset, pending
      ensures pending.Valid() && Streaming() && Padding() && pending.Contents() == old(pending.Contents())[sendLen..]
      ensures log == old(log) + [chunk] && chunk.packet.data == old(pending.Contents())[..sendLen]
      ensures PadLen(chunk.packet) == 0
      ensures seal.Some? == old(seal).Some?
      ensures seal.Some? ==> seal.value.padRemaining.None? && old(seal).value.padRemaining.None?
      ensures seal.Some? ==> seal.value.announced == old(seal).value.announced
    {
      hide Counted, WireTotal, PadTotal, Payloads, Fillers, PadFrames, PadmeLen;
      var data := pending.Take(sendLen);
      var packet := if seal.Some? then Frame(seal.value.counter, data, 0) else Plain(data);
      chunk := Queue(packet);
      SentOn(old(Payloads(log)), data, pending.Contents());
    }

    /** Puts one chunk on the wire and keeps the books. */
    method Queue(packet: Packet) returns (chunk: Chunk)
      requires Counted() && Sized(packet)
      requires packet.Frame? == seal.Some? && (seal.Some? ==> packet.counter == seal.value.counter)
      modifies this`log, this`seal, this`wireOffset
      ensures Counted() && chunk == Chunk(old(wireOffset), packet) && log == old(log) + [chunk]
      ensures Payloads(log) == old(Payloads(log)) + packet.data && PadTotal(log) == old(PadTotal(log)) + PadLen(packet)
      ensures Fillers(log) == old(Fillers(log)) + if packet.data == [] then 1 else 0
      ensures seal == if old(seal).None? then None else
                Some(old(seal).value.(counter := old(seal).value.counter + 1,
                                      streamLen := old(seal).value.streamLen + |packet.data|))
    {
      hide WellFormed, WireTotal, PadTotal, Payloads, Fillers;
      chunk := Chunk(wireOffset, packet);
      LogAppend(log, chunk);
      WellFormedAppend(log, chunk, seal.Some?);
      log := log + [chunk];
      if seal.Some? {
        seal := Some(seal.value.(counter := seal.value.counter + 1, streamLen := seal.value.streamLen + |packet.data|));
      }
      wireOffset := wireOffset + WireLen(packet);
    }

    /** Has the encoder put out what it holds; identity holds nothing back. */
    method FlushAhead(throttle: UploadThrottle, emitted: seq<Byte>)
      requires Valid() && started && ShouldFlush(throttle)
      modifies this`sourceReadAhead, this`encoded, pending
      ensures Valid() && Less(RankOf(), old(RankOf()))
      ensures pending.Contents() == emitted && encoded == old(encoded) + emitted
      ensures sourceReadAhead == if emitted == [] then 0 else old(sourceReadAhead)
    {
      pending.Write(emitted);
      encoded := encoded + emitted;
      if pending.Len() == 0 {
        sourceReadAhead := 0;
      }
    }

    /** Reads on and feeds the encoder. Nothing to read, although the size says so, ends the upload. */
    method ReadMore(limit: nat, granted: nat, emitted: seq<Byte>, throttle: UploadThrottle) returns (data: seq<Byte>)
      requires Valid() && started && !sourceFinished && limit <= MAX_FILE_CHUNK_BYTES
      requires limit <= size - sourceOffset && limit <= ReadCapacity(throttle) && pending.Len() < MAX_QUEUED_FILE_BYTES
      modifies this`prefix, this`prefixOffset, this`origin, this`encoded, this`sourceReadAhead, this`sourceOffset,
               this`sourceFinished, pending
      ensures Valid() && |data| == old(Available(limit, granted))
      ensures data != [] ==>
                && pending.Contents() == old(pending.Contents()) + (if encoding == Identity then data else emitted)
                && sourceReadAhead == if throttle.rate > 0 && encoding == Zstd then old(sourceReadAhead) + |data| else 0
      ensures data != [] ==> Less(RankOf(), old(RankOf())) && sourceOffset == old(sourceOffset) + |data|
      ensures data != [] && encoding == Identity ==> Weight() < old(Weight())
      ensures data == [] ==> RankOf() == old(RankOf()) && Weight() == old(Weight())
      ensures data == [] && limit > 0 ==> granted == 0 || old(sourceOffset) == |content|
    {
      hide Counted, Streaming, Padding, PadmeLen, SourceReady, Less, Available;
      ghost var was := RankOf();
      AvailableWithin(limit, granted);
      data := ReadSource(limit, granted);
      if data == [] {
        return;
      }
      Feed(data, emitted);
      if ReadAheadLimited(throttle) {
        sourceReadAhead := sourceReadAhead + |data|;
      } else {
        sourceReadAhead := 0;
      }
      sourceFinished := sourceOffset == size;
      LessSource(RankOf(), was);
    }

    /** Passes source bytes through the encoder; identity puts out what it is given. */
    method Feed(data: seq<Byte>, emitted: seq<Byte>)
      requires pending.Valid() && Streaming() && Padding() && !encoderFinished
      requires sourceOffset + |data| <= |content| && data == content[sourceOffset..sourceOffset + |data|]
      modifies this`encoded, this`sourceOffset, pending
      ensures pending.Valid() && Streaming() && Padding() && sourceOffset == old(sourceOffset) + |data|
      ensures pending.Contents() == old(pending.Contents()) + if encoding == Identity then data else emitted
    {
      hide Counted, PadTotal, Payloads, Fillers, PadFrames, PadmeLen;
      var out := if encoding == Identity then data else emitted;
      assert encoding == Identity ==> content[..sourceOffset] + data == content[..sourceOffset + |data|];
      SentOn(Payloads(log), pending.Contents(), out);
      pending.Write(out);
      encoded := encoded + out;
      sourceOffset := sourceOffset + |data|;
    }

    method FinishEncoder(emitted: seq<Byte>)
      requires Valid() && started && sourceFinished && !encoderFinished
      modifies this`encoderFinished, this`encoded, pending
      ensures Valid() && Less(RankOf(), old(RankOf())) && (encoding == Identity ==> Weight() < old(Weight()))
      ensures encoderFinished
      ensures pending.Contents() == old(pending.Contents()) + if encoding == Identity then [] else emitted
    {
      hide Counted, PadmeLen, SourceReady, PadTotal, Payloads, Fillers, PadFrames;
      var out := if encoding == Identity then [] else emitted;
      SentOn(Payloads(log), pending.Contents(), out);
      pending.Write(out);
      encoded := encoded + out;
      encoderFinished := true;
    }

    /** One frame of padding towards the size class. */
    method SendPadding() returns (sent: Control)
      requires Valid() && started && encoderFinished && pending.Len() == 0 && seal.Some? && PadOwed() > 0
      modifies this`seal, this`log, this`wireOffset
      ensures Valid() && started && Less(RankOf(), old(RankOf()))
      ensures Unannounced() == old(Unannounced()) && (encoding == Identity ==> Weight() < old(Weight()))
      ensures sent.Data? && log == old(log) + [sent.chunk] && seal.Some? && sent.chunk.packet.data == []
      ensures PadLen(sent.chunk.packet) == Min(old(PadOwed()), 192 * 1024 - 20)
      ensures PadOwed() == old(PadOwed()) - PadLen(sent.chunk.packet)
    {
      hide WellFormed, WireTotal, PadTotal, Payloads, Fillers, PadmeLen, SourceReady;
      var owed := PadOwed();
      var padLen := Min(owed, MAX_FRAME_PAYLOAD);
      seal := Some(seal.value.(padRemaining := Some(owed - padLen)));
      var chunk := Queue(Frame(seal.value.counter, [], padLen));
      return Data(chunk);
    }

    // --- The poll ----------------------------------------------------------------------------

    /** Everything has been sent. */
    ghost predicate Done()
      reads this, pending
    {
      && encoderFinished && pending.Valid() && pending.Contents() == []
      && PadOwed() == 0
    }

    /**
     * What a poll tells the server: that the transfer starts, exactly when it does, under no more than the size class
     * of a sealed file; that it is complete or canceled, exactly when it is; and nothing sealed without a session.
     */
    ghost predicate Tells(outcome: Outcome, sent: Option<Control>, started: bool, authenticated: bool)
      reads this`seal
    {
      && (!started && outcome.Progress? <==>
          sent == Some(if seal.Some? then Start("sealed.bin", PadmeLen(size), Sealed)
                       else Start(name, size, Open(encoding))))
      && (sent.Some? && sent.value.Start? ==> !started && outcome.Progress?)
      && (sent == Some(Complete) <==> outcome.Completed?)
      && (sent.Some? && sent.value.Cancel? <==> outcome.Canceled?)
      && (sent == Some(Cancel(NotAuthenticated)) ==> seal.Some? && !authenticated)
      && (sent.Some? && sent.value.Data? ==> started && outcome.Progress? && (seal.Some? ==> authenticated))
      && (outcome.Blocked? ==> sent.None?)
    }

    /** What a poll does: what is left, what is sent and what it costs. */
    twostate predicate Polled(throttle: UploadThrottle, sourceBudget: nat, authenticated: bool, granted: nat,
                              outcome: Outcome, new sent: Option<Control>, budgetLeft: nat)
      requires old(Valid()) && Valid()
      reads this, pending, throttle
    {
      && Moves(throttle, sourceBudget, outcome)
      && (outcome.Canceled? ==> (seal.Some? && !authenticated) || granted == 0 || sourceOffset == |content| < size)
      && (outcome.Completed? ==> Done())
      && seal.Some? == old(seal).Some? && started == (old(started) || outcome.Progress?)
      && (Unannounced() ==> old(Unannounced())) && Tells(outcome, sent, old(started), authenticated)
      && log == (if sent.Some? && sent.value.Data? then old(log) + [sent.value.chunk] else old(log))
      && Spends(throttle, sent) && Reads(throttle, sourceBudget, granted, budgetLeft)
    }

    /** Progress lowers the rank; a poll that can do nothing says so and changes nothing. */
    twostate predicate Moves(throttle: UploadThrottle, sourceBudget: nat, outcome: Outcome)
      requires old(Valid()) && Valid()
      reads this, pending, throttle
    {
      && (if outcome.Progress? then Less(RankOf(), old(RankOf())) && (encoding == Identity ==> Weight() < old(Weight()))
          else RankOf() == old(RankOf()) && Weight() == old(Weight()))
      && (sourceBudget > 0 ==> (outcome.Blocked? <==> old(Stuck(throttle))))
      && (outcome.Blocked? ==> unchanged(this) && unchanged(pending) && unchanged(throttle))
    }

    /** A chunk's payload, and nothing else, comes off the token budget. */
    twostate predicate Spends(throttle: UploadThrottle, new sent: Option<Control>)
      reads throttle
    {
      && PayloadOf(sent) <= old(throttle.Budget())
      && (throttle.rate > 0 ==>
            && throttle.tokens == old(throttle.tokens) - PayloadOf(sent)
            && throttle.spent == old(throttle.spent) + PayloadOf(sent))
    }

    /** Bytes read, and nothing else, come off the source budget; a read takes all it is allowed and given. */
    twostate predicate Reads(throttle: UploadThrottle, sourceBudget: nat, granted: nat, budgetLeft: nat)
      requires old(Valid())
      reads this, throttle
    {
      && old(sourceOffset) <= sourceOffset && budgetLeft == sourceBudget - (sourceOffset - old(sourceOffset))
      && (sourceOffset > old(sourceOffset) ==>
            sourceOffset == old(sourceOffset + Available(ReadLimit(throttle, sourceBudget), granted)))
    }

    method Poll(throttle: UploadThrottle, sourceBudget: nat, authenticated: bool, granted: nat, emitted: seq<Byte>)
      returns (outcome: Outcome, sent: Option<Control>, budgetLeft: nat)
      requires Valid() && throttle.Paced()
      modifies this, pending, throttle`tokens, throttle`spent
      ensures Valid() && throttle.Paced()
      ensures Polled(throttle, sourceBudget, authenticated, granted, outcome, sent, budgetLeft)
    {
      hide SourceReady, Streaming, Padding, Less, PadmeLen, Available, Bounded, UploadThrottle.Paced;
      sent, budgetLeft := None, sourceBudget;
      if !started {
        if Unannounced() {
          return Blocked, None, budgetLeft;
        }
        var control := Begin();
        return Progress, Some(control), budgetLeft;
      }
      if pending.Len() > 0 && throttle.Budget() > 0 {
        if seal.Some? && !authenticated {
          return Canceled, Some(Cancel(NotAuthenticated)), budgetLeft;
        }
        var control := SendChunk(throttle);
        return Progress, Some(control), budgetLeft;
      }
      if ShouldFlush(throttle) {
        FlushAhead(throttle, emitted);
        return Progress, None, budgetLeft;
      }
      outcome, sent, budgetLeft := PollOn(throttle, sourceBudget, authenticated, granted, emitted);
    }

    /** The rest of a poll that has nothing to send and nothing to flush. */
    method PollOn(throttle: UploadThrottle, sourceBudget: nat, authenticated: bool, granted: nat, emitted: seq<Byte>)
      returns (outcome: Outcome, sent: Option<Control>, budgetLeft: nat)
      requires Valid() && started && (pending.Len() == 0 || throttle.Budget() == 0) && !ShouldFlush(throttle)
      modifies this, pending
      ensures Valid()
      ensures Polled(throttle, sourceBudget, authenticated, granted, outcome, sent, budgetLeft)
    {
      hide SourceReady, Streaming, Padding, Less, PadmeLen, Available, Bounded;
      sent, budgetLeft := None, sourceBudget;
      var capacity := ReadCapacity(throttle);
      if !sourceFinished && sourceBudget > 0 && pending.Len() < MAX_QUEUED_FILE_BYTES && capacity > 0 {
        var limit := ReadLimit(throttle, sourceBudget);
        AvailableWithin(limit, granted);
        var data := ReadMore(limit, granted, emitted, throttle);
        if data == [] {
          return Canceled, Some(Cancel(EndedEarly)), budgetLeft;
        }
        return Progress, None, budgetLeft - |data|;
      }
      if sourceFinished && !encoderFinished {
        FinishEncoder(emitted);
        return Progress, None, budgetLeft;
      }
      if pending.Len() > 0 {
        return Blocked, None, budgetLeft;
      }
      if !encoderFinished {
        return Blocked, None, budgetLeft;
      }
      if PadOwed() > 0 {
        if !authenticated {
          return Canceled, Some(Cancel(NotAuthenticated)), budgetLeft;
        }
        var control := SendPadding();
        return Progress, Some(control), budgetLeft;
      }
      return Completed, Some(Complete), budgetLeft;
    }

    // --- Running to rest ---------------------------------------------------------------------

    /** Time passes, the rate may change and the announcement may arrive; none of it touches what is left to do. */
    method Meanwhile(throttle: UploadThrottle, turn: Turn)
      requires Valid() && throttle.Paced()
      modifies this`seal, throttle
      ensures Valid() && throttle.Paced() && RankOf() == old(RankOf()) && Weight() == old(Weight())
      ensures seal.Some? == old(seal).Some? && (Unannounced() <==> old(Unannounced()) && !turn.announced)
      ensures throttle.rate == if turn.rate.Some? then turn.rate.value else old(throttle.rate)
      ensures var had := if turn.rate.Some? then Min(old(throttle.tokens), throttle.rate) else old(throttle.tokens);
              throttle.tokens == if throttle.rate == 0 || turn.elapsed < 0.0 then had
                                 else Min(had + (turn.elapsed * throttle.rate as real).Floor, throttle.rate)
    {
      hide Valid, RankOf, Weight, UploadThrottle.Paced, PadOwed;
      if turn.announced {
        Announce();
      }
      if turn.rate.Some? {
        throttle.SetRate(turn.rate.value);
      }
      if turn.elapsed >= 0.0 {
        assert throttle.last + turn.elapsed - throttle.last == turn.elapsed;
        throttle.Refill(throttle.last + turn.elapsed);
      }
    }

    /**
     * Polls as long as polls are productive, whatever happens in between and whatever each of them meets. It comes
     * to rest: the rank falls with every productive poll. An identity upload needs no more of them than its weight.
     */
    method PollToRest(throttle: UploadThrottle, turns: nat -> Turn) returns (outcome: Outcome, productive: nat)
      requires Valid() && throttle.Paced()
      modifies this, pending, throttle
      ensures Valid() && throttle.Paced() && !outcome.Progress?
      ensures outcome.Completed? ==> Done()
      ensures outcome.Blocked? && (forall n :: turns(n).announced && turns(n).sourceBudget > 0) ==>
                Stuck(throttle) && !Unannounced()
      ensures |log| <= |old(log)| + productive && (encoding == Identity ==> productive <= old(Weight()))
    {
      hide SourceReady, Streaming, Padding, Weight, RankOf, Done, Stuck, UploadThrottle.Paced;
      outcome, productive := Progress, 0;
      ghost var rank := RankOf();
      while outcome.Progress?
        invariant Valid() && throttle.Paced() && rank == RankOf() && (outcome.Completed? ==> Done())
        invariant encoding == Identity ==> productive + Weight() <= old(Weight())
        invariant |log| <= |old(log)| + productive
        invariant outcome.Blocked? && (forall n :: turns(n).announced && turns(n).sourceBudget > 0) ==>
                    Stuck(throttle) && !Unannounced()
        decreases rank.unstarted, rank.source, rank.unfinished, rank.flush, rank.pending, rank.pad, outcome.Progress?
      {
        var turn := turns(productive);
        Meanwhile(throttle, turn);
        var sent, left;
        outcome, sent, left := Poll(throttle, turn.sourceBudget, turn.authenticated, turn.granted, turn.emitted);
        if outcome.Progress? {
          productive := productive + 1;
        }
        rank := RankOf();
      }
    }
  }
}
