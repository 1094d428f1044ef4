/** File bytes on the wire: the sender's outgoing buffer, sealed frames, and logs of relayed chunks. */
module Wire {
  import opened Arithmetic

  type Byte = x: nat | x < 256

  const MAX_FILE_CHUNK_BYTES: nat := 192 * 1024
  const FILE_CHUNK_OVERHEAD: nat := 20

  /**
   * What one chunk carries. Sealing is symbolic: a frame opens with the counter it was sealed under and no other,
   * and gives back its payload without the padding.
   */
  datatype Packet =
    | Plain(data: seq<Byte>)
    | Frame(counter: nat, data: seq<Byte>, pad: nat)

  function WireLen(packet: Packet): nat {
    match packet
    case Plain(data) => |data|
    case Frame(_, data, pad) => |data| + pad + FILE_CHUNK_OVERHEAD
  }

  function PadLen(packet: Packet): nat {
    if packet.Frame? then packet.pad else 0
  }

  /** The bytes on the wire. What a frame's ciphertext looks like is left open; zeros of its length stand for it. */
  function Raw(packet: Packet): (bytes: seq<Byte>)
    ensures |bytes| == WireLen(packet)
  {
    match packet
    case Plain(data) => data
    case Frame(_, _, _) => Zeros(WireLen(packet))
  }

  function Zeros(n: nat): (zeros: seq<Byte>)
    ensures |zeros| == n
  {
    if n == 0 then [] else Zeros(n - 1) + [0]
  }

  datatype Chunk = Chunk(offset: nat, packet: Packet)

  // --- Logs of chunks ----------------------------------------------------------------------

  function WireTotal(log: seq<Chunk>): nat {
    if log == [] then 0 else WireTotal(log[..|log| - 1]) + WireLen(log[|log| - 1].packet)
  }

  function PadTotal(log: seq<Chunk>): nat {
    if log == [] then 0 else PadTotal(log[..|log| - 1]) + PadLen(log[|log| - 1].packet)
  }

  function Payloads(log: seq<Chunk>): seq<Byte> {
    if log == [] then [] else Payloads(log[..|log| - 1]) + log[|log| - 1].packet.data
  }

  /** How many chunks carry nothing but padding. */
  function Fillers(log: seq<Chunk>): nat {
    if log == [] then 0 else Fillers(log[..|log| - 1]) + if log[|log| - 1].packet.data == [] then 1 else 0
  }

  /** No chunk carries more than one byte. */
  ghost predicate Crumbled(log: seq<Chunk>) {
    forall i :: 0 <= i < |log| ==> |log[i].packet.data| <= 1
  }

  /** Every chunk that is no filler carries a byte; when it carries no more, there are as many as bytes. */
  lemma {:induction false} CarriersBound(log: seq<Chunk>)
    ensures |log| <= |Payloads(log)| + Fillers(log)
    ensures Crumbled(log) ==> |log| == |Payloads(log)| + Fillers(log)
  {
    if log != [] {
      var front := log[..|log| - 1];
      CarriersBound(front);
      assert Crumbled(log) ==> Crumbled(front);
    }
  }

  /** Each chunk starts where the one before ended, and frames count up from zero without a gap. */
  ghost predicate InOrder(log: seq<Chunk>, sealed: bool) {
    log != [] ==>
      var front, last := log[..|log| - 1], log[|log| - 1];
      && InOrder(front, sealed) && last.offset == WireTotal(front)
      && last.packet.Frame? == sealed && (sealed ==> last.packet.counter == |front|)
  }

  ghost predicate Sized(packet: Packet) {
    0 < WireLen(packet) <= MAX_FILE_CHUNK_BYTES
  }

  /** ... and no chunk is empty or over the limit. */
  ghost predicate WellFormed(log: seq<Chunk>, sealed: bool) {
    InOrder(log, sealed) && forall i :: 0 <= i < |log| ==> Sized(log[i].packet)
  }

  lemma {:induction false} LogAppend(log: seq<Chunk>, chunk: Chunk)
    ensures WireTotal(log + [chunk]) == WireTotal(log) + WireLen(chunk.packet)
    ensures PadTotal(log + [chunk]) == PadTotal(log) + PadLen(chunk.packet)
    ensures Payloads(log + [chunk]) == Payloads(log) + chunk.packet.data
    ensures Fillers(log + [chunk]) == Fillers(log) + if chunk.packet.data == [] then 1 else 0
  {
    assert (log + [chunk])[..|log|] == log;
  }

  lemma {:induction false} InOrderAppend(log: seq<Chunk>, chunk: Chunk, sealed: bool)
    requires InOrder(log, sealed) && chunk.offset == WireTotal(log)
    requires chunk.packet.Frame? == sealed && (sealed ==> chunk.packet.counter == |log|)
    ensures InOrder(log + [chunk], sealed)
  {
    assert (log + [chunk])[..|log|] == log;
  }

  lemma {:induction false} WellFormedAppend(log: seq<Chunk>, chunk: Chunk, sealed: bool)
    requires WellFormed(log, sealed) && chunk.offset == WireTotal(log) && Sized(chunk.packet)
    requires chunk.packet.Frame? == sealed && (sealed ==> chunk.packet.counter == |log|)
    ensures WellFormed(log + [chunk], sealed)
  {
    hide InOrder, Sized;
    InOrderAppend(log, chunk, sealed);
  }

  /** Offsets and counters are fixed by the position in the log. */
  lemma {:induction false} ChunkAt(log: seq<Chunk>, sealed: bool, i: nat)
    requires InOrder(log, sealed) && i < |log|
    ensures InOrder(log[..i], sealed) && log[i].offset == WireTotal(log[..i])
    ensures log[i].packet.Frame? == sealed && (sealed ==> log[i].packet.counter == i)
  {
    if i < |log| - 1 {
      var front := log[..|log| - 1];
      ChunkAt(front, sealed, i);
      assert front[..i] == log[..i];
    }
  }

  /** What has gone over the wire only grows. */
  lemma {:induction false} LogPrefix(log: seq<Chunk>, i: nat)
    requires i <= |log|
    ensures WireTotal(log[..i]) <= WireTotal(log) && Payloads(log[..i]) <= Payloads(log)
  {
    if i < |log| {
      var front := log[..|log| - 1];
      LogPrefix(front, i);
      assert front[..i] == log[..i];
    } else {
      assert log[..i] == log;
    }
  }

  /** The wire carries the payloads, the padding and one overhead per frame. */
  lemma {:induction false} WireBudget(log: seq<Chunk>, sealed: bool)
    requires InOrder(log, sealed)
    ensures WireTotal(log) == |Payloads(log)| + PadTotal(log) + if sealed then FILE_CHUNK_OVERHEAD * |log| else 0
    ensures !sealed ==> PadTotal(log) == 0
  {
    if log != [] {
      WireBudget(log[..|log| - 1], sealed);
    }
  }

  // --- The sender's buffer -------------------------------------------------------------------

  /** Encoded bytes on their way out: taken from the front, written at the back. */
  class PendingWire {
    var bytes: seq<Byte>
    var offset: nat

    /** A buffer taken empty is dropped. */
    ghost predicate Valid()
      reads this
    {
      offset == 0 || offset < |bytes|
    }

    function Contents(): seq<Byte>
      requires Valid()
      reads this
    {
      bytes[offset..]
    }

    function Len(): (n: nat)
      requires Valid()
      reads this
      ensures n == |Contents()|
    {
      SatSub(|bytes|, offset)
    }

    constructor ()
      ensures Valid() && Contents() == []
    {
      bytes, offset := [], 0;
    }

    method Take(limit: nat) returns (data: seq<Byte>)
      requires Valid()
      modifies this
      ensures Valid() && old(Contents()) == data + Contents()
      ensures |data| == Min(limit, |old(Contents())|)
    {
      var end := Min(offset + limit, |bytes|);
      data := bytes[offset..end];
      assert bytes[offset..] == data + bytes[end..];
      offset := end;
      if offset == |bytes| {
        bytes, offset := [], 0;
      }
    }

    method Compact()
      requires Valid()
      modifies this
      ensures Valid() && Contents() == old(Contents()) && offset == 0
    {
      if offset == 0 {
        return;
      }
      bytes := bytes[offset..];
      offset := 0;
    }

    method Write(buf: seq<Byte>)
      requires Valid()
      modifies this
      ensures Valid() && Contents() == old(Contents()) + buf && offset < MAX_FILE_CHUNK_BYTES
    {
      if offset > 0 && (offset == |bytes| || offset >= MAX_FILE_CHUNK_BYTES) {
        Compact();
      }
      bytes := bytes + buf;
    }
  }
}
