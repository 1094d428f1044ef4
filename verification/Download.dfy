/** One incoming file: chunks are opened and queued, and written out within two work budgets. */
module Download {
  import opened Arithmetic
  import opened Wire
  import opened Upload

  datatype Written = Wrote(n: nat) | WouldBlock | Refused

  /** Where the bytes end up; it takes at most the declared size and, per turn, at most its work budget. */
  class ReceiveSink {
    const expected: nat
    var target: seq<Byte>
    var workBudget: nat

    ghost predicate Valid()
      reads this`target
    {
      |target| <= expected
    }

    constructor (expected: nat)
      ensures Valid() && target == [] && this.expected == expected && workBudget == 0
    {
      this.expected, target, workBudget := expected, [], 0;
    }

    /** Writes what budget and target allow; `granted` is how much the target takes at once. */
    method Write(buf: seq<Byte>, granted: nat) returns (result: Written)
      requires Valid()
      modifies this`target, this`workBudget
      ensures Valid()
      ensures result.Wrote? ==>
                && result.n <= |buf| && target == old(target) + buf[..result.n]
                && workBudget == old(workBudget) - result.n && old(workBudget) > 0
                && result.n == Min(granted, Min(|buf|, old(workBudget)))
      ensures !result.Wrote? ==> target == old(target) && workBudget == old(workBudget)
      ensures result.Refused? <==> |old(target)| + |buf| > expected
      ensures result.WouldBlock? <==> |old(target)| + |buf| <= expected && old(workBudget) == 0
    {
      if |target| + |buf| > expected {
        return Refused;
      }
      if workBudget == 0 {
        return WouldBlock;
      }
      var n := Min(granted, Min(|buf|, workBudget));
      target := target + buf[..n];
      workBudget := workBudget - n;
      return Wrote(n);
    }
  }

  datatype InSeal = InSeal(counter: nat, wireBound: nat)

  /** One call into the decompressor: the writes it makes, and how it ends if none of them fails. */
  datatype Decoding = Decoding(outputs: seq<seq<Byte>>, corrupt: bool, consumed: nat)

  /** How a pump ends: well, with a finished file of the wrong size, or broken off midway. */
  datatype Pumped = Fine | Mismatched | Broken

  /** What a pump comes to: bytes written, wire bytes used up, and whether it breaks off. */
  datatype Spending = Spending(written: nat, consumed: nat, broke: bool)

  /** One call into the decoder: bytes written and how it ends. */
  datatype Attempted = Attempted(written: nat, result: Written)

  /** The writes of the decompressor, up to the first that fails. */
  function Poured(size: nat, have: nat, work: nat, granted: nat, outputs: seq<seq<Byte>>): (a: Attempted)
    ensures a.written <= work && (have <= size ==> have + a.written <= size)
    decreases |outputs|
  {
    if outputs == [] then Attempted(0, Wrote(0))
    else if have + |outputs[0]| > size then Attempted(0, Refused)
    else if work == 0 then Attempted(0, WouldBlock)
    else
      var n := Min(granted, Min(|outputs[0]|, work));
      var rest := Poured(size, have + n, work - n, granted, outputs[1..]);
      Attempted(n + rest.written, rest.result)
  }

  /** One call with `input` bytes: identity writes them, the decompressor makes writes of its own. */
  function Attempt(encoding: Encoding, size: nat, have: nat, input: nat, work: nat, granted: nat, decoding: Decoding)
    : (a: Attempted)
    ensures a.written <= work && (a.result.Wrote? ==> a.result.n <= input)
    ensures encoding == Identity ==> a.written == if a.result.Wrote? then a.result.n else 0
  {
    if encoding == Identity then
      if have + input > size then Attempted(0, Refused)
      else if work == 0 then Attempted(0, WouldBlock)
      else
        var n := Min(granted, Min(input, work));
        Attempted(n, Wrote(n))
    else
      var poured := Poured(size, have, work, granted, decoding.outputs);
      if !poured.result.Wrote? then poured
      else Attempted(poured.written, if decoding.corrupt then Refused else Wrote(Min(decoding.consumed, input)))
  }

  /** Closing the decoder once everything is handed over; identity has nothing to close. */
  function Close(encoding: Encoding, size: nat, have: nat, work: nat, granted: nat, decoding: Decoding): (a: Attempted)
    ensures a.written <= work
  {
    if encoding == Identity then Attempted(0, Wrote(0))
    else
      var poured := Poured(size, have, work, granted, decoding.outputs);
      if poured.result.Wrote? && decoding.corrupt then Attempted(poured.written, Refused) else poured
  }

  /**
   * What a pump comes to: `have` bytes are written and `unread` wait, with budgets `wire` and `work` left. At step
   * `k` the target takes `grants(k)` bytes of a write and the decompressor does `decodings(k)`.
   */
  function Spend(encoding: Encoding, size: nat, have: nat, unread: nat, closing: bool, wire: nat, work: nat,
                 grants: nat -> nat, decodings: nat -> Decoding, k: nat): Spending
    decreases wire
  {
    if unread == 0 && closing then
      var a := Close(encoding, size, have, work, grants(k), decodings(k));
      Spending(a.written, 0, a.result.Refused?)
    else if unread == 0 || wire == 0 then Spending(0, 0, false)
    else
      var a := Attempt(encoding, size, have, Min(wire, unread), work, grants(k), decodings(k));
      if a.result.WouldBlock? then Spending(a.written, 0, false)
      else if a.result.Refused? || a.result.n == 0 then Spending(a.written, 0, true)
      else if a.written == work then Spending(a.written, a.result.n, false)
      else
        var rest := Spend(encoding, size, have + a.written, unread - a.result.n, closing, wire - a.result.n,
                          work - a.written, grants, decodings, k + 1);
        Spending(a.written + rest.written, a.result.n + rest.consumed, rest.broke)
  }

  /** An identity pump uses up what it writes. */
  lemma {:induction false} IdentitySpend(size: nat, have: nat, unread: nat, closing: bool, wire: nat, work: nat,
                                         grants: nat -> nat, decodings: nat -> Decoding, k: nat)
    ensures var spending := Spend(Identity, size, have, unread, closing, wire, work, grants, decodings, k);
            spending.consumed == spending.written <= wire
    decreases wire
  {
    hide Spend;
    if unread == 0 || wire == 0 {
      SpendEnd(Identity, size, have, unread, closing, wire, work, grants, decodings, k);
    } else {
      SpendStep(Identity, size, have, unread, closing, wire, work, grants, decodings, k);
      var a := Attempt(Identity, size, have, Min(wire, unread), work, grants(k), decodings(k));
      if a.result.Wrote? && a.result.n > 0 && a.written < work {
        IdentitySpend(size, have + a.written, unread - a.result.n, closing, wire - a.result.n, work - a.written,
                      grants, decodings, k + 1);
      }
    }
  }

  /** With a target that always takes something, an identity pump breaks before the first byte or not at all. */
  lemma {:induction false} SteadySpend(size: nat, have: nat, unread: nat, closing: bool, wire: nat, work: nat,
                                       grants: nat -> nat, decodings: nat -> Decoding, k: nat)
    requires forall i :: grants(i) > 0
    ensures var spending := Spend(Identity, size, have, unread, closing, wire, work, grants, decodings, k);
            && (spending.broke <==> unread > 0 && wire > 0 && have + Min(wire, unread) > size)
            && spending.written == if spending.broke then 0 else Min(Min(wire, unread), work)
    decreases wire
  {
    hide Spend;
    if unread == 0 || wire == 0 {
      SpendEnd(Identity, size, have, unread, closing, wire, work, grants, decodings, k);
    } else {
      SpendStep(Identity, size, have, unread, closing, wire, work, grants, decodings, k);
      var a := Attempt(Identity, size, have, Min(wire, unread), work, grants(k), decodings(k));
      if a.result.Wrote? && a.written < work {
        SteadySpend(size, have + a.written, unread - a.written, closing, wire - a.written, work - a.written, grants,
                    decodings, k + 1);
      }
    }
  }

  lemma {:induction false} SpendStep(encoding: Encoding, size: nat, have: nat, unread: nat, closing: bool, wire: nat,
                                     work: nat, grants: nat -> nat, decodings: nat -> Decoding, k: nat)
    requires unread > 0 && wire > 0
    ensures var spending := Spend(encoding, size, have, unread, closing, wire, work, grants, decodings, k);
            var a := Attempt(encoding, size, have, Min(wire, unread), work, grants(k), decodings(k));
            if a.result.WouldBlock? then spending == Spending(a.written, 0, false)
            else if a.result.Refused? || a.result.n == 0 then spending == Spending(a.written, 0, true)
            else if a.written == work then spending == Spending(a.written, a.result.n, false)
            else
              var rest := Spend(encoding, size, have + a.written, unread - a.result.n, closing, wire - a.result.n,
                                work - a.written, grants, decodings, k + 1);
              spending == Spending(a.written + rest.written, a.result.n + rest.consumed, rest.broke)
  {
    hide Attempt, Close;
  }

  lemma {:induction false} SpendEnd(encoding: Encoding, size: nat, have: nat, unread: nat, closing: bool, wire: nat,
                                    work: nat, grants: nat -> nat, decodings: nat -> Decoding, k: nat)
    requires unread == 0 || wire == 0
    ensures var spending := Spend(encoding, size, have, unread, closing, wire, work, grants, decodings, k);
            var a := Close(encoding, size, have, work, grants(k), decodings(k));
            spending == if unread == 0 && closing then Spending(a.written, 0, a.result.Refused?)
                        else Spending(0, 0, false)
  {
    hide Attempt, Close;
  }

  lemma {:induction false} CloseIdentity(size: nat, have: nat, work: nat, granted: nat, decoding: Decoding)
    ensures Close(Identity, size, have, work, granted, decoding) == Attempted(0, Wrote(0))
  {
  }

  lemma {:induction false} AttemptBlocks(size: nat, have: nat, input: nat, work: nat, granted: nat, decoding: Decoding)
    ensures Attempt(Identity, size, have, input, work, granted, decoding).result.WouldBlock? ==> work == 0
  {
  }

  class IncomingFile {
    const size: nat
    const encoding: Encoding
    /** The bound for a transfer that is not sealed. */
    const plainBound: nat
    const sink: ReceiveSink
    var seal: Option<InSeal>
    var wireReceived: nat
    var pendingWire: seq<Byte>
    var pendingOffset: nat
    var completeReceived: bool
    var decoderFinished: bool
    /** Every chunk accepted. */
    ghost var log: seq<Chunk>

    ghost predicate Valid()
      reads this, sink`target
    {
      && sink.Valid() && sink.expected == size
      && pendingOffset <= |pendingWire|
      && InOrder(log, seal.Some?) && wireReceived == WireTotal(log) && wireReceived <= WireBound()
      && (seal.Some? ==> seal.value.counter == |log|)
      && (encoding == Identity ==> sink.target + Unread() == Payloads(log))
      && (decoderFinished ==> completeReceived)
    }

    /** Opened bytes not handed to the decoder yet. */
    function Unread(): seq<Byte>
      requires pendingOffset <= |pendingWire|
      reads this`pendingWire, this`pendingOffset
    {
      pendingWire[pendingOffset..]
    }

    function WireBound(): nat
      reads this
    {
      if seal.Some? then seal.value.wireBound else plainBound
    }

    constructor (size: nat, encoding: Encoding, plainBound: nat, seal: Option<InSeal>)
      requires seal.Some? ==> seal.value.counter == 0
      ensures Valid() && this.size == size && this.encoding == encoding && this.plainBound == plainBound
      ensures this.seal == seal && log == [] && !completeReceived && !decoderFinished && fresh(sink)
      ensures sink.target == [] && Unread() == []
      ensures WireBound() == match seal case Some(sealed) => sealed.wireBound case None => plainBound
    {
      this.size, this.encoding, this.plainBound, this.seal := size, encoding, plainBound, seal;
      sink := new ReceiveSink(size);
      wireReceived, pendingWire, pendingOffset := 0, [], 0;
      completeReceived, decoderFinished := false, false;
      log := [];
    }

    /** The chunks the receiver takes: the next offset, within the bound, sealed under the running counter. */
    predicate Accepts(chunk: Chunk)
      reads this
    {
      && wireReceived == chunk.offset
      && chunk.offset + WireLen(chunk.packet) <= WireBound()
      && (seal.Some? ==> chunk.packet.Frame? && chunk.packet.counter == seal.value.counter)
    }

    /** What is recorded of a chunk: without a seal its bytes are taken as they are. */
    function Taken(chunk: Chunk): Chunk
      reads this`seal
    {
      if seal.Some? then chunk else Chunk(chunk.offset, Plain(Raw(chunk.packet)))
    }

    /** A chunk that is not accepted fails the transfer and changes nothing else. */
    method HandleChunk(chunk: Chunk) returns (accepted: bool)
      requires Valid()
      modifies this`pendingWire, this`pendingOffset, this`wireReceived, this`seal, this`log
      ensures Valid() && seal.Some? == old(seal).Some? && WireBound() == old(WireBound())
      ensures accepted == old(Accepts(chunk))
      ensures accepted ==> log == old(log) + [old(Taken(chunk))]
      ensures accepted ==> Unread() == old(Unread()) + old(Taken(chunk)).packet.data
      ensures !accepted ==> log == old(log) && Unread() == old(Unread())
    {
      hide InOrder, WireTotal, Payloads, Raw;
      if wireReceived != chunk.offset {
        return false;
      }
      var end := chunk.offset + WireLen(chunk.packet);
      if end > WireBound() {
        return false;
      }
      var taken := Taken(chunk);
      if seal.Some? {
        if !(chunk.packet.Frame? && chunk.packet.counter == seal.value.counter) {
          return false;
        }
        seal := Some(seal.value.(counter := seal.value.counter + 1));
      }
      if pendingOffset > 0 {
        pendingWire := pendingWire[pendingOffset..];
        pendingOffset := 0;
      }
      assert pendingWire == old(Unread());
      SentOn(sink.target, pendingWire, taken.packet.data);
      LogAppend(log, taken);
      InOrderAppend(log, taken, seal.Some?);
      pendingWire := pendingWire + taken.packet.data;
      assert pendingOffset == 0 && pendingWire[0..] == pendingWire;
      wireReceived := end;
      log := log + [taken];
      return true;
    }

    /** Everything has been received, handed over and written. */
    predicate ReadyToFinalize()
      reads this
    {
      completeReceived && decoderFinished && pendingOffset == |pendingWire|
    }

    method HandleComplete()
      requires Valid()
      modifies this`completeReceived
      ensures Valid() && completeReceived && log == old(log)
    {
      hide InOrder, WireTotal, Payloads;
      completeReceived := true;
    }

    // --- Writing out ------------------------------------------------------------------------

    /** One call into the decoder with `input`. */
    method Decode(input: seq<Byte>, granted: nat, decoding: Decoding) returns (result: Written)
      requires sink.Valid() && sink.expected == size && input != []
      modifies sink`target, sink`workBudget
      ensures sink.Valid() && old(sink.target) <= sink.target
      ensures |sink.target| - |old(sink.target)| == old(sink.workBudget) - sink.workBudget
      ensures Attempted(|sink.target| - |old(sink.target)|, result)
           == Attempt(encoding, size, |old(sink.target)|, |input|, old(sink.workBudget), granted, decoding)
      ensures encoding == Identity ==> sink.target == old(sink.target) + input[..if result.Wrote? then result.n else 0]
    {
      hide Poured;
      if encoding == Identity {
        result := sink.Write(input, granted);
        return;
      }
      result := WriteAll(granted, decoding.outputs);
      if result.Wrote? {
        result := if decoding.corrupt then Refused else Wrote(Min(decoding.consumed, |input|));
      }
    }

    /** Hands the decoder up to `limit` bytes of what is unread. */
    method Feed(limit: nat, granted: nat, decoding: Decoding) returns (result: Written)
      requires Valid() && pendingOffset < |pendingWire| && limit > 0
      modifies this`pendingOffset, sink`target, sink`workBudget
      ensures Valid() && pendingOffset <= |pendingWire| && old(sink.target) <= sink.target
      ensures |sink.target| - |old(sink.target)| == old(sink.workBudget) - sink.workBudget
      ensures Attempted(|sink.target| - |old(sink.target)|, result)
           == Attempt(encoding, size, |old(sink.target)|, Min(limit, |old(Unread())|), old(sink.workBudget), granted,
                      decoding)
      ensures |old(Unread())| - |Unread()| == if result.Wrote? then result.n else 0
    {
      hide InOrder, WireTotal, Payloads, Attempt;
      var input := pendingWire[pendingOffset..Min(pendingOffset + limit, |pendingWire|)];
      ghost var n := |input|;
      result := Decode(input, granted, decoding);
      ghost var taken := if result.Wrote? then result.n else 0;
      TakenOn(old(sink.target), Unread(), taken);
      SliceOn(pendingWire, pendingOffset, pendingOffset + n, taken);
      if result.Wrote? {
        pendingOffset := pendingOffset + result.n;
      }
    }

    /**
     * Feeds the decoder within both budgets, whatever the target and the decompressor do. A pump that breaks off
     * hands the decode budget back as it was, whatever it has written.
     */
    method Pump(wireBudget: nat, decodedBudget: nat, grants: nat -> nat, decodings: nat -> Decoding)
      returns (result: Pumped, wireLeft: nat, decodedLeft: nat)
      requires Valid()
      modifies this`pendingWire, this`pendingOffset, this`decoderFinished, sink
      ensures Valid() && log == old(log) && old(sink.target) <= sink.target
      ensures wireLeft <= wireBudget && |old(Unread())| - |Unread()| == wireBudget - wireLeft
      ensures |sink.target| - |old(sink.target)| <= decodedBudget
      ensures decodedLeft == if result.Broken? then decodedBudget
                             else decodedBudget - (|sink.target| - |old(sink.target)|)
      ensures Spending(|sink.target| - |old(sink.target)|, wireBudget - wireLeft, result.Broken?)
           == old(Planned(wireBudget, decodedBudget, grants, decodings))
      ensures result.Fine? && decoderFinished ==> |sink.target| == size
      ensures result.Mismatched? ==> decoderFinished && |sink.target| != size
      ensures decoderFinished && !old(decoderFinished) ==> completeReceived && Unread() == []
      ensures encoding == Identity && result.Fine? && decodedLeft > 0 && (wireLeft > 0 || Unread() == []) ==>
                Unread() == [] && (completeReceived ==> decoderFinished)
      ensures old(Honest()) ==> Honest() && ((forall k :: grants(k) > 0) ==> result.Fine?)
      ensures old(Honest()) && (forall k :: grants(k) > 0) && |old(Unread())| < Min(wireBudget, decodedBudget) ==>
                Unread() == [] && (completeReceived ==> decoderFinished)
    {
      hide InOrder, WireTotal, Payloads, Spend, Poured, Attempt;
      if encoding == Identity && forall k :: grants(k) > 0 {
        SteadySpend(size, |sink.target|, |Unread()|, Closing(), wireBudget, decodedBudget, grants, decodings, 0);
      }
      sink.workBudget := decodedBudget;
      var broke;
      broke, wireLeft := Work(wireBudget, grants, decodings);
      if broke {
        return Broken, wireLeft, decodedBudget;
      }
      return if decoderFinished && |sink.target| != size then Mismatched else Fine, wireLeft, sink.workBudget;
    }

    /** Drains what there is and closes the decoder if that was all. */
    method Work(wireBudget: nat, grants: nat -> nat, decodings: nat -> Decoding) returns (broke: bool, wireLeft: nat)
      requires Valid()
      modifies this`pendingWire, this`pendingOffset, this`decoderFinished, sink`target, sink`workBudget
      ensures Valid() && pendingOffset <= |pendingWire| && old(sink.target) <= sink.target
      ensures wireLeft <= wireBudget && |old(Unread())| - |Unread()| == wireBudget - wireLeft
      ensures |sink.target| - |old(sink.target)| == old(sink.workBudget) - sink.workBudget
      ensures Spending(|sink.target| - |old(sink.target)|, wireBudget - wireLeft, broke)
           == old(Planned(wireBudget, sink.workBudget, grants, decodings))
      ensures old(decoderFinished) ==> decoderFinished
      ensures decoderFinished && !old(decoderFinished) ==> completeReceived && Unread() == []
      ensures encoding == Identity && !broke && sink.workBudget > 0 && (wireLeft > 0 || Unread() == []) ==>
                Unread() == [] && (completeReceived ==> decoderFinished)
    {
      hide Valid, Spend, Close;
      ValidOffset();
      var step, stopped;
      ghost var rest;
      step, stopped, broke, wireLeft, rest := Drain(wireBudget, grants, decodings);
      if !broke && !stopped {
        SpendEnd(encoding, size, |sink.target|, |Unread()|, Closing(), wireLeft, sink.workBudget, grants, decodings,
                 step);
        CloseIdentity(size, |sink.target|, sink.workBudget, grants(step), decodings(step));
        broke := FinishDecoder(grants(step), decodings(step));
      }
    }

    lemma {:induction false} ValidOffset()
      requires Valid()
      ensures pendingOffset <= |pendingWire|
    {
    }

    ghost predicate Closing()
      reads this`completeReceived, this`decoderFinished
    {
      completeReceived && !decoderFinished
    }

    /** What a pump is going to come to. */
    ghost function Planned(wireBudget: nat, decodedBudget: nat, grants: nat -> nat,
                           decodings: nat -> Decoding): Spending
      requires Valid()
      reads this, sink`target
    {
      Spend(encoding, size, |sink.target|, |Unread()|, Closing(), wireBudget, decodedBudget, grants, decodings, 0)
    }

    /** Hands over bytes until none are left, a budget is spent or something fails; `rest` is what remains planned. */
    method Drain(wireBudget: nat, grants: nat -> nat, decodings: nat -> Decoding)
      returns (step: nat, stopped: bool, broke: bool, wireLeft: nat, ghost rest: Spending)
      requires Valid() && pendingOffset <= |pendingWire|
      modifies this`pendingOffset, sink`target, sink`workBudget
      ensures Valid() && pendingOffset <= |pendingWire| && old(sink.target) <= sink.target
      ensures wireLeft <= wireBudget && |old(Unread())| - |Unread()| == wireBudget - wireLeft
      ensures |sink.target| - |old(sink.target)| == old(sink.workBudget) - sink.workBudget
      ensures !broke && !stopped ==> Unread() == [] || wireLeft == 0
      ensures old(Planned(wireBudget, sink.workBudget, grants, decodings)) ==
              Spending(|sink.target| - |old(sink.target)| + rest.written, wireBudget - wireLeft + rest.consumed,
                       rest.broke)
      ensures if broke || stopped then rest == Spending(0, 0, broke)
              else rest == Spend(encoding, size, |sink.target|, |Unread()|, Closing(), wireLeft, sink.workBudget,
                                 grants, decodings, step)
      ensures encoding == Identity && stopped ==> sink.workBudget == 0
    {
      hide Valid, Spend, Attempt;
      step, stopped, broke, wireLeft := 0, false, false, wireBudget;
      ghost var plan := Planned(wireBudget, sink.workBudget, grants, decodings);
      rest := plan;
      while pendingOffset < |pendingWire| && wireLeft > 0
        invariant Valid() && pendingOffset <= |pendingWire| && old(sink.target) <= sink.target
        invariant wireLeft <= wireBudget && !stopped && !broke
        invariant |old(Unread())| - |Unread()| == wireBudget - wireLeft
        invariant |sink.target| - |old(sink.target)| == old(sink.workBudget) - sink.workBudget
        invariant rest == Spend(encoding, size, |sink.target|, |Unread()|, Closing(), wireLeft, sink.workBudget, grants,
                                decodings, step)
        invariant plan ==
                  Spending(|sink.target| - |old(sink.target)| + rest.written, wireBudget - wireLeft + rest.consumed,
                           rest.broke)
        decreases wireLeft
      {
        SpendStep(encoding, size, |sink.target|, |Unread()|, Closing(), wireLeft, sink.workBudget, grants, decodings,
                  step);
        AttemptBlocks(size, |sink.target|, Min(wireLeft, |Unread()|), sink.workBudget, grants(step), decodings(step));
        var result := Feed(wireLeft, grants(step), decodings(step));
        if result.WouldBlock? {
          rest := Spending(0, 0, false);
          return step, true, false, wireLeft, rest;
        }
        if result.Refused? || result.n == 0 {
          rest := Spending(0, 0, true);
          return step, false, true, wireLeft, rest;
        }
        wireLeft := wireLeft - result.n;
        step := step + 1;
        if sink.workBudget == 0 {
          rest := Spending(0, 0, false);
          return step, true, false, wireLeft, rest;
        }
        rest := Spend(encoding, size, |sink.target|, |Unread()|, Closing(), wireLeft, sink.workBudget, grants,
                      decodings, step);
      }
    }

    /** What an honest sender leaves: never more than the declared size, and all of it before it says complete. */
    ghost predicate Honest()
      requires pendingOffset <= |pendingWire|
      reads this`pendingWire, this`pendingOffset, this`log, this`completeReceived, this`decoderFinished
    {
      && encoding == Identity && |Payloads(log)| <= size
      && (completeReceived ==> |Payloads(log)| == size)
      && (decoderFinished ==> Unread() == [])
    }

    /** With every byte handed over and the sender done, closes the decoder. */
    method FinishDecoder(granted: nat, decoding: Decoding) returns (failed: bool)
      requires Valid()
      modifies this`pendingWire, this`pendingOffset, this`decoderFinished, sink`target, sink`workBudget
      ensures Valid() && pendingOffset <= |pendingWire| && Unread() == old(Unread()) && old(sink.target) <= sink.target
      ensures |sink.target| - |old(sink.target)| == old(sink.workBudget) - sink.workBudget
      ensures var a := Close(encoding, size, |old(sink.target)|, old(sink.workBudget), granted, decoding);
              if old(Closing()) && Unread() == []
              then |sink.target| == |old(sink.target)| + a.written && failed == a.result.Refused?
                   && decoderFinished == a.result.Wrote?
              else sink.target == old(sink.target) && !failed && decoderFinished == old(decoderFinished)
    {
      hide InOrder, WireTotal, Payloads, Poured;
      if pendingOffset == |pendingWire| && pendingOffset != 0 {
        pendingWire, pendingOffset := [], 0;
      }
      if pendingWire != [] || !completeReceived || decoderFinished {
        return false;
      }
      if encoding == Identity {
        decoderFinished := true;
        return false;
      }
      var result := WriteAll(granted, decoding.outputs);
      if decoding.corrupt && result.Wrote? {
        return true;
      }
      decoderFinished := result.Wrote?;
      return result.Refused?;
    }

    /** The writes of the decompressor, up to the first that fails. */
    method WriteAll(granted: nat, outputs: seq<seq<Byte>>) returns (result: Written)
      requires sink.Valid()
      modifies sink`target, sink`workBudget
      ensures sink.Valid() && old(sink.target) <= sink.target
      ensures |sink.target| - |old(sink.target)| == old(sink.workBudget) - sink.workBudget
      ensures Attempted(|sink.target| - |old(sink.target)|, result)
           == Poured(sink.expected, |old(sink.target)|, old(sink.workBudget), granted, outputs)
    {
      assert outputs[0..] == outputs;
      for i := 0 to |outputs|
        invariant sink.Valid() && old(sink.target) <= sink.target
        invariant |sink.target| - |old(sink.target)| == old(sink.workBudget) - sink.workBudget
        invariant var rest := Poured(sink.expected, |sink.target|, sink.workBudget, granted, outputs[i..]);
                  Poured(sink.expected, |old(sink.target)|, old(sink.workBudget), granted, outputs) ==
                  Attempted(|sink.target| - |old(sink.target)| + rest.written, rest.result)
      {
        assert outputs[i..][1..] == outputs[i + 1..];
        var wrote := sink.Write(outputs[i], granted);
        if !wrote.Wrote? {
          return wrote;
        }
      }
      return Wrote(0);
    }
  }

  lemma {:induction false} SliceOn(wire: seq<Byte>, from: nat, to: nat, n: nat)
    requires from <= to <= |wire| && n <= to - from
    ensures wire[from..][..n] == wire[from..to][..n] && wire[from..][n..] == wire[from + n..]
  {
  }

  lemma {:induction false} TakenOn(target: seq<Byte>, unread: seq<Byte>, n: nat)
    requires n <= |unread|
    ensures (target + unread[..n]) + unread[n..] == target + unread
  {
  }
}
