/** Server controls in wire order, some of them handled by the MLS actor while others wait for it. */
module Controls {
  import opened Arithmetic

  const MAX_SERVER_CONTROLS_PER_ITERATION: nat := 64

  /** A decoded control; `mls` ones go to the actor. */
  datatype Control = Control(id: nat, mls: bool)

  datatype Frame = History | Carries(control: Control)

  datatype Input = Server(generation: nat, control: Control) | OtherInput

  datatype Output = ServerComplete(generation: nat) | OtherOutput

  function Carried(frame: Frame): seq<Control> {
    if frame.Carries? then [frame.control] else []
  }

  /** The controls among received frames. */
  function ControlsOf(frames: seq<Frame>): seq<Control> {
    if frames == [] then [] else Carried(frames[0]) + ControlsOf(frames[1..])
  }

  lemma {:induction false} ControlsPush(frames: seq<Frame>, frame: Frame)
    ensures ControlsOf(frames + [frame]) == ControlsOf(frames) + Carried(frame)
  {
    hide Carried;
    if frames == [] {
      assert frames + [frame] == [frame] && [frame][1..] == [];
      assert Carried(frame) + [] == [] + Carried(frame);
    } else {
      var front, rest := Carried(frames[0]), frames[1..];
      assert (frames + [frame])[1..] == rest + [frame];
      ControlsPush(rest, frame);
      assert front + (ControlsOf(rest) + Carried(frame)) == (front + ControlsOf(rest)) + Carried(frame);
    }
  }

  function MlsCount(controls: seq<Control>): nat {
    if controls == [] then 0
    else MlsCount(controls[..|controls| - 1]) + if controls[|controls| - 1].mls then 1 else 0
  }

  /** Server controls of this session the actor still owes an answer for. */
  function Owed(inputs: seq<Input>, generation: nat): nat {
    if inputs == [] then 0
    else Counts(inputs[0], generation) + Owed(inputs[1..], generation)
  }

  function Counts(input: Input, generation: nat): nat {
    if input.Server? && input.generation == generation then 1 else 0
  }

  lemma {:induction false} OwedPush(inputs: seq<Input>, input: Input, generation: nat)
    ensures Owed(inputs + [input], generation) == Owed(inputs, generation) + Counts(input, generation)
  {
    if inputs != [] {
      assert (inputs + [input])[1..] == inputs[1..] + [input];
      OwedPush(inputs[1..], input, generation);
    }
  }

  /** The controls among the inputs of this session, in order. */
  function Passed(inputs: seq<Input>, generation: nat): seq<Control> {
    if inputs == [] then [] else PassedOne(inputs[0], generation) + Passed(inputs[1..], generation)
  }

  function PassedOne(input: Input, generation: nat): seq<Control> {
    if input.Server? && input.generation == generation then [input.control] else []
  }

  lemma {:induction false} PassedPush(inputs: seq<Input>, input: Input, generation: nat)
    ensures Passed(inputs + [input], generation) == Passed(inputs, generation) + PassedOne(input, generation)
  {
    hide PassedOne;
    if inputs == [] {
      assert inputs + [input] == [input] && [input][1..] == [];
    } else {
      assert (inputs + [input])[1..] == inputs[1..] + [input];
      PassedPush(inputs[1..], input, generation);
    }
  }

  /** The controls that are the actor's, in order. */
  function Mls(controls: seq<Control>): seq<Control> {
    if controls == [] then []
    else
      var last := controls[|controls| - 1];
      Mls(controls[..|controls| - 1]) + if last.mls then [last] else []
  }

  lemma {:induction false} MlsPush(controls: seq<Control>, control: Control)
    ensures Mls(controls + [control]) == if control.mls then Mls(controls) + [control] else Mls(controls)
  {
    assert (controls + [control])[..|controls|] == controls;
  }

  /** What the actor has been told, is about to be told and waits to be told are the MLS controls handled. */
  ghost predicate Delivered(taken: seq<Control>, inputs: seq<Input>, handled: seq<Control>, generation: nat) {
    taken + Passed(inputs, generation) == Mls(handled)
  }

  lemma {:induction false} DeliveredTake(taken: seq<Control>, inputs: seq<Input>, handled: seq<Control>,
                                         generation: nat)
    requires inputs != [] && Delivered(taken, inputs, handled, generation)
    ensures Delivered(taken + PassedOne(inputs[0], generation), inputs[1..], handled, generation)
  {
    hide PassedOne, Mls;
  }

  lemma {:induction false} DeliveredPush(taken: seq<Control>, inputs: seq<Input>, handled: seq<Control>,
                                         generation: nat, input: Input, control: Control)
    requires Delivered(taken, inputs, handled, generation)
    requires if control.mls then input == Server(generation, control) else input.OtherInput?
    ensures Delivered(taken, inputs + [input], handled + [control], generation)
    ensures input.OtherInput? ==> Delivered(taken, inputs + [input], handled, generation)
  {
    hide Mls;
    PassedPush(inputs, input, generation);
    MlsPush(handled, control);
  }

  lemma {:induction false} DeliveredOwn(taken: seq<Control>, inputs: seq<Input>, handled: seq<Control>, generation: nat,
                                        control: Control)
    requires Delivered(taken, inputs, handled, generation) && !control.mls
    ensures Delivered(taken, inputs, handled + [control], generation)
  {
    hide Passed;
    MlsPush(handled, control);
  }

  /** Answers of this session not read yet. */
  function Reported(outputs: seq<Output>, generation: nat): nat {
    if outputs == [] then 0 else Reports(outputs[0], generation) + Reported(outputs[1..], generation)
  }

  function Reports(output: Output, generation: nat): nat {
    if output == ServerComplete(generation) then 1 else 0
  }

  lemma {:induction false} ReportedPush(outputs: seq<Output>, output: Output, generation: nat)
    ensures Reported(outputs + [output], generation) == Reported(outputs, generation) + Reports(output, generation)
  {
    if outputs != [] {
      assert (outputs + [output])[1..] == outputs[1..] + [output];
      ReportedPush(outputs[1..], output, generation);
    }
  }

  function Optional<T>(x: Option<T>): seq<T> {
    if x.Some? then [x.value] else []
  }

  class ControlPath {
    const generation: nat
    var inbox: seq<Frame>
    var deferred: Option<Control>
    var serverPending: nat
    /** An actor input its mailbox had no room for. */
    var pendingInput: Option<Input>
    var mailbox: seq<Input>
    var outputs: seq<Output>
    var handled: seq<Control>
    ghost var received: seq<Control>
    /** Answers counted so far, and how many there were when each control was handled. */
    ghost var completed: nat
    ghost var completedAt: seq<nat>
    /** The server controls of this session the actor has taken. */
    ghost var taken: seq<Control>

    /** What the actor will see, in order. */
    ghost function Inputs(): seq<Input>
      reads this`mailbox, this`pendingInput
    {
      mailbox + Optional(pendingInput)
    }

    /** The actor gets exactly the MLS controls handled, in wire order. */
    ghost predicate Told()
      reads this
    {
      Delivered(taken, Inputs(), handled, generation)
    }

    /** Every control received is handled, deferred or still in the buffer, in wire order. */
    ghost predicate Conserved()
      reads this
    {
      && handled + Optional(deferred) + ControlsOf(inbox) == received
      && (deferred.Some? ==> !deferred.value.mls)
    }

    /** The counter is what the actor owes plus what it has answered unread. */
    ghost predicate Counted()
      reads this
    {
      && serverPending == Owed(Optional(pendingInput), generation) + Owed(mailbox, generation)
                          + Reported(outputs, generation)
      && MlsCount(handled) == completed + serverPending
    }

    /** Each control the worker handled itself came after the answers to all MLS controls before it. */
    ghost predicate Waited()
      reads this
    {
      && |completedAt| == |handled|
      && forall i :: 0 <= i < |handled| && !handled[i].mls ==> completedAt[i] == MlsCount(handled[..i])
    }

    ghost predicate Valid()
      reads this
    {
      Conserved() && Counted() && Waited() && Told()
    }

    constructor (generation: nat, left: seq<Output>)
      requires Reported(left, generation) == 0
      ensures Valid() && received == [] && handled == [] && taken == []
    {
      this.generation := generation;
      inbox, deferred, serverPending, pendingInput, mailbox, outputs := [], None, 0, None, [], left;
      handled, received, completed, completedAt, taken := [], [], 0, [], [];
    }

    method Receive(frame: Frame)
      requires Valid()
      modifies this`inbox, this`received
      ensures Valid() && received == old(received) + Carried(frame)
    {
      hide ControlsOf, MlsCount, Owed, Reported;
      ControlsPush(inbox, frame);
      received := received + Carried(frame);
      inbox := inbox + [frame];
    }

    /** The actor takes its next input and answers server controls, under the generation they came with. */
    method ActorStep()
      requires Valid() && mailbox != []
      modifies this`mailbox, this`outputs, this`taken
      ensures Valid() && handled == old(handled) && mailbox == old(mailbox)[1..]
      ensures taken == old(taken) + PassedOne(old(mailbox)[0], generation)
      ensures outputs ==
              if old(mailbox)[0].Server? then old(outputs) + [ServerComplete(old(mailbox)[0].generation)]
              else old(outputs)
    {
      hide ControlsOf, MlsCount, Reported, Delivered;
      DeliveredTake(taken, Inputs(), handled, generation);
      assert Inputs()[1..] == mailbox[1..] + Optional(pendingInput);
      var input := mailbox[0];
      taken := taken + PassedOne(input, generation);
      mailbox := mailbox[1..];
      if input.Server? {
        ReportedPush(outputs, ServerComplete(input.generation), generation);
        outputs := outputs + [ServerComplete(input.generation)];
      }
    }

    method TrySend(input: Input, room: bool) returns (sent: bool)
      modifies this`mailbox
      ensures sent == room && mailbox == if room then old(mailbox) + [input] else old(mailbox)
    {
      if room {
        mailbox := mailbox + [input];
      }
      return room;
    }

    /** Hands an input to the actor or parks it; with one parked already there is no place left. */
    method QueueInput(input: Input, room: bool) returns (ok: bool)
      requires Conserved() && Waited()
      modifies this`mailbox, this`pendingInput
      ensures Conserved() && Waited()
      ensures ok <==> old(pendingInput).None?
      ensures ok ==> Inputs() == old(Inputs()) + [input] && (pendingInput.None? <==> room)
      ensures ok ==>
                Owed(Optional(pendingInput), generation) + Owed(mailbox, generation)
                == old(Owed(mailbox, generation)) + Counts(input, generation)
      ensures !ok ==> pendingInput == old(pendingInput) && mailbox == old(mailbox)
    {
      hide ControlsOf, MlsCount, Owed, Reported, Delivered;
      if pendingInput.Some? {
        return false;
      }
      OwedPush(mailbox, input, generation);
      OwedOne(input, generation);
      var sent := TrySend(input, room);
      if !sent {
        pendingInput := Some(input);
      }
      return true;
    }

    /** A command of the user's goes to the same actor. */
    method QueueCommand(room: bool) returns (ok: bool)
      requires Valid()
      modifies this`mailbox, this`pendingInput
      ensures Valid() && (ok <==> old(pendingInput).None?)
      ensures Inputs() == if ok then old(Inputs()) + [OtherInput] else old(Inputs())
    {
      hide ControlsOf, MlsCount, Owed, Reported, Delivered;
      OwedNone(generation);
      DeliveredPush(taken, Inputs(), handled, generation, OtherInput, Control(0, false));
      ok := QueueInput(OtherInput, room);
    }

    method FlushPendingInput(room: bool)
      requires Valid()
      modifies this`mailbox, this`pendingInput
      ensures Valid() && handled == old(handled) && Inputs() == old(Inputs())
      ensures pendingInput == if room then None else old(pendingInput)
    {
      hide ControlsOf, MlsCount, Owed, Reported, Delivered;
      if pendingInput.None? {
        return;
      }
      var input := pendingInput.value;
      OwedPush(mailbox, input, generation);
      OwedOne(input, generation);
      OwedNone(generation);
      pendingInput := None;
      var sent := TrySend(input, room);
      if !sent {
        pendingInput := Some(input);
      }
      assert Inputs() == old(Inputs());
    }

    /** Reads the actor's answers; those of another generation count for nothing. */
    method DrainOutputs(room: bool, again: bool)
      requires Valid()
      modifies this`mailbox, this`pendingInput, this`outputs, this`serverPending, this`completed
      ensures Valid() && handled == old(handled) && outputs == [] && Inputs() == old(Inputs())
      ensures pendingInput == if room || again then None else old(pendingInput)
      ensures completed == old(completed) + old(Reported(outputs, generation))
    {
      hide ControlsOf, MlsCount, Owed, Delivered;
      FlushPendingInput(room);
      while outputs != []
        invariant Valid() && handled == old(handled) && Inputs() == old(Inputs())
        invariant pendingInput == if room then None else old(pendingInput)
        invariant completed + Reported(outputs, generation) == old(completed) + old(Reported(outputs, generation))
        decreases |outputs|
      {
        var output := outputs[0];
        outputs := outputs[1..];
        if output == ServerComplete(generation) {
          completed := completed + 1;
          serverPending := SatSub(serverPending, 1);
        }
      }
      FlushPendingInput(again);
    }

    // --- Handling in wire order --------------------------------------------------------------

    /** Everything up to `control` is accounted for, with `control` in hand. */
    ghost predicate Holding(control: Control)
      reads this
    {
      && Counted() && Waited() && Told() && deferred.None? && pendingInput.None?
      && handled + [control] + ControlsOf(inbox) == received
    }

    /** Handles one control: the actor's ones are counted and passed on, the others done here. */
    method HandleControl(control: Control, raises: bool, room: bool) returns (ok: bool)
      requires Holding(control) && (!control.mls ==> serverPending == 0)
      modifies this`handled, this`completedAt, this`serverPending, this`mailbox, this`pendingInput
      ensures ok && Valid() && handled == old(handled) + [control]
      ensures Inputs() == old(Inputs()) + if control.mls then [Server(generation, control)]
                                          else if raises then [OtherInput] else []
      ensures serverPending == old(serverPending) + if control.mls then 1 else 0
      ensures room ==> pendingInput.None?
    {
      hide ControlsOf, Owed, Reported, Delivered;
      if control.mls || raises {
        DeliveredPush(taken, Inputs(), handled, generation,
                      if control.mls then Server(generation, control) else OtherInput, control);
      } else {
        DeliveredOwn(taken, Inputs(), handled, generation, control);
      }
      OwedNone(generation);
      HandledNext(handled, completedAt, control, completed);
      assert handled + [control] + [] == handled + [control];
      handled := handled + [control];
      completedAt := completedAt + [completed];
      if control.mls {
        serverPending := serverPending + 1;
        ok := QueueInput(Server(generation, control), room);
      } else if raises {
        ok := QueueInput(OtherInput, room);
      } else {
        ok := true;
      }
    }

    /** The control put aside, or else the next one in the buffer; a history chunk is done on the spot. */
    method NextControl() returns (control: Option<Control>)
      requires Valid() && pendingInput.None? && (deferred.Some? || inbox != [])
      modifies this`inbox, this`deferred
      ensures deferred.None?
      ensures control.Some? ==> Holding(control.value)
      ensures control.None? ==> Valid() && old(deferred).None?
      ensures if old(deferred).Some? then control == old(deferred) && inbox == old(inbox)
              else inbox == old(inbox)[1..] && Optional(control) == Carried(old(inbox)[0])
    {
      hide ControlsOf, Owed, Reported, MlsCount, Delivered;
      if deferred.Some? {
        control := deferred;
        deferred := None;
        return;
      }
      TakeFrame(inbox);
      var frame := inbox[0];
      inbox := inbox[1..];
      control := if frame.Carries? then Some(frame.control) else None;
    }

    /** Keeps a control for later; it stays the next one. */
    method PutAside(control: Control)
      requires Holding(control) && !control.mls
      modifies this`deferred
      ensures Valid() && deferred == Some(control)
    {
      hide ControlsOf, Owed, Reported, MlsCount, Delivered;
      deferred := Some(control);
    }

    /**
     * Works through the buffer. A control for the worker that arrives while the actor still owes answers is put
     * aside, and nothing after it is touched; `stops` is when the file budgets run out. It goes on until there is
     * nothing left, one is put aside, an input finds no room, or it has done enough.
     */
    method ProcessServerControls(rooms: nat -> bool, raises: Control -> bool, stops: nat -> bool)
      requires Valid()
      modifies this`inbox, this`deferred, this`handled, this`completedAt, this`serverPending, this`mailbox,
               this`pendingInput
      ensures Valid() && old(handled) <= handled
      ensures old(serverPending) == 0 && old(pendingInput).None? && !stops(0) ==>
                old(handled) + Optional(old(deferred)) <= handled
      ensures old(serverPending) != 0 || old(pendingInput).Some? ==> handled == old(handled) && inbox == old(inbox)
      ensures deferred.Some? ==> serverPending != 0 || stops(0) || old(pendingInput).Some?
      ensures var n := |old(inbox)| + |Optional(old(deferred))| - |inbox| - |Optional(deferred)|;
              && 0 <= n <= 64
              && (old(serverPending) == 0 && old(pendingInput).None? ==>
                    || n == 64 || stops(n) || pendingInput.Some?
                    || (if deferred.Some? then serverPending != 0 else inbox == []))
    {
      hide Valid, Holding;
      if serverPending != 0 || pendingInput.Some? {
        return;
      }
      var n := 0;
      while n < MAX_SERVER_CONTROLS_PER_ITERATION && !stops(n)
        invariant Valid() && pendingInput.None? && n <= MAX_SERVER_CONTROLS_PER_ITERATION
        invariant n == |old(inbox)| + |Optional(old(deferred))| - |inbox| - |Optional(deferred)|
        invariant n == 0 ==> handled == old(handled) && deferred == old(deferred) && serverPending == 0
        invariant n > 0 ==> deferred.None? && old(handled) + Optional(old(deferred)) <= handled
        decreases MAX_SERVER_CONTROLS_PER_ITERATION - n
      {
        if deferred.None? && inbox == [] {
          break;
        }
        var next := NextControl();
        if next.None? {
          n := n + 1;
          continue;
        }
        var control := next.value;
        if serverPending != 0 && !control.mls {
          PutAside(control);
          break;
        }
        var ok := HandleControl(control, raises(control), rooms(n));
        n := n + 1;
        if pendingInput.Some? {
          break;
        }
      }
    }
  }

  /**
   * In every reachable state controls were handled in the order they came, each of the worker's own after the
   * answers to every MLS control before it, and the actor has taken the MLS controls in that same order.
   */
  lemma {:induction false} HandledInWireOrder(path: ControlPath, i: nat)
    requires path.Valid() && i < |path.handled|
    ensures i < |path.received| && path.handled[i] == path.received[i]
    ensures !path.handled[i].mls ==> path.completedAt[i] == MlsCount(path.received[..i])
    ensures |path.received| == |path.handled| + |Optional(path.deferred)| + |ControlsOf(path.inbox)|
    ensures path.taken <= Mls(path.received[..|path.handled|])
  {
    hide MlsCount, ControlsOf, Mls, Passed;
    assert path.received[..|path.handled|] == path.handled;
    assert path.received[..i] == path.handled[..i];
  }

  lemma {:induction false} TakeFrame(inbox: seq<Frame>)
    requires inbox != []
    ensures ControlsOf(inbox) == Carried(inbox[0]) + ControlsOf(inbox[1..])
  {
  }

  lemma {:induction false} HandledNext(handled: seq<Control>, completedAt: seq<nat>, control: Control, completed: nat)
    ensures MlsCount(handled + [control]) == MlsCount(handled) + if control.mls then 1 else 0
    ensures (handled + [control])[..|handled|] == handled
    ensures forall i :: 0 <= i < |handled| ==> (handled + [control])[..i] == handled[..i]
  {
    assert (handled + [control])[..|handled|] == handled;
  }

  lemma {:induction false} OwedOne(input: Input, generation: nat)
    ensures Owed([input], generation) == Counts(input, generation) && Owed([], generation) == 0
  {
    assert [input][1..] == [];
  }

  lemma {:induction false} OwedNone(generation: nat)
    ensures Owed([], generation) == 0
  {
  }
}
