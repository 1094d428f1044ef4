/** The two queues a command passes through: the channel, and the wait for an authenticated session. */
module Commands {
  import opened Arithmetic

  const MAX_COMMANDS_PER_ITERATION: nat := 8

  datatype Command = Command(id: nat, requiresAuthenticatedSession: bool)

  datatype Drain = Empty | HitLimit

  /** What the session was like when a command was handled. */
  datatype Moment = Moment(ready: bool, blocked: bool)

  /** The commands that need an authenticated session, in order. */
  function Gated(commands: seq<Command>): seq<Command> {
    if commands == [] then []
    else
      var last := commands[|commands| - 1];
      Gated(commands[..|commands| - 1]) + if last.requiresAuthenticatedSession then [last] else []
  }

  lemma {:induction false} GatedConcat(a: seq<Command>, b: seq<Command>)
    ensures Gated(a + b) == Gated(a) + Gated(b)
  {
    if b == [] {
      assert a + b == a;
    } else {
      assert (a + b)[..|a + b| - 1] == a + b[..|b| - 1];
      GatedConcat(a, b[..|b| - 1]);
    }
  }

  lemma {:induction false} GatedOne(c: Command)
    ensures Gated([c]) == if c.requiresAuthenticatedSession then [c] else []
  {
    assert [c][..0] == [];
  }

  lemma {:induction false} GatedFront(commands: seq<Command>)
    requires commands != []
    ensures Gated(commands) == Gated([commands[0]]) + Gated(commands[1..])
    ensures multiset(commands) == multiset([commands[0]]) + multiset(commands[1..])
  {
    assert commands == [commands[0]] + commands[1..];
    GatedConcat([commands[0]], commands[1..]);
  }

  /** Where every submitted command is: gated ones in submission order, and none lost or doubled. */
  ghost predicate Conserved(handled: seq<Command>, pending: seq<Command>, channel: seq<Command>,
                            submitted: seq<Command>) {
    && Gated(handled) + Gated(pending) + Gated(channel) == Gated(submitted)
    && multiset(handled) + multiset(pending) + multiset(channel) == multiset(submitted)
  }

  lemma {:induction false} HandledFromPending(handled: seq<Command>, pending: seq<Command>, channel: seq<Command>,
                                              submitted: seq<Command>)
    requires Conserved(handled, pending, channel, submitted) && pending != []
    ensures Conserved(handled + [pending[0]], pending[1..], channel, submitted)
  {
    hide Gated;
    GatedFront(pending);
    GatedConcat(handled, [pending[0]]);
  }

  lemma {:induction false} Deferred(handled: seq<Command>, pending: seq<Command>, channel: seq<Command>,
                                    submitted: seq<Command>)
    requires Conserved(handled, pending, channel, submitted) && channel != []
    ensures Conserved(handled, pending + [channel[0]], channel[1..], submitted)
  {
    hide Gated;
    GatedFront(channel);
    GatedConcat(pending, [channel[0]]);
  }

  /** A command may pass the waiting ones only if none of those is gated, or it is not. */
  lemma {:induction false} HandledFromChannel(handled: seq<Command>, pending: seq<Command>, channel: seq<Command>,
                                              submitted: seq<Command>)
    requires Conserved(handled, pending, channel, submitted) && channel != []
    requires pending == [] || !channel[0].requiresAuthenticatedSession
    ensures Conserved(handled + [channel[0]], pending, channel[1..], submitted)
  {
    hide Gated;
    GatedOne(channel[0]);
    GatedNothing();
    GatedFront(channel);
    GatedConcat(handled, [channel[0]]);
    Overtakes(Gated(handled), Gated([channel[0]]), Gated(pending), Gated(channel[1..]));
  }

  lemma {:induction false} Overtakes<T>(a: seq<T>, b: seq<T>, c: seq<T>, d: seq<T>)
    requires b == [] || c == []
    ensures (a + b) + c + d == a + c + (b + d)
  {
    if b == [] {
      assert a + b == a && b + d == d;
    } else {
      assert (a + b) + c == a + b && a + c == a;
    }
  }

  lemma {:induction false} Submitted(handled: seq<Command>, pending: seq<Command>, channel: seq<Command>,
                                     submitted: seq<Command>, c: Command)
    requires Conserved(handled, pending, channel, submitted)
    ensures Conserved(handled, pending, channel + [c], submitted + [c])
  {
    hide Gated;
    GatedConcat(channel, [c]);
    GatedConcat(submitted, [c]);
  }

  /** The commands that need no session, in order. */
  function Free(commands: seq<Command>): seq<Command> {
    if commands == [] then []
    else
      var last := commands[|commands| - 1];
      Free(commands[..|commands| - 1]) + if last.requiresAuthenticatedSession then [] else [last]
  }

  /**
   * What became of received commands. In a ready session they are handled in order, and wait only behind one that
   * blocked; otherwise exactly the gated ones wait, until something blocks.
   */
  ghost predicate Sorted(received: seq<Command>, done: seq<Command>, waiting: seq<Command>, ready: bool,
                         blocked: bool) {
    && (ready ==> done + waiting == received && (received != [] ==> done != []) && (!blocked ==> waiting == []))
    && (!ready ==> Gated(done) == [])
    && (!ready && !blocked ==> done == Free(received) && waiting == Gated(received))
    && |done| + |waiting| == |received| && (received == [] ==> !blocked)
  }

  lemma {:induction false} SortedNothing(ready: bool)
    ensures Sorted([], [], [], ready, false)
  {
  }

  lemma {:induction false} SortedNext(received: seq<Command>, c: Command, done: seq<Command>, waiting: seq<Command>,
                                      ready: bool, blocked: bool)
    requires Sorted(received, done, waiting, ready, blocked)
    ensures blocked || (!ready && c.requiresAuthenticatedSession) ==>
              Sorted(received + [c], done, waiting + [c], ready, blocked)
    ensures !blocked && (ready || !c.requiresAuthenticatedSession) ==>
              forall now :: Sorted(received + [c], done + [c], waiting, ready, now)
  {
    assert (received + [c])[..|received|] == received && (done + [c])[..|done|] == done;
    assert done + (waiting + [c]) == done + waiting + [c];
    assert waiting == [] ==> done + [c] + waiting == done + [c] && done + waiting == done;
  }

  lemma {:induction false} SortedGives(received: seq<Command>, done: seq<Command>, waiting: seq<Command>, ready: bool,
                                       blocked: bool)
    requires Sorted(received, done, waiting, ready, blocked)
    ensures |done| <= |received| && (ready && received != [] ==> done != [])
    ensures forall i :: 0 <= i < |done| && done[i].requiresAuthenticatedSession ==> ready
  {
    hide Gated, Free;
    NoneGated(done);
  }

  /** Commands handled one after the other: each found the mailbox clear, and a gated one the session ready. */
  ghost predicate Timely(handled: seq<Command>, moments: seq<Moment>) {
    && |moments| == |handled|
    && forall i :: 0 <= i < |handled| ==>
         !moments[i].blocked && (handled[i].requiresAuthenticatedSession ==> moments[i].ready)
  }

  lemma {:induction false} TimelyNext(handled: seq<Command>, moments: seq<Moment>, c: Command, ready: bool)
    requires Timely(handled, moments) && (c.requiresAuthenticatedSession ==> ready)
    ensures Timely(handled + [c], moments + [Moment(ready, false)])
  {
  }

  class CommandPath {
    /** Sent by the application, not received yet. */
    var channel: seq<Command>
    var pending: seq<Command>
    var handled: seq<Command>
    var authenticated: bool
    var sessionReady: bool
    /** A request is waiting for room in the actor's mailbox. */
    var blocked: bool
    ghost var submitted: seq<Command>
    /** When each command was handled. */
    ghost var moments: seq<Moment>

    ghost predicate Valid()
      reads this
    {
      Conserved(handled, pending, channel, submitted) && Timely(handled, moments)
    }

    predicate Ready()
      reads this`authenticated, this`sessionReady
    {
      authenticated && sessionReady
    }

    constructor ()
      ensures Valid() && submitted == [] && handled == [] && !authenticated && !sessionReady && !blocked
    {
      channel, pending, handled, submitted, moments := [], [], [], [], [];
      authenticated, sessionReady, blocked := false, false, false;
    }

    method Submit(c: Command)
      requires Valid()
      modifies this`channel, this`submitted
      ensures Valid() && submitted == old(submitted) + [c] && channel == old(channel) + [c]
    {
      hide Conserved;
      Submitted(handled, pending, channel, submitted, c);
      channel, submitted := channel + [c], submitted + [c];
    }

    /** The server, the actor and its mailbox move on between turns. */
    method Observe(authenticated: bool, sessionReady: bool, blocked: bool)
      requires Valid()
      modifies this`authenticated, this`sessionReady, this`blocked
      ensures Valid() && this.authenticated == authenticated && this.sessionReady == sessionReady
      ensures this.blocked == blocked
    {
      this.authenticated, this.sessionReady, this.blocked := authenticated, sessionReady, blocked;
    }

    /** Runs one command; `blocks` says whether it leaves a request the mailbox had no room for. */
    method Handle(c: Command, blocks: bool)
      modifies this`handled, this`blocked, this`moments
      ensures handled == old(handled) + [c] && blocked == (old(blocked) || blocks)
      ensures moments == old(moments) + [Moment(Ready(), old(blocked))]
    {
      moments := moments + [Moment(Ready(), blocked)];
      handled := handled + [c];
      blocked := blocked || blocks;
    }

    /** One turn of the worker loop, whatever arrived, authenticated or blocked since the last. */
    method Turn(blocks: Command -> bool) returns (drain: Drain)
      requires Valid()
      modifies this`channel, this`pending, this`handled, this`blocked, this`moments
      ensures Valid() && old(handled) <= handled && |handled| <= |old(handled)| + 2 * 8
      ensures forall i :: |old(handled)| <= i < |handled| && handled[i].requiresAuthenticatedSession ==>
                authenticated && sessionReady
      ensures !(authenticated && sessionReady) ==> old(pending) <= pending
      ensures old(blocked) ==> handled == old(handled) && pending == old(pending) && channel == old(channel)
      ensures drain.Empty? && authenticated && sessionReady && !blocked ==> pending == [] && channel == []
      ensures authenticated && sessionReady && !old(blocked) && (old(pending) != [] || old(channel) != []) ==>
                |handled| > |old(handled)|
    {
      hide Conserved, Timely, Sorted;
      drain := Empty;
      if authenticated && sessionReady && !blocked {
        drain := DrainPending(blocks);
      }
      if !drain.HitLimit? && !blocked {
        ghost var done, waiting;
        drain, done, waiting := DrainChannel(blocks);
        SortedGives(old(channel)[..|old(channel)| - |channel|], done, waiting, Ready(), blocked);
      }
    }

    /** Handles waiting commands from the front, up to the limit or the first that blocks. */
    method DrainPending(blocks: Command -> bool) returns (drain: Drain)
      requires Valid() && !blocked && Ready()
      modifies this`pending, this`handled, this`blocked, this`moments
      ensures Valid() && old(handled) <= handled
      ensures var n := |handled| - |old(handled)|;
              && n <= Min(8, |old(pending)|)
              && handled == old(handled) + old(pending)[..n] && pending == old(pending)[n..]
              && (!blocked ==> n == Min(8, |old(pending)|))
              && (blocked ==> n > 0 && blocks(handled[|handled| - 1]))
              && (forall i :: 0 <= i < n - 1 ==> !blocks(old(pending)[i]))
      ensures drain.HitLimit? <==> pending != []
    {
      hide Conserved, Timely;
      var n := 0;
      while n < MAX_COMMANDS_PER_ITERATION && pending != []
        invariant Valid() && n <= Min(MAX_COMMANDS_PER_ITERATION, |old(pending)|)
        invariant handled == old(handled) + old(pending)[..n] && pending == old(pending)[n..]
        invariant !blocked && forall i :: 0 <= i < n ==> !blocks(old(pending)[i])
        decreases MAX_COMMANDS_PER_ITERATION - n
      {
        var command := pending[0];
        HandledFromPending(handled, pending, channel, submitted);
        assert old(pending)[..n + 1] == old(pending)[..n] + [command];
        TimelyNext(handled, moments, command, true);
        pending := pending[1..];
        Handle(command, blocks(command));
        n := n + 1;
        if blocked {
          break;
        }
      }
      return if pending != [] then HitLimit else Empty;
    }

    /** Receives up to the limit: a command is handled, or waits behind those that wait already. */
    method DrainChannel(blocks: Command -> bool) returns (drain: Drain, ghost done: seq<Command>,
                                                          ghost waiting: seq<Command>)
      requires Valid() && !blocked && (Ready() ==> pending == [])
      modifies this`channel, this`pending, this`handled, this`blocked, this`moments
      ensures Valid() && handled == old(handled) + done && pending == old(pending) + waiting
      ensures var n := |old(channel)| - |channel|;
              && 0 <= n <= 8 && channel == old(channel)[n..]
              && (channel != [] ==> n == 8)
              && Sorted(old(channel)[..n], done, waiting, Ready(), blocked)
      ensures drain.Empty? ==> channel == []
      ensures Ready() && !blocked ==> pending == []
    {
      hide Conserved, Timely, Sorted, Gated, Free;
      var n := 0;
      done, waiting := [], [];
      SortedNothing(Ready());
      assert channel[..0] == [];
      while n < MAX_COMMANDS_PER_ITERATION
        invariant Valid() && handled == old(handled) + done && pending == old(pending) + waiting
        invariant n <= MAX_COMMANDS_PER_ITERATION && n <= |old(channel)| && channel == old(channel)[n..]
        invariant Ready() && !blocked ==> pending == []
        invariant Sorted(old(channel)[..n], done, waiting, Ready(), blocked)
      {
        if channel == [] {
          drain := Empty;
          return;
        }
        var command := channel[0];
        assert old(channel)[..n + 1] == old(channel)[..n] + [command];
        SortedNext(old(channel)[..n], command, done, waiting, Ready(), blocked);
        if blocked || ((!authenticated || !sessionReady) && command.requiresAuthenticatedSession) {
          Deferred(handled, pending, channel, submitted);
          channel, pending, waiting := channel[1..], pending + [command], waiting + [command];
        } else {
          HandledFromChannel(handled, pending, channel, submitted);
          TimelyNext(handled, moments, command, Ready());
          channel, done := channel[1..], done + [command];
          Handle(command, blocks(command));
        }
        n := n + 1;
      }
      drain := HitLimit;
    }
  }

  /**
   * At every moment the gated commands handled are the first ones submitted, each of them handled in a session that was
   * ready, and none of any kind while a request was waiting for the mailbox.
   */
  lemma {:induction false} HandledInOrder(path: CommandPath)
    requires path.Valid()
    ensures Gated(path.handled) <= Gated(path.submitted)
    ensures |path.moments| == |path.handled|
    ensures forall i :: 0 <= i < |path.handled| ==>
              !path.moments[i].blocked && (path.handled[i].requiresAuthenticatedSession ==> path.moments[i].ready)
    ensures path.pending == [] && path.channel == [] ==> Gated(path.handled) == Gated(path.submitted)
  {
    hide Gated;
    assert Gated([]) == [] by {
      GatedNothing();
    }
  }

  lemma {:induction false} NoneGated(commands: seq<Command>)
    ensures Gated(commands) == [] ==> forall i :: 0 <= i < |commands| ==> !commands[i].requiresAuthenticatedSession
  {
    if commands != [] {
      NoneGated(commands[..|commands| - 1]);
    }
  }

  lemma {:induction false} GatedNothing()
    ensures Gated([]) == []
  {
  }
}
