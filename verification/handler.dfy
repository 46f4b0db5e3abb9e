/** One accepted connection: the handshake that picks a role, and the loop
    discipline the three role loops share.

    A loop checks the cancellation signal once per iteration, runs one step,
    and stops at the first error, quietly for a peer disconnect and with a
    log line for anything else; either way the connection is closed. The
    loop is written once here over an arbitrary step function, and the
    producer, consumer and replica loops are instances of it. */
module Handler {
  import opened Wire
  import TopicStore
  import Replication
  import Pinger

  /** The long-lived state every connection handler shares: the topic
      store, and the replication peers when replication is configured
      (`None` when the handler's controller is nil). */
  datatype Node = Node(store: TopicStore.Store, peers: Option<seq<Replication.Peer>>)

  // ---------------------------------------------------------------------
  // Handshake

  /** What the handshake did: the frames written, the outcome of `do`, the
      role loop it started, and whether `Do` then closed the connection. */
  datatype Handshake = Handshake(sent: seq<Frame>, outcome: Outcome,
                                 started: Option<Pinger.Role>, closed: bool)

  /** `Handler.Do` around `Handler.do`. `cancelled` is the state of the
      context on entry, `hello` the first read, `ping` what it decodes to,
      and `pongWrite` the outcome of writing the pong. */
  function Do(cancelled: bool, hello: Read, ping: Option<int32>, pongWrite: Write): (r: Handshake)
    // a context that is already done ends the handshake without any I/O
    ensures cancelled ==> r == Handshake([], Pass, None, false)
    ensures !cancelled && hello.Got? && |hello.raw| == 0 ==> r.outcome == Fail(NullMessage) && r.sent == []
    // the pong is written as soon as the ping decodes, before its role is looked at
    ensures !cancelled && hello.Got? && |hello.raw| > 0 && ping.Some? ==> r.sent == [PongFrame(true)]
    ensures r.sent != [] ==> !cancelled && hello.Got? && |hello.raw| > 0 && ping.Some?
    // exactly one loop is started, for a known role, once the pong is written
    ensures r.started.Some? <==>
              !cancelled && hello.Got? && |hello.raw| > 0 && ping.Some? && pongWrite.Written? &&
              Pinger.RoleOf(ping.value).Some?
    ensures r.started.Some? ==> r.started == Pinger.RoleOf(ping.value) && r.outcome.Pass?
    ensures (!cancelled && hello.Got? && |hello.raw| > 0 && ping.Some? && pongWrite.Written? &&
             Pinger.RoleOf(ping.value).None?) ==> r.outcome == Fail(UndefinedPingType)
    // every failure before a loop is started is an error, and closes the connection
    ensures !cancelled ==> (r.outcome.Pass? <==> r.started.Some?)
    ensures r.closed <==> r.outcome.Fail?
  {
    if cancelled then Handshake([], Pass, None, false)
    else
      var out := Greet(hello, ping, pongWrite);
      Handshake(out.0.sent, out.0.outcome, out.1, out.0.outcome.Fail?)
  }

  /** The client's handshake and the server's agree on the role: the ping
      a client sends for `role` starts exactly that role's loop on a server
      that reads it and writes its pong. */
  lemma HandshakeAgreesOnRole(role: Pinger.Role, io: Pinger.PingIo, raw: Payload)
    requires |raw| > 0
    ensures var sent := Pinger.Ping(false, Pinger.Code(role), io).sent;
            |sent| == 1 && sent[0].PingFrame? &&
            Do(false, Got(raw), Some(sent[0].ping), Written) == Handshake([PongFrame(true)], Pass, Some(role), false)
  {
  }

  /** The part of `do` after the cancellation check. */
  function Greet(hello: Read, ping: Option<int32>, pongWrite: Write): (Exchange, Option<Pinger.Role>)
  {
    match hello
    case ReadFailed(c) => (Exchange([], Fail(Io(c))), None)
    case Got(raw) =>
      if |raw| == 0 then (Exchange([], Fail(NullMessage)), None)
      else
        match ping
        case None => (Exchange([], Fail(Unmarshal)), None)
        case Some(code) =>
          var sent := [PongFrame(true)];
          match pongWrite
          case WriteFailed(c) => (Exchange(sent, Fail(Io(c))), None)
          case Written =>
            match Pinger.RoleOf(code)
            case None => (Exchange(sent, Fail(UndefinedPingType)), None)
            case Some(role) => (Exchange(sent, Pass), Some(role))
  }

  // ---------------------------------------------------------------------
  // Loops

  /** What one loop step did: the new shared state, the frames written to
      the client, the frames written to replication peers, and its result. */
  datatype Step = Step(node: Node, sent: seq<Frame>, relayed: seq<Replication.Send>, outcome: Outcome)

  /** One loop iteration's inputs: whether the context is done when the
      iteration starts, and what the step's I/O does. */
  datatype Turn<I> = Turn(cancelled: bool, input: I)

  /** How a loop ended. `Pending` means the given turns ran out while the
      loop was still going. */
  datatype Exit = Cancelled | Disconnected(error: Error) | Failed(error: Error) | Pending

  /** How a loop ends on an error: quietly for a peer disconnect, logged
      otherwise. */
  function ExitOn(e: Error): (x: Exit)
    ensures x.Disconnected? || x.Failed?
    ensures x.error == e
    ensures x.Disconnected? <==> IsSysError(e)
  {
    if IsSysError(e) then Disconnected(e) else Failed(e)
  }

  datatype Run = Run(node: Node, sent: seq<Frame>, relayed: seq<Replication.Send>, exit: Exit, steps: nat)

  /** The shape of `producerDo`, `consumerDo` (after subscribing) and
      `partitionDo`: check cancellation, run one step, stop on its error. */
  function Loop<I>(step: (Node, I) -> Step, node: Node, turns: seq<Turn<I>>): (r: Run)
    decreases |turns|
    ensures r.steps <= |turns|
    ensures forall j :: 0 <= j < r.steps ==> !turns[j].cancelled
    ensures r.exit.Pending? ==> r.steps == |turns|
    ensures r.exit.Cancelled? ==> r.steps < |turns| && turns[r.steps].cancelled
    ensures r.exit.Disconnected? ==> 0 < r.steps && IsSysError(r.exit.error)
    ensures r.exit.Failed? ==> 0 < r.steps && !IsSysError(r.exit.error)
  {
    if |turns| == 0 then Run(node, [], [], Pending, 0)
    else if turns[0].cancelled then Run(node, [], [], Cancelled, 0)
    else
      var s := step(node, turns[0].input);
      match s.outcome
      case Fail(e) => Run(s.node, s.sent, s.relayed, ExitOn(e), 1)
      case Pass =>
        var rest := Loop(step, s.node, turns[1..]);
        Run(rest.node, s.sent + rest.sent, s.relayed + rest.relayed, rest.exit, rest.steps + 1)
  }

  /** How a loop that ended on an error ended: every turn before its last
      step ran a step that passed, the last step failed, and the loop
      stopped right there with that step's state, frames and error. */
  predicate EndsOnFirstError<I>(step: (Node, I) -> Step, node: Node, turns: seq<Turn<I>>, r: Run)
    requires r.steps <= |turns|
  {
    (r.exit.Disconnected? || r.exit.Failed?) ==>
      && 0 < r.steps
      && var before := Loop(step, node, turns[..r.steps - 1]);
         var last := step(before.node, turns[r.steps - 1].input);
         && before.exit.Pending?
         && last.outcome == Fail(r.exit.error)
         && r == Run(last.node, before.sent + last.sent, before.relayed + last.relayed,
                     ExitOn(last.outcome.error), r.steps)
  }

  /** A loop that ends on an error ends on the first step that failed. */
  lemma {:induction false} LoopEndsAtFailure<I>(step: (Node, I) -> Step, node: Node, turns: seq<Turn<I>>)
    ensures EndsOnFirstError(step, node, turns, Loop(step, node, turns))
    decreases |turns|
  {
    var r := Loop(step, node, turns);
    if |turns| > 0 && !turns[0].cancelled {
      var s := step(node, turns[0].input);
      if s.outcome.Fail? {
        assert turns[..0] == [];
        assert [] + s.sent == s.sent && [] + s.relayed == s.relayed;
      } else {
        var rest := Loop(step, s.node, turns[1..]);
        LoopEndsAtFailure(step, s.node, turns[1..]);
        if rest.exit.Disconnected? || rest.exit.Failed? {
          var k := r.steps - 1;
          var pre := turns[..k];
          assert pre[0] == turns[0];
          assert pre[1..] == turns[1..][..rest.steps - 1];
          var rb := Loop(step, s.node, turns[1..][..rest.steps - 1]);
          var last := step(rb.node, turns[1..][rest.steps - 1].input);
          assert turns[k] == turns[1..][rest.steps - 1];
          assert Loop(step, node, pre) ==
                 Run(rb.node, s.sent + rb.sent, s.relayed + rb.relayed, Pending, rb.steps + 1);
          assert s.sent + (rb.sent + last.sent) == (s.sent + rb.sent) + last.sent;
          assert s.relayed + (rb.relayed + last.relayed) == (s.relayed + rb.relayed) + last.relayed;
        }
      }
    }
  }

  /** A loop that has ended reads no further input: more turns change
      nothing. */
  lemma {:induction false} EndedLoopIgnoresLaterTurns<I>(step: (Node, I) -> Step, node: Node,
                                                        turns: seq<Turn<I>>, more: seq<Turn<I>>)
    requires !Loop(step, node, turns).exit.Pending?
    ensures Loop(step, node, turns + more) == Loop(step, node, turns)
    decreases |turns|
  {
    assert (turns + more)[0] == turns[0];
    if !turns[0].cancelled {
      var s := step(node, turns[0].input);
      if s.outcome.Pass? {
        assert (turns + more)[1..] == turns[1..] + more;
        EndedLoopIgnoresLaterTurns(step, s.node, turns[1..], more);
      }
    }
  }

  /** Running a loop on `a` then `b` is running it on `a`, then, if it is
      still going, on `b` from where it stopped. */
  lemma {:induction false} LoopSplits<I>(step: (Node, I) -> Step, node: Node,
                                         a: seq<Turn<I>>, b: seq<Turn<I>>)
    requires Loop(step, node, a).exit.Pending?
    ensures var ra := Loop(step, node, a);
            var rb := Loop(step, ra.node, b);
            Loop(step, node, a + b) == Run(rb.node, ra.sent + rb.sent, ra.relayed + rb.relayed,
                                           rb.exit, ra.steps + rb.steps)
    decreases |a|
  {
    if |a| == 0 {
      assert a + b == b;
    } else {
      assert (a + b)[0] == a[0];
      assert (a + b)[1..] == a[1..] + b;
      var s := step(node, a[0].input);
      LoopSplits(step, s.node, a[1..], b);
      var ra' := Loop(step, s.node, a[1..]);
      var rb := Loop(step, ra'.node, b);
      assert s.sent + (ra'.sent + rb.sent) == (s.sent + ra'.sent) + rb.sent;
      assert s.relayed + (ra'.relayed + rb.relayed) == (s.relayed + ra'.relayed) + rb.relayed;
    }
  }

  /** The first step that fails ends the loop: whatever turns were still
      to come, the session is the turns before it, that step, and the
      exit its error classifies to. */
  lemma LoopStopsOnFirstError<I>(step: (Node, I) -> Step, node: Node,
                                 a: seq<Turn<I>>, t: Turn<I>, b: seq<Turn<I>>)
    requires Loop(step, node, a).exit.Pending?
    requires !t.cancelled && step(Loop(step, node, a).node, t.input).outcome.Fail?
    ensures var ra := Loop(step, node, a);
            var s := step(ra.node, t.input);
            Loop(step, node, a + [t] + b) ==
              Run(s.node, ra.sent + s.sent, ra.relayed + s.relayed, ExitOn(s.outcome.error), ra.steps + 1)
  {
    LoopSplits(step, node, a, [t]);
    assert !Loop(step, node, a + [t]).exit.Pending?;
    EndedLoopIgnoresLaterTurns(step, node, a + [t], b);
    var ra := Loop(step, node, a);
    var s := step(ra.node, t.input);
    assert [t][1..] == [];
    assert s.sent + [] == s.sent && s.relayed + [] == s.relayed;
  }

  /** A step that fails with a peer disconnect ends the loop quietly; any
      other error ends it with a logged failure. */
  lemma StepErrorDecidesExit<I>(step: (Node, I) -> Step, node: Node,
                                a: seq<Turn<I>>, t: Turn<I>, b: seq<Turn<I>>, e: Error)
    requires Loop(step, node, a).exit.Pending?
    requires !t.cancelled && step(Loop(step, node, a).node, t.input).outcome == Fail(e)
    ensures Loop(step, node, a + [t] + b).exit == ExitOn(e)
    ensures Loop(step, node, a + [t] + b).exit.Disconnected? <==> IsSysError(e)
  {
    LoopStopsOnFirstError(step, node, a, t, b);
  }

  /** A relation every step keeps between the state before and after it
      holds between the state before and after the whole loop, provided it
      is reflexive and transitive. */
  lemma {:induction false} LoopKeeps<I>(step: (Node, I) -> Step, node: Node, turns: seq<Turn<I>>,
                                       keeps: (Node, Node) -> bool)
    requires forall n :: keeps(n, n)
    requires forall a, b, c :: keeps(a, b) && keeps(b, c) ==> keeps(a, c)
    requires forall n, i :: keeps(n, step(n, i).node)
    ensures keeps(node, Loop(step, node, turns).node)
    decreases |turns|
  {
    if |turns| > 0 && !turns[0].cancelled {
      var s := step(node, turns[0].input);
      if s.outcome.Pass? {
        LoopKeeps(step, s.node, turns[1..], keeps);
        assert keeps(node, s.node);
      }
    }
  }

  /** If every step only writes frames of one kind to the client, so does
      the loop. */
  lemma {:induction false} LoopSendsOnly<I>(step: (Node, I) -> Step, node: Node, turns: seq<Turn<I>>,
                                           allowed: Frame -> bool)
    requires forall n, i, f :: f in step(n, i).sent ==> allowed(f)
    ensures forall f :: f in Loop(step, node, turns).sent ==> allowed(f)
    decreases |turns|
  {
    if |turns| > 0 && !turns[0].cancelled {
      var s := step(node, turns[0].input);
      if s.outcome.Pass? {
        LoopSendsOnly(step, s.node, turns[1..], allowed);
      }
    }
  }
}
