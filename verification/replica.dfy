/** The replica role (`partitionDo` / `partition`): read a frame forwarded
    by a primary broker and acknowledge it. The replica keeps no copy: its
    own topic store is never read or written. */
module Replica {
  import opened Wire
  import opened Handler

  /** One forwarded frame's I/O: the read, what it decodes to, and the
      outcome of writing the acknowledgment. */
  datatype ForwardInput = ForwardInput(read: Read, forward: Option<Envelope>, ackWrite: Write)

  /** The read returned bytes that decode to a forwarded frame. */
  predicate Received(input: ForwardInput)
  {
    input.read.Got? && |input.read.raw| > 0 && input.forward.Some?
  }

  /** `Handler.partition`: one forwarded frame. */
  function Replicate(node: Node, input: ForwardInput): (r: Step)
    ensures r.node == node && r.relayed == []
    ensures r.sent == [] || r.sent == [PartitionAsk(true)]
    // a frame that was read and decoded is acknowledged; nothing else is
    ensures r.sent == [PartitionAsk(true)] <==> Received(input)
    ensures input.read.ReadFailed? ==> r.outcome == Fail(Io(input.read.cause))
    ensures input.read.Got? && |input.read.raw| == 0 ==> r.outcome == Fail(UndefinedMessage)
    ensures r.outcome.Pass? <==> Received(input) && input.ackWrite.Written?
    ensures Received(input) ==> r.outcome == WriteOutcome(input.ackWrite)
    ensures input.read.Got? && |input.read.raw| > 0 && input.forward.None? ==> r.outcome == Fail(Unmarshal)
  {
    match input.read
    case ReadFailed(c) => Step(node, [], [], Fail(Io(c)))
    case Got(raw) =>
      if |raw| == 0 then Step(node, [], [], Fail(UndefinedMessage))
      else
        match input.forward
        case None => Step(node, [], [], Fail(Unmarshal))
        case Some(_) => Step(node, [PartitionAsk(true)], [], WriteOutcome(input.ackWrite))
  }

  /** `Handler.partitionDo`: acknowledge forwarded frames until
      cancellation is seen or a step fails. */
  function PartitionDo(node: Node, turns: seq<Turn<ForwardInput>>): (r: Run)
    ensures r.steps <= |turns|
    ensures forall j :: 0 <= j < r.steps ==> !turns[j].cancelled
    ensures r.exit.Cancelled? ==> r.steps < |turns| && turns[r.steps].cancelled
    ensures r.exit.Pending? ==> r.steps == |turns|
    ensures EndsOnFirstError(Replicate, node, turns, r)
    ensures r.relayed == []
  {
    LoopEndsAtFailure(Replicate, node, turns);
    ReplicaNeverRelays(node, turns);
    Loop(Replicate, node, turns)
  }

  lemma {:induction false} ReplicaNeverRelays(node: Node, turns: seq<Turn<ForwardInput>>)
    ensures Loop(Replicate, node, turns).relayed == []
    decreases |turns|
  {
    if |turns| > 0 && !turns[0].cancelled && Replicate(node, turns[0].input).outcome.Pass? {
      ReplicaNeverRelays(node, turns[1..]);
    }
  }

  /** A primary that hangs up ends the replica session quietly: a read that
      fails with end of stream, broken pipe or connection reset ends it with
      a disconnect; any other read failure is logged. */
  lemma PrimaryHangUp(node: Node, a: seq<Turn<ForwardInput>>, t: Turn<ForwardInput>,
                      b: seq<Turn<ForwardInput>>, c: IoFailure)
    requires PartitionDo(node, a).exit.Pending?
    requires !t.cancelled && t.input.read == ReadFailed(c)
    ensures PartitionDo(node, a + [t] + b).exit == ExitOn(Io(c))
    ensures PartitionDo(node, a + [t] + b).exit.Disconnected? <==> c != OtherIoFailure
  {
    StepErrorDecidesExit(Replicate, node, a, t, b, Io(c));
  }

  /** A whole replica session leaves the broker's state exactly as it found
      it, and only ever writes positive acknowledgments. */
  lemma ReplicaSessionIsStateless(node: Node, turns: seq<Turn<ForwardInput>>)
    ensures PartitionDo(node, turns).node == node
    ensures forall f :: f in PartitionDo(node, turns).sent ==> f == PartitionAsk(true)
  {
    LoopKeeps(Replicate, node, turns, (a: Node, b: Node) => a == b);
    LoopSendsOnly(Replicate, node, turns, f => f == PartitionAsk(true));
  }

  /** Every frame of a replica session that ends with its input still
      coming was acknowledged: one acknowledgment per turn. */
  lemma {:induction false} ReplicaAcksEveryTurn(node: Node, turns: seq<Turn<ForwardInput>>)
    requires PartitionDo(node, turns).exit.Pending?
    ensures |PartitionDo(node, turns).sent| == |turns|
    decreases |turns|
  {
    if |turns| > 0 {
      ReplicaAcksEveryTurn(node, turns[1..]);
    }
  }
}
