/** The producer role (`producerDo` / `producer`): read a produce frame,
    write it to the topic store, replicate it when replication is
    configured, then acknowledge. */
module Producing {
  import opened Wire
  import TopicStore
  import Replication
  import opened Handler

  /** One produce iteration's I/O: the read of the frame, what it decodes
      to, what each replication peer does, and the outcome of writing the
      acknowledgment. */
  datatype ProduceInput = ProduceInput(read: Read, payload: Option<Envelope>,
                                       replicas: nat -> Replication.PeerIo, ackWrite: Write)

  /** The read returned bytes that decode to a produce frame. */
  predicate Decoded(input: ProduceInput)
  {
    input.read.Got? && |input.read.raw| > 0 && input.payload.Some?
  }

  /** The frame forwarded to replicas for a produce frame. */
  function ForwardOf(e: Envelope): Frame
  {
    Forward(e.topic, e.message)
  }

  /** `Handler.producer`: one produce iteration. */
  function Produce(node: Node, input: ProduceInput): (r: Step)
    // nothing usable was read: nothing changes, nothing is written
    ensures !Decoded(input) ==> r.node == node && r.sent == [] && r.relayed == [] && r.outcome.Fail?
    ensures input.read.ReadFailed? ==> r.outcome == Fail(Io(input.read.cause))
    ensures input.read.Got? && |input.read.raw| == 0 ==> r.outcome == Fail(NullMessage)
    ensures input.read.Got? && |input.read.raw| > 0 && input.payload.None? ==> r.outcome == Fail(Unmarshal)
    ensures Decoded(input) && node.store.topics.None? ==>
              r == Step(node, [], [], Fail(StorageNotInitialized))
    // the store is written first, and stays written whatever replication does
    ensures Decoded(input) && node.store.topics.Some? ==>
              r.node.store == TopicStore.Write(node.store, input.payload.value.topic,
                                               input.payload.value.message).value
    // without a replication controller nothing is replicated
    ensures node.peers.None? ==> r.relayed == [] && r.node.peers.None?
    ensures node.peers.Some? ==> r.node.peers.Some? && |r.node.peers.value| == |node.peers.value|
    // with a controller, the step's peers, relayed frames and any replication
    // error are exactly those of the round
    ensures Decoded(input) && node.store.topics.Some? && node.peers.Some? ==>
              var round := Replication.AskByPeers(node.peers.value, ForwardOf(input.payload.value), input.replicas);
              r.node.peers == Some(round.peers) && r.relayed == round.sent &&
              (round.outcome.Fail? ==> r.outcome == round.outcome)
    // the replicas are sent handshakes and the produced topic and message
    ensures forall s :: s in r.relayed ==>
              Decoded(input) && (s.frame == Replication.ReplicaPing || s.frame == ForwardOf(input.payload.value))
    // the acknowledgment is written only after the store write and, when
    // configured, the replication round succeeded
    ensures r.sent == [] || r.sent == [ProducerAsk(true)]
    ensures r.sent == [ProducerAsk(true)] <==>
              Decoded(input) && node.store.topics.Some? &&
              (node.peers.None? ||
               Replication.AskByPeers(node.peers.value, ForwardOf(input.payload.value),
                                      input.replicas).outcome.Pass?)
    ensures r.outcome.Pass? <==> r.sent == [ProducerAsk(true)] && input.ackWrite.Written?
    ensures r.sent == [ProducerAsk(true)] ==> r.outcome == WriteOutcome(input.ackWrite)
  {
    match input.read
    case ReadFailed(c) => Step(node, [], [], Fail(Io(c)))
    case Got(raw) =>
      if |raw| == 0 then Step(node, [], [], Fail(NullMessage))
      else
        match input.payload
        case None => Step(node, [], [], Fail(Unmarshal))
        case Some(pp) =>
          match TopicStore.Write(node.store, pp.topic, pp.message)
          case Err(e) => Step(node, [], [], Fail(e))
          case Ok(store) =>
            match node.peers
            case None => Acknowledge(Node(store, None), [], input.ackWrite)
            case Some(peers) =>
              var round := Replication.AskByPeers(peers, ForwardOf(pp), input.replicas);
              var after := Node(store, Some(round.peers));
              if round.outcome.Fail? then Step(after, [], round.sent, round.outcome)
              else Acknowledge(after, round.sent, input.ackWrite)
  }

  /** Write `ProducerAsk{Ask: true}`. */
  function Acknowledge(node: Node, relayed: seq<Replication.Send>, ackWrite: Write): Step
  {
    Step(node, [ProducerAsk(true)], relayed, WriteOutcome(ackWrite))
  }

  /** `Handler.producerDo`: produce until cancellation is seen or a step
      fails. The only frame a producer connection is ever sent is a
      positive acknowledgment. */
  function ProducerDo(node: Node, turns: seq<Turn<ProduceInput>>): (r: Run)
    ensures r.steps <= |turns|
    ensures forall j :: 0 <= j < r.steps ==> !turns[j].cancelled
    ensures r.exit.Cancelled? ==> r.steps < |turns| && turns[r.steps].cancelled
    ensures r.exit.Pending? ==> r.steps == |turns|
    ensures EndsOnFirstError(Produce, node, turns, r)
    ensures forall f :: f in r.sent ==> f == ProducerAsk(true)
  {
    LoopEndsAtFailure(Produce, node, turns);
    LoopSendsOnly(Produce, node, turns, f => f == ProducerAsk(true));
    Loop(Produce, node, turns)
  }

  /** A producer that hangs up ends its session quietly: a read that fails
      with end of stream, broken pipe or connection reset ends the session
      with a disconnect; any other read failure is logged. */
  lemma ProducerHangUp(node: Node, a: seq<Turn<ProduceInput>>, t: Turn<ProduceInput>,
                       b: seq<Turn<ProduceInput>>, c: IoFailure)
    requires ProducerDo(node, a).exit.Pending?
    requires !t.cancelled && t.input.read == ReadFailed(c)
    ensures ProducerDo(node, a + [t] + b).exit == ExitOn(Io(c))
    ensures ProducerDo(node, a + [t] + b).exit.Disconnected? <==> c != OtherIoFailure
  {
    StepErrorDecidesExit(Produce, node, a, t, b, Io(c));
  }

  /** A peer that a produce step leaves failed is not contacted by the next
      produce step and stays exactly as it is. */
  lemma FailedPeerIsSkippedNextTime(n: Node, first: ProduceInput, next: ProduceInput, k: nat)
    requires n.peers.Some? && k < |n.peers.value|
    requires Produce(n, first).node.peers.value[k].isFail
    ensures var n1 := Produce(n, first).node;
            var r := Produce(n1, next);
            (forall s :: s in r.relayed ==> s.to != k) &&
            r.node.peers.value[k] == n1.peers.value[k]
  {
    var n1 := Produce(n, first).node;
    assert Replication.HealthOf(n1.peers.value[k]) == Replication.Failed;
    var r := Produce(n1, next);
    if Decoded(next) && n1.store.topics.Some? {
      var round := Replication.AskByPeers(n1.peers.value, ForwardOf(next.payload.value), next.replicas);
      assert r.relayed == round.sent;
    }
  }

  /** Peer health only moves forward: failed peers stay failed and
      untouched, initialised peers stay initialised. */
  predicate PeersProgress(a: Node, b: Node)
  {
    && (a.peers.None? <==> b.peers.None?)
    && (a.peers.Some? ==>
          && |a.peers.value| == |b.peers.value|
          && (forall k :: 0 <= k < |a.peers.value| && a.peers.value[k].isFail ==>
                b.peers.value[k] == a.peers.value[k])
          && (forall k :: 0 <= k < |a.peers.value| && a.peers.value[k].isInit ==>
                b.peers.value[k].isInit))
  }

  /** Over a whole producer session, a failed peer is never retried and an
      initialised peer is never handshaken again. */
  lemma ProducerSessionKeepsPeerHealth(node: Node, turns: seq<Turn<ProduceInput>>)
    ensures PeersProgress(node, ProducerDo(node, turns).node)
  {
    forall n, i
      ensures PeersProgress(n, Produce(n, i).node)
    {
      ProduceKeepsPeerHealth(n, i);
    }
    LoopKeeps(Produce, node, turns, PeersProgress);
  }

  lemma ProduceKeepsPeerHealth(n: Node, i: ProduceInput)
    ensures PeersProgress(n, Produce(n, i).node)
  {
    if Decoded(i) && n.store.topics.Some? && n.peers.Some? {
      var round := Replication.AskByPeers(n.peers.value, ForwardOf(i.payload.value), i.replicas);
      assert Produce(n, i).node.peers == Some(round.peers);
    }
  }

  /** With no replication controller a producer session never contacts a
      replica and never acquires peers. */
  lemma {:induction false} NoControllerNoReplication(node: Node, turns: seq<Turn<ProduceInput>>)
    requires node.peers.None?
    ensures ProducerDo(node, turns).relayed == []
    ensures ProducerDo(node, turns).node.peers.None?
    decreases |turns|
  {
    if |turns| > 0 && !turns[0].cancelled {
      var s := Produce(node, turns[0].input);
      if s.outcome.Pass? {
        NoControllerNoReplication(s.node, turns[1..]);
      }
    }
  }
}
