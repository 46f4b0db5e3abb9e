/** End-to-end runs through the broker: a producer and a consumer sharing
    one store, and one replication round with a replica that is offline. */
module Scenarios {
  import opened Wire
  import TopicStore
  import Pinger
  import Replication
  import opened Handler
  import Producing
  import Consuming

  /** Every replica answers every exchange as a healthy peer would. */
  function AllAck(k: nat): Replication.PeerIo
  {
    Replication.PeerIo(false, Pinger.PingIo(Written, Got([1]), Some(true)), Written, Got([1]), Some(true))
  }

  function ProduceOf(t: TopicName, m: Payload): Producing.ProduceInput
  {
    Producing.ProduceInput(Got([1]), Some(Envelope(t, m)), AllAck, Written)
  }

  const Trigger := Consuming.PollInput(Got([1]), Written)

  /** On a broker without replication, the first message produced to a
      topic nobody has used yet is acknowledged but not kept: the next poll
      of that topic finds it empty. Once the topic exists, a produced
      non-empty message is handed to the next poll, and the poll after
      that finds the topic empty again. */
  lemma FirstProduceCreatesTopicOnly(t: TopicName, m1: Payload, m2: Payload)
    requires |m2| > 0
    ensures var n0 := Node(TopicStore.NewStore, None);
            var p1 := Producing.Produce(n0, ProduceOf(t, m1));
            var q1 := Consuming.Poll(t, p1.node, Trigger);
            var p2 := Producing.Produce(q1.node, ProduceOf(t, m2));
            var q2 := Consuming.Poll(t, p2.node, Trigger);
            var q3 := Consuming.Poll(t, q2.node, Trigger);
            && p1.outcome.Pass? && p1.sent == [ProducerAsk(true)]
            && q1.sent == [ConsumerResponse(true, [])]
            && p2.outcome.Pass? && p2.sent == [ProducerAsk(true)]
            && q2.sent == [ConsumerResponse(false, m2)]
            && q3.sent == [ConsumerResponse(true, [])]
  {
    var n0 := Node(TopicStore.NewStore, None);
    var p1 := Producing.Produce(n0, ProduceOf(t, m1));
    assert TopicStore.Lookup(p1.node.store, t) == Some(TopicStore.EmptyPack);
    var q1 := Consuming.Poll(t, p1.node, Trigger);
    assert TopicStore.Lookup(q1.node.store, t) == Some(TopicStore.EmptyPack);
    var p2 := Producing.Produce(q1.node, ProduceOf(t, m2));
    assert TopicStore.Lookup(p2.node.store, t) == Some(TopicStore.Pack([m2], 1, 0));
    var q2 := Consuming.Poll(t, p2.node, Trigger);
    assert TopicStore.Lookup(q2.node.store, t) == Some(TopicStore.Pack([m2], 1, 1));
  }

  /** Replica 0 is offline (its handshake ping cannot be written); replica 1
      answers everything. */
  function OneOffline(k: nat): Replication.PeerIo
  {
    if k == 0 then
      Replication.PeerIo(false, Pinger.PingIo(WriteFailed(ConnectionReset), Got([1]), Some(true)),
                         Written, Got([1]), Some(true))
    else AllAck(k)
  }

  /** The first round over two fresh replicas, one of them offline: the
      round succeeds, the offline replica is marked failed without ever
      being initialised, and the other is handshaken, sent the frame and
      left healthy. */
  lemma OfflineReplicaIsSkipped(m: Frame)
    ensures var r := Replication.AskByPeers([Replication.FreshPeer, Replication.FreshPeer], m, OneOffline);
            && r.outcome.Pass?
            && r.peers == [Replication.Peer(true, false), Replication.Peer(false, true)]
            && r.sent == [Replication.Send(0, Replication.ReplicaPing),
                          Replication.Send(1, Replication.ReplicaPing),
                          Replication.Send(1, m)]
  {
    var peers := [Replication.FreshPeer, Replication.FreshPeer];
    var v0 := Replication.VisitPeer(peers[0], m, OneOffline(0));
    assert v0 == Replication.Visit(Replication.Peer(true, false), [Replication.ReplicaPing], Pass);
    var after0 := peers[0 := v0.peer];
    var v1 := Replication.VisitPeer(after0[1], m, OneOffline(1));
    assert v1 == Replication.Visit(Replication.Peer(false, true), [Replication.ReplicaPing, m], Pass);
    var after1 := after0[1 := v1.peer];
    assert Replication.Walk(after1, 2, m, OneOffline) == Replication.Round(after1, [], Pass);
    assert Replication.Tag(1, v1.sent) == [Replication.Send(1, Replication.ReplicaPing), Replication.Send(1, m)];
    assert Replication.Tag(0, v0.sent) == [Replication.Send(0, Replication.ReplicaPing)];
    var w1 := Replication.Walk(after0, 1, m, OneOffline);
    assert w1 == Replication.Round(after1, Replication.Tag(1, v1.sent), Pass);
    assert Replication.Walk(peers, 0, m, OneOffline) ==
           Replication.Round(after1, Replication.Tag(0, v0.sent) + w1.sent, Pass);
  }
}
