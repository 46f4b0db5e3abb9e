/** The consumer role (`consumerDo`): read one subscribe frame and echo its
    bytes back, then answer every one-byte trigger with the next message of
    the subscribed topic or an empty response. The server never waits for
    data: an empty topic is reported at once. */
module Consuming {
  import opened Wire
  import TopicStore
  import opened Handler

  /** The subscribe exchange's I/O: the read, the topic it decodes to, and
      the outcome of echoing the bytes back. */
  datatype SubscribeInput = SubscribeInput(read: Read, topic: Option<TopicName>, echoWrite: Write)

  datatype Subscription = Subscription(sent: seq<Frame>, topic: Result<TopicName>)

  /** `consumerPayload`. */
  function Subscribe(input: SubscribeInput): (r: Subscription)
    ensures input.read.ReadFailed? ==> r == Subscription([], Err(Io(input.read.cause)))
    ensures input.read.Got? && |input.read.raw| == 0 ==> r == Subscription([], Err(NullMessage))
    // a decoded subscribe frame is echoed back byte for byte
    ensures input.read.Got? && |input.read.raw| > 0 && input.topic.Some? ==>
              r.sent == [SubscribeEcho(input.read.raw)]
    ensures r.sent != [] ==> input.read.Got? && |input.read.raw| > 0 && input.topic.Some?
    ensures r.topic.Ok? <==>
              input.read.Got? && |input.read.raw| > 0 && input.topic.Some? && input.echoWrite.Written?
    ensures r.topic.Ok? ==> r.topic.value == input.topic.value
    ensures r.sent != [] && input.echoWrite.WriteFailed? ==> r.topic == Err(Io(input.echoWrite.cause))
    ensures input.read.Got? && |input.read.raw| > 0 && input.topic.None? ==> r == Subscription([], Err(Unmarshal))
  {
    match input.read
    case ReadFailed(c) => Subscription([], Err(Io(c)))
    case Got(raw) =>
      if |raw| == 0 then Subscription([], Err(NullMessage))
      else
        match input.topic
        case None => Subscription([], Err(Unmarshal))
        case Some(t) =>
          var sent := [SubscribeEcho(raw)];
          match input.echoWrite
          case WriteFailed(c) => Subscription(sent, Err(Io(c)))
          case Written => Subscription(sent, Ok(t))
  }

  /** One poll's I/O: the trigger read and the outcome of writing the
      response. */
  datatype PollInput = PollInput(trigger: Read, responseWrite: Write)

  /** The response frame for what the store returned. A zero-length
      message is stored as a nil slice (a protobuf bytes field with no
      bytes decodes to nil), so it is answered exactly like an empty
      topic. */
  function ResponseFor(m: Option<Payload>): (f: Frame)
    ensures f.ConsumerResponse?
    ensures f.isEmpty <==> m.None? || |m.value| == 0
    ensures !f.isEmpty ==> f.message == m.value
    ensures f.isEmpty ==> f.message == []
  {
    match m
    case None => ConsumerResponse(true, [])
    case Some(b) => if |b| == 0 then ConsumerResponse(true, []) else ConsumerResponse(false, b)
  }

  /** `Handler.consumer`: one poll of `topic`. */
  function Poll(topic: TopicName, node: Node, input: PollInput): (r: Step)
    ensures r.relayed == [] && r.node.peers == node.peers
    // no trigger: the store is not touched and nothing is written
    ensures !(input.trigger.Got? && |input.trigger.raw| > 0) ==>
              r.node == node && r.sent == [] && r.outcome.Fail?
    ensures input.trigger.ReadFailed? ==> r.outcome == Fail(Io(input.trigger.cause))
    ensures input.trigger.Got? && |input.trigger.raw| == 0 ==> r.outcome == Fail(NullMessage)
    ensures input.trigger.Got? && |input.trigger.raw| > 0 && node.store.topics.None? ==>
              r == Step(node, [], [], Fail(StorageNotInitialized))
    // a trigger reads the subscribed topic once and answers with what came out;
    // the cursor stays advanced even when the answer cannot be written
    ensures input.trigger.Got? && |input.trigger.raw| > 0 && node.store.topics.Some? ==>
              var f := TopicStore.Read(node.store, topic).value;
              r.node.store == f.store && r.sent == [ResponseFor(f.message)] &&
              r.outcome == WriteOutcome(input.responseWrite)
  {
    match input.trigger
    case ReadFailed(c) => Step(node, [], [], Fail(Io(c)))
    case Got(raw) =>
      if |raw| == 0 then Step(node, [], [], Fail(NullMessage))
      else
        match TopicStore.Read(node.store, topic)
        case Err(e) => Step(node, [], [], Fail(e))
        case Ok(f) =>
          Step(node.(store := f.store), [ResponseFor(f.message)], [], WriteOutcome(input.responseWrite))
  }

  function PollStep(topic: TopicName): (Node, PollInput) -> Step
  {
    (n: Node, i: PollInput) => Poll(topic, n, i)
  }

  /** `Handler.consumerDo`: subscribe (with no cancellation check before
      it), then poll the subscribed topic until the first error. */
  function ConsumerDo(node: Node, sub: SubscribeInput, turns: seq<Turn<PollInput>>): (r: Run)
    // a failed subscribe ends the session before any poll
    ensures Subscribe(sub).topic.Err? ==>
              r == Run(node, Subscribe(sub).sent, [], ExitOn(Subscribe(sub).topic.error), 0)
    // otherwise the echo comes first, then only responses
    ensures Subscribe(sub).topic.Ok? ==>
              |r.sent| >= 1 && r.sent[0] == SubscribeEcho(sub.read.raw) &&
              forall j :: 1 <= j < |r.sent| ==> r.sent[j].ConsumerResponse?
    // after the echo, the session is the polling loop on the subscribed topic
    ensures Subscribe(sub).topic.Ok? ==>
              var run := PollLoop(Subscribe(sub).topic.value, node, turns);
              r.node == run.node && r.exit == run.exit && r.steps == run.steps &&
              r.sent == Subscribe(sub).sent + run.sent
    ensures r.relayed == [] && r.node.peers == node.peers
  {
    var s := Subscribe(sub);
    match s.topic
    case Err(e) => Run(node, s.sent, [], ExitOn(e), 0)
    case Ok(t) =>
      var run := PollLoop(t, node, turns);
      Run(run.node, s.sent + run.sent, [], run.exit, run.steps)
  }

  /** The polling loop of a session subscribed to `topic`. */
  function PollLoop(topic: TopicName, node: Node, turns: seq<Turn<PollInput>>): (r: Run)
    ensures forall f :: f in r.sent ==> f.ConsumerResponse?
    ensures r.relayed == [] && r.node.peers == node.peers
    ensures r.steps <= |turns|
    ensures EndsOnFirstError(PollStep(topic), node, turns, r)
  {
    PollsOnlyRespond(topic, node, turns);
    LoopEndsAtFailure(PollStep(topic), node, turns);
    Loop(PollStep(topic), node, turns)
  }

  /** A consumer that hangs up while subscribed ends its session quietly: a
      trigger read that fails with end of stream, broken pipe or connection
      reset ends it with a disconnect; any other read failure is logged. */
  lemma ConsumerHangUp(topic: TopicName, node: Node, a: seq<Turn<PollInput>>, t: Turn<PollInput>,
                       b: seq<Turn<PollInput>>, c: IoFailure)
    requires PollLoop(topic, node, a).exit.Pending?
    requires !t.cancelled && t.input.trigger == ReadFailed(c)
    ensures PollLoop(topic, node, a + [t] + b).exit == ExitOn(Io(c))
    ensures PollLoop(topic, node, a + [t] + b).exit.Disconnected? <==> c != OtherIoFailure
  {
    assert PollStep(topic)(Loop(PollStep(topic), node, a).node, t.input).outcome == Fail(Io(c));
    StepErrorDecidesExit(PollStep(topic), node, a, t, b, Io(c));
  }

  lemma {:induction false} PollsOnlyRespond(topic: TopicName, node: Node, turns: seq<Turn<PollInput>>)
    ensures var r := Loop(PollStep(topic), node, turns);
            (forall f :: f in r.sent ==> f.ConsumerResponse?) && r.relayed == [] && r.node.peers == node.peers
    decreases |turns|
  {
    if |turns| > 0 && !turns[0].cancelled {
      var s := PollStep(topic)(node, turns[0].input);
      if s.outcome.Pass? {
        PollsOnlyRespond(topic, s.node, turns[1..]);
      }
    }
  }

  /** The messages carried by non-empty responses, in order. */
  function Delivered(frames: seq<Frame>): seq<Payload>
  {
    if |frames| == 0 then []
    else
      (if frames[0].ConsumerResponse? && !frames[0].isEmpty then [frames[0].message] else [])
      + Delivered(frames[1..])
  }

  lemma {:induction false} DeliveredAppend(a: seq<Frame>, b: seq<Frame>)
    ensures Delivered(a + b) == Delivered(a) + Delivered(b)
    decreases |a|
  {
    if |a| == 0 {
      assert a + b == b;
    } else {
      assert (a + b)[0] == a[0];
      assert (a + b)[1..] == a[1..] + b;
      DeliveredAppend(a[1..], b);
    }
  }

  /** The messages of a queue a consumer can tell apart from "no message":
      the non-empty ones, in order. */
  function Visible(ps: seq<Payload>): seq<Payload>
  {
    if |ps| == 0 then []
    else (if |ps[0]| == 0 then [] else [ps[0]]) + Visible(ps[1..])
  }

  lemma {:induction false} VisibleAppend(a: seq<Payload>, b: seq<Payload>)
    ensures Visible(a + b) == Visible(a) + Visible(b)
    decreases |a|
  {
    if |a| == 0 {
      assert a + b == b;
    } else {
      assert (a + b)[0] == a[0];
      assert (a + b)[1..] == a[1..] + b;
      VisibleAppend(a[1..], b);
    }
  }

  /** One poll on its own pops at most one message off the topic's queue
      and hands out what it popped, unless that message is empty. */
  lemma PollPops(topic: TopicName, node: Node, input: PollInput)
    requires TopicStore.ValidStore(node.store) && TopicStore.Exists(node.store, topic)
    ensures var s := Poll(topic, node, input);
            TopicStore.ValidStore(s.node.store) && TopicStore.Exists(s.node.store, topic) &&
            Delivered(s.sent) + Visible(TopicStore.PendingOn(s.node.store, topic)) ==
              Visible(TopicStore.PendingOn(node.store, topic))
  {
    var s := Poll(topic, node, input);
    if input.trigger.Got? && |input.trigger.raw| > 0 {
      TopicStore.ReadPopsQueue(node.store, topic);
      var f := TopicStore.Read(node.store, topic).value;
      assert s.sent == [ResponseFor(f.message)];
      assert s.sent[1..] == [];
      if f.message.Some? {
        var pend := TopicStore.PendingOn(node.store, topic);
        assert pend == [pend[0]] + pend[1..];
        VisibleAppend([pend[0]], pend[1..]);
        assert [pend[0]][1..] == [];
        assert Delivered(s.sent) == Visible([pend[0]]);
      } else {
        assert Delivered(s.sent) == [];
      }
    } else {
      assert Delivered(s.sent) == [];
    }
  }

  /** A polling session on its own drains its topic in order, each message
      once: the messages handed out followed by what is still pending are
      exactly what was pending when the session began (empty messages are
      consumed but reported as "no message", so they are not counted on
      either side). */
  lemma {:induction false} PollingDrainsInOrder(topic: TopicName, node: Node, turns: seq<Turn<PollInput>>)
    requires TopicStore.ValidStore(node.store) && TopicStore.Exists(node.store, topic)
    ensures var r := PollLoop(topic, node, turns);
            TopicStore.ValidStore(r.node.store) && TopicStore.Exists(r.node.store, topic) &&
            Delivered(r.sent) + Visible(TopicStore.PendingOn(r.node.store, topic)) ==
              Visible(TopicStore.PendingOn(node.store, topic))
    decreases |turns|
  {
    var r := PollLoop(topic, node, turns);
    if |turns| == 0 || turns[0].cancelled {
      assert r.node == node && r.sent == [];
    } else {
      var s := Poll(topic, node, turns[0].input);
      assert PollStep(topic)(node, turns[0].input) == s;
      PollPops(topic, node, turns[0].input);
      if s.outcome.Pass? {
        PollingDrainsInOrder(topic, s.node, turns[1..]);
        var rest := PollLoop(topic, s.node, turns[1..]);
        assert r.sent == s.sent + rest.sent && r.node == rest.node;
        DeliveredAppend(s.sent, rest.sent);
        var mid := Visible(TopicStore.PendingOn(s.node.store, topic));
        var start := Visible(TopicStore.PendingOn(node.store, topic));
        TopicStore.Regroup(Delivered(s.sent), Delivered(rest.sent),
                           Visible(TopicStore.PendingOn(rest.node.store, topic)), mid, [], start);
        assert mid + [] == mid;
        assert start + [] == start;
      } else {
        assert r.sent == s.sent && r.node == s.node;
      }
    }
  }

  /** A whole consumer session on a topic that exists drains it in order:
      after the echo, the messages handed out followed by the non-empty
      messages still pending are the non-empty messages pending when the
      session subscribed. */
  lemma ConsumerSessionDrainsInOrder(node: Node, sub: SubscribeInput, turns: seq<Turn<PollInput>>)
    requires Subscribe(sub).topic.Ok?
    requires TopicStore.ValidStore(node.store) && TopicStore.Exists(node.store, Subscribe(sub).topic.value)
    ensures var t := Subscribe(sub).topic.value;
            var r := ConsumerDo(node, sub, turns);
            TopicStore.ValidStore(r.node.store) && TopicStore.Exists(r.node.store, t) &&
            Delivered(r.sent[1..]) + Visible(TopicStore.PendingOn(r.node.store, t)) ==
              Visible(TopicStore.PendingOn(node.store, t))
  {
    var t := Subscribe(sub).topic.value;
    var r := ConsumerDo(node, sub, turns);
    var run := PollLoop(t, node, turns);
    PollingDrainsInOrder(t, node, turns);
    assert r.sent[1..] == run.sent;
  }
}
