# jellyfish broker core, modelled in Dafny

jellyfish is a small message broker. Producers publish opaque byte messages
to named topics. Consumers pull them one at a time. A broker can forward
every produced message to a fixed list of replica brokers before it
acknowledges the producer.

This project models the broker's core as pure state-transition functions:

- the in-memory topic store (`internal/broker/broker.go`), module `TopicStore`;
- the replication controller with its per-peer health flags
  (`internal/broker/partition.go`), module `Replication`;
- the connection handshake and the three role loops, module `Handler`
  (handshake and the shared loop, `handler.go`), module `Producing`
  (`do_producer.go`), module `Consuming` (`do_consumer.go`) and module
  `Replica` (`do_partition.go`);
- the connecting side of the handshake (`pkg/ping/ping.go`), module `Pinger`.

Module `Wire` holds the shared vocabulary: errors, frames, and the outcomes
of single reads and writes. Module `Scenarios` holds end-to-end runs.

Sockets and protobuf are not modelled as bytes. A step receives what its
I/O did as plain values:

- what a `Read` returned;
- what `proto.Unmarshal` made of those bytes (`None` when they do not decode);
- whether a `Write` succeeded;
- for replication, a function from peer position to everything that peer's
  connection does in the round.

A step returns:

- the new shared state (store and peers);
- the frames it wrote to the client;
- the frames it wrote to replicas;
- its outcome.

A loop is a fold of one step over a sequence of turns. Each turn records
whether cancellation was observed at the top of that iteration.

`errors.Wrap` only adds context text, so the model keeps an error's cause
and drops the text. `isSysError` looks through wrapping, and the model
agrees with it.

Some of the code's behaviour differs from what a reader of its names and
comments might expect; the model follows the code:

- `Write` on a topic that does not exist yet only creates the topic and
  returns (`broker.go:39-44`); it does not append. The first message
  produced to a new topic is therefore acknowledged and lost.
  `TopicStore.Write` and `Scenarios.FirstProduceCreatesTopicOnly` show it.
- A fan-out round runs under a timeout group that looks as if it reports a
  deadline error when the round takes too long. It never does:
  - the watcher is attached to a `Group` that `New` discards (`group.go:15-26`);
  - it ranges over `ctx.Done()`, which is closed and never sent on.
  - A round therefore returns the peer loop's own result, and that is what `Replication.AskByPeers` returns.
  - The only effect of the deadline is that a handshake started after it has passed reports success without any I/O (`ping.go:40-44`). `PeerIo.cancelled` models that.
- A handshake failure can only fail an unverified peer: an initialised peer
  is never handshaken again, so a healthy peer fails only on a forward.
- A round that succeeds does not leave every non-failed peer healthy. A
  peer whose first handshake failed is failed and the round still
  succeeds. `Replication.SuccessfulRound` states what does hold.
- The pong is written before the role code is looked at, so an unknown
  role still gets a pong and then an error (`handler.go:78-106`).
- A zero-length message is stored as a nil slice, because a protobuf bytes
  field with no bytes decodes to nil. Delivering it takes it off the queue
  but answers `IsEmpty = true`, exactly like an empty topic.
  `Consuming.ResponseFor` and `Consuming.PollingDrainsInOrder` model this.

## Model

| member | source | states |
|---|---|---|
| Wire.IsSysError | internal/broker/handler.go:111-113 | an error counts as a peer disconnect exactly when it is an end of stream, a broken pipe or a connection reset, however it was wrapped |
| Wire.WriteOutcome | internal/broker/handler.go:128-136 | a write's step outcome passes exactly when the write succeeded, and otherwise carries the I/O cause |
| TopicStore.Append | internal/broker/broker.go:116-119 | the log gains exactly the payload at its end, the write offset grows by one, the cursor stays put; a valid log stays valid and its pending queue gains the payload at the back |
| TopicStore.Message | internal/broker/broker.go:102-114 | "no message" exactly when the cursor is at or past the end, and then the log is untouched; otherwise the head of the pending queue is handed out and leaves the queue; messages and write offset never change, validity is kept |
| TopicStore.Exists | internal/broker/broker.go:67-74 | a topic exists exactly when the map holds a log for it; a nil map holds no topic |
| TopicStore.Create | internal/broker/broker.go:76-83 | fails with "storage not initialized" exactly on a nil map; otherwise installs an empty log under the name and leaves every other topic as it was |
| TopicStore.Put | internal/broker/broker.go:85-94 | the named topic now has the given log and no other topic changes |
| TopicStore.Write | internal/broker/broker.go:35-48 | errors exactly on a nil map; an absent topic gets an empty log and the payload is dropped; an existing topic's log gets the payload appended; every other topic is unchanged; store validity is kept |
| TopicStore.Read | internal/broker/broker.go:50-61 | errors exactly on a nil map; an absent topic is created and yields "no message"; an existing topic yields what its log's `message` yields and keeps the advanced log; every other topic is unchanged |
| TopicStore.ReadPopsQueue | internal/broker/broker.go:102-114 | on an existing topic a read is a queue pop: nothing from an empty queue, otherwise the oldest pending message, which then leaves the queue |
| TopicStore.WritePushesQueue | internal/broker/broker.go:46-47 | on an existing topic a write is a queue push of the payload at the back |
| TopicStore.PackFifo | internal/broker/broker.go:102-119 | under any interleaving of appends and reads on one log, the messages delivered followed by those still pending equal the messages pending at the start followed by those appended, in order (FIFO, each exactly once) |
| TopicStore.AppendsThenReads | internal/broker/broker.go:111-119 | n appends to a fresh log then n+1 reads return the n payloads in append order and then "no message" |
| TopicStore.DrainAll | internal/broker/broker.go:102-114 | at least as many reads as pending messages deliver exactly the pending queue |
| TopicStore.TopicFifo | internal/broker/broker.go:35-61 | under any sequence of writes and reads on any topics, what is delivered on an existing topic followed by what is still pending there equals what was pending followed by every payload written to it |
| TopicStore.TopicIsolation | internal/broker/broker.go:85-94 | operations that never name a topic leave its log, messages and cursor alike, unchanged (absent stays absent) and deliver nothing from it |
| Pinger.Code | pkg/ping/ping.go:33-37 | every role's code lies in 1..3 and decodes back to that role |
| Pinger.RoleOf | internal/broker/handler.go:94-106 | a code names a role exactly when it lies in 1..3 |
| Pinger.CodesAreInverse | pkg/ping/ping.go:29-37 | a code decodes to a role if and only if it is that role's code |
| Pinger.Ping | pkg/ping/ping.go:39-86 | a done context succeeds with no I/O; otherwise success exactly when the code encodes to bytes, the ping is written and the answer is a non-empty frame decoding to `true`; the ping is the only frame sent; each failure carries its error: empty encoding, the I/O cause of a failed write or of a failed pong read, null pong, a pong that does not decode is an unmarshal error, not ponged |
| Replication.NewPartition | internal/broker/partition.go:37-82 | a nil list is refused; success exactly when every address is non-empty and dials, and then one fresh peer per address; an error names the first empty or undialable address, and all addresses before it were usable |
| Replication.TryWrite | internal/broker/partition.go:147-165 | the forwarded frame is the only frame sent; success exactly when the write succeeds and the acknowledgment is a non-empty frame decoding to `true`; a failed write or acknowledgment read carries its I/O cause, an empty read is "undefined message", an acknowledgment that does not decode is an unmarshal error, a `false` acknowledgment is "not acked" |
| Replication.Handshake | internal/broker/partition.go:143-145 | a peer handshake announces the replica role; it succeeds with no I/O once the round's context is done, and otherwise exactly when the ping is written and answered with a pong |
| Replication.VisitPeer | internal/broker/partition.go:116-136 | a failed peer is skipped unchanged; a failed first handshake fails the peer uninitialised and the round continues; an initialised peer is only sent the frame; a peer that is or becomes initialised is sent its handshake (only if it needed one) and then the frame exactly once; the visit fails exactly when a handshaken peer's forward is not acknowledged, and then the peer is failed and the error is the forward's own; the peer is healthy afterwards exactly when it was handshaken and acknowledged; a done context initialises the peer without a handshake |
| Replication.Walk | internal/broker/partition.go:116-137 | the walk from position i keeps the peer count, leaves earlier and failed peers alone, never un-initialises a peer, and only sends handshakes or the frame to non-failed peers at or after i |
| Replication.AskByPeers | internal/broker/partition.go:109-141 | a round keeps failed peers exactly as they were, never turns a healthy peer back to unverified, and sends only to peers that were not failed, healthy ones receiving only the forwarded frame |
| Replication.WalkSucceeds | internal/broker/partition.go:116-137 | a walk succeeds only if every peer's own visit succeeded, and each peer ends as its own visit left it |
| Replication.WalkSendsPerPeer | internal/broker/partition.go:116-136 | in a walk that succeeds, the frames written to each peer from the starting position on are exactly its own visit's frames, in order |
| Replication.SuccessfulRound | internal/broker/partition.go:116-137 | after a successful round every peer that was not failed is healthy and acknowledged the frame, or was unverified, failed its handshake and is now failed without being initialised; each peer was written exactly the frames of its own visit, in order (so an acknowledged peer got the frame once) |
| Replication.AbortedRound | internal/broker/partition.go:130-133 | a failed round stopped at one peer that was not failed: its forward failed, it is now failed, the round's error is its error, every earlier peer's visit succeeded, each peer up to it was written exactly its visit's frames, and no later peer was changed or sent anything |
| Replication.HealthIsMonotone | internal/broker/partition.go:116-128 | across any number of rounds a failed peer is never retried or revived and an initialised peer is never un-initialised |
| Handler.Do | internal/broker/handler.go:44-109 | a done context ends the handshake with no I/O and no error; a zero-byte read is a null message; the pong is sent whenever the ping decodes, before its role is checked; exactly one loop starts, for a known role and only once the pong is written; otherwise, a failed read, an undecodable ping, a failed pong write or an unknown role is an error, and the connection is closed exactly on error |
| Handler.HandshakeAgreesOnRole | pkg/ping/ping.go:50-62 | the ping a client sends for a role starts exactly that role's loop on a server that reads it and writes its pong |
| Handler.ExitOn | internal/broker/handler.go:111-113 | a loop ends quietly exactly on end of stream, broken pipe or connection reset, and with a logged error otherwise, keeping the error |
| Handler.Loop | internal/broker/do_producer.go:26-44 | no step runs on a turn that saw cancellation; a loop stops because cancellation was seen at the turn after its last step, because a step failed, with an exit classified from that error, or because the turns ran out |
| Handler.LoopEndsAtFailure | internal/broker/do_producer.go:33-41 | a loop that ends on an error ends on the first failed step: every earlier step passed, and the session is those steps, the failed step and the exit its error classifies to |
| Handler.LoopStopsOnFirstError | internal/broker/do_producer.go:33-41 | once a step fails, no later turn is read: the session is the turns before it, that step and its exit, whatever input follows |
| Handler.StepErrorDecidesExit | internal/broker/do_producer.go:33-41 | a step failing with a peer disconnect ends its loop quietly, and any other error ends it logged |
| Handler.EndedLoopIgnoresLaterTurns | internal/broker/do_producer.go:28-43 | once a loop has stopped, further input changes nothing about the session |
| Handler.LoopSplits | internal/broker/do_producer.go:28-43 | a session over two batches of turns is the first batch then, if still running, the second from where it stopped |
| Handler.LoopKeeps | internal/broker/do_producer.go:28-43 | a reflexive, transitive relation every step keeps between states holds between a session's first and last state |
| Handler.LoopSendsOnly | internal/broker/do_producer.go:28-43 | if every step writes only frames of one kind, so does the whole session |
| Producing.Produce | internal/broker/do_producer.go:46-88 | a failed read carries its I/O cause, an empty read is a null message, an undecodable one an unmarshal error, and none of them changes or sends anything; the store write comes first and persists whatever replication does; with no controller nothing is relayed; with one, the step's peers and relayed frames are the round's, the round's error is the step's, and replicas receive only handshakes and a frame carrying the produced topic and message; the acknowledgment is sent exactly when the store write and any round succeeded, and the step's outcome is then the outcome of writing it |
| Producing.ProducerDo | internal/broker/do_producer.go:26-44 | a producer session checks cancellation before every step, stops on the first failed step with that step's error, and only ever sends positive acknowledgments |
| Producing.ProducerSessionKeepsPeerHealth | internal/broker/do_producer.go:71-79 | over a whole producer session failed peers stay untouched and initialised peers stay initialised |
| Producing.ProduceKeepsPeerHealth | internal/broker/do_producer.go:71-79 | one produce step keeps failed peers untouched and initialised peers initialised |
| Producing.NoControllerNoReplication | internal/broker/do_producer.go:71 | without a replication controller a session never contacts a replica and never acquires peers |
| Producing.ProducerHangUp | internal/broker/do_producer.go:33-40 | a producer read that fails with end of stream, broken pipe or connection reset ends the session quietly; any other read failure ends it logged |
| Producing.FailedPeerIsSkippedNextTime | internal/broker/partition.go:116-119 | a peer one produce step leaves failed is not contacted by the next produce step and stays exactly as it is |
| Consuming.Subscribe | internal/broker/do_consumer.go:64-86 | read errors, null reads and undecodable frames send nothing and carry their own errors; a decoded subscribe frame is echoed back byte for byte; the subscription holds the decoded topic exactly when the echo was written, and a failed echo carries its I/O cause |
| Consuming.ResponseFor | internal/broker/do_consumer.go:103-113 | a response is empty exactly when the store had no message or a zero-length one, and otherwise carries the message bytes |
| Consuming.Poll | internal/broker/do_consumer.go:88-114 | without a usable trigger the store is untouched and nothing is sent, a failed trigger read carrying its I/O cause; a trigger reads the subscribed topic exactly once and answers with what came out, the outcome being that of writing the answer; the cursor stays advanced even when the answer cannot be written; replication state never changes |
| Consuming.ConsumerDo | internal/broker/do_consumer.go:27-57 | a failed subscribe ends the session before any poll with the exit its error classifies to; otherwise the session is the echo followed by the polling loop on the subscribed topic, with that loop's state, frames, exit and step count |
| Consuming.PollLoop | internal/broker/do_consumer.go:41-56 | a polling session only ever writes responses, never relays to replicas, and stops on the first failed poll with that poll's error |
| Consuming.PollingDrainsInOrder | internal/broker/do_consumer.go:88-114 | a polling session drains its topic in order: the messages handed out followed by the non-empty messages still pending equal the non-empty messages pending at the start |
| Consuming.ConsumerHangUp | internal/broker/do_consumer.go:46-53 | a subscribed consumer whose trigger read fails with end of stream, broken pipe or connection reset ends the session quietly; any other read failure ends it logged |
| Consuming.ConsumerSessionDrainsInOrder | internal/broker/do_consumer.go:27-57 | a whole consumer session on an existing topic hands out, after the echo, the topic's non-empty pending messages in order, each once, leaving the rest pending |
| Replica.Replicate | internal/broker/do_partition.go:46-64 | the replica never touches the store or the peers and never relays; it acknowledges exactly a frame that was read and decoded, and the outcome is then that of writing the acknowledgment; a read error carries its I/O cause, a zero-byte read is "undefined message", an undecodable frame an unmarshal error |
| Replica.PartitionDo | internal/broker/do_partition.go:26-44 | a replica session checks cancellation before every step, stops on the first failed step with that step's error, and never relays to other replicas |
| Replica.ReplicaSessionIsStateless | internal/broker/do_partition.go:26-64 | a whole replica session leaves the broker's state as it found it and only writes positive acknowledgments |
| Replica.ReplicaAcksEveryTurn | internal/broker/do_partition.go:28-43 | a replica session still running after its turns acknowledged once per turn |
| Replica.PrimaryHangUp | internal/broker/do_partition.go:33-40 | a replica session whose read fails with end of stream, broken pipe or connection reset ends quietly; any other read failure ends it logged |
| Scenarios.FirstProduceCreatesTopicOnly | internal/broker/broker.go:39-44 | on a fresh broker the first message produced to a topic is acknowledged yet never delivered; a later non-empty message is delivered once, then the topic reads empty |
| Scenarios.OfflineReplicaIsSkipped | internal/broker/partition.go:116-136 | with two fresh replicas, the first unreachable, a round succeeds, fails the first without initialising it, and handshakes, forwards to and heals the second |

## Left out

- The store-wide `sync.RWMutex` and all concurrency. The store is modelled sequentially. `Read` creating a topic under a read lock is a race, not sequential behaviour.
- The timeout task group's goroutines and channels, and the round's deadline.
  - The deadline can only cut a round short through a handshake, so it is an input: a peer's `cancelled` flag.
  - The timeout duration is not modelled.
- Protobuf encoding and `pkg/conn` framing. Frames are datatypes, and decoding is an input.
  - The fixed 512- and 1024-byte read buffers are left out, along with the truncation of longer frames.
  - The assumption that one write equals one read is left out too.
- A failing `proto.Marshal` of the broker's own frames is not modelled, since those frames always encode. The one encoding failure the code checks for, a ping that encodes to no bytes (code 0), is modelled.
- Closing the connections that were already dialled when `NewPartition` fails. Addresses and dialling are inputs, and connections are not modelled.
- The client libraries (`pkg/producer`, `pkg/consumer`), the listener, `main`, configuration loading and the example program are outside the core.
- Logging. Its only visible effect, quiet versus logged loop exit, is the `Disconnected` / `Failed` distinction.
- The recovery of panics in `closeConnection`. Nothing in the core panics.
- Handler.Do: the loop it starts runs as a separate goroutine. The model reports which role was started and leaves the loop to `ProducerDo`, `ConsumerDo` and `PartitionDo`.
