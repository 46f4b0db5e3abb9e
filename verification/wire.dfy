/** Vocabulary shared by every part of the broker: bytes, topic names, the
    errors a connection can end with, the frames written to a connection and
    the outcomes of single reads and writes.

    Nothing here touches a socket. A read or a write on a connection is an
    oracle value handed to the step that performs it, and protobuf decoding is
    an oracle value as well: the step receives what `proto.Unmarshal` would
    have produced from the bytes it read. */
module Wire {

  newtype byte = x: int | 0 <= x < 0x100
  newtype int32 = x: int | -0x8000_0000 <= x < 0x8000_0000

  /** An opaque message body; the broker imposes no schema on it. */
  type Payload = seq<byte>

  /** Topic names are compared as plain strings (case-sensitive). */
  type TopicName = string

  datatype Option<T> = None | Some(value: T)

  /** Operating-system causes a read or a write can fail with. */
  datatype IoFailure = EndOfStream | BrokenPipe | ConnectionReset | OtherIoFailure

  /** Every error the core can return. `errors.Wrap` only adds context, so
      the model keeps the cause and drops the context text. */
  datatype Error =
    | Io(cause: IoFailure)          // a read or write on a connection failed
    | NullMessage                   // a zero-byte read where a frame was expected
    | StorageNotInitialized         // the topic map was never made
    | Unmarshal                     // the bytes read do not decode
    | UndefinedPingType             // handshake role outside 1..3
    | UndefinedMessage              // zero-byte read inside conn.ReadProto
    | NullPong                      // zero-byte read of a pong by the pinging side
    | NotPonged                     // pong frame carrying `false`
    | EmptyMarshal                  // a ping that encodes to no bytes
    | NotAcked                      // replica acknowledgment carrying `false`
    | NilConnections                // replication configured with no address list
    | EmptyAddress(index: nat)      // replica address at `index` is ""
    | DialFailed(index: nat, cause: IoFailure)

  datatype Result<T> = Ok(value: T) | Err(error: Error)

  datatype Outcome = Pass | Fail(error: Error)

  /** One `Read` call on a connection: an error, or the bytes it returned
      (possibly none). */
  datatype Read = ReadFailed(cause: IoFailure) | Got(raw: Payload)

  /** One `Write` call on a connection. */
  datatype Write = Written | WriteFailed(cause: IoFailure)

  function WriteOutcome(w: Write): (r: Outcome)
    ensures r.Pass? <==> w.Written?
    ensures w.WriteFailed? ==> r == Fail(Io(w.cause))
  {
    match w
    case Written => Pass
    case WriteFailed(c) => Fail(Io(c))
  }

  /** A (topic, message) pair: the body of a produce frame and of a frame
      forwarded to a replica. */
  datatype Envelope = Envelope(topic: TopicName, message: Payload)

  /** Frames the broker and its peers write to a connection. */
  datatype Frame =
    | PingFrame(ping: int32)
    | PongFrame(pong: bool)
    | ProducerAsk(ask: bool)
    | SubscribeEcho(raw: Payload)
    | ConsumerResponse(isEmpty: bool, message: Payload)
    | Forward(topic: TopicName, message: Payload)
    | PartitionAsk(ask: bool)

  /** What one request/response exchange on a connection did: the frames it
      handed to `Write`, in order, and how it ended. */
  datatype Exchange = Exchange(sent: seq<Frame>, outcome: Outcome)

  /** The peer-disconnect errors: end of stream, broken pipe, connection
      reset. Loops end quietly on these and log everything else. */
  predicate IsSysError(e: Error)
    ensures IsSysError(e) <==> e == Io(EndOfStream) || e == Io(BrokenPipe) || e == Io(ConnectionReset)
  {
    e.Io? && e.cause != OtherIoFailure
  }
}
