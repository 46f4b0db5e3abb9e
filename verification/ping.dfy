/** The handshake as seen from the connecting side (`pkg/ping`): the role
    codes, and when a ping counts as answered. The replication controller
    handshakes with its peers through this. */
module Pinger {
  import opened Wire

  /** `PayloadType`: the role a connection announces in its handshake. */
  datatype Role = Publisher | Consumer | Partition

  /** The wire code of a role. */
  function Code(role: Role): (c: int32)
    ensures 1 <= c <= 3
    ensures RoleOf(c) == Some(role)
  {
    match role
    case Publisher => 1
    case Consumer => 2
    case Partition => 3
  }

  /** The role a wire code stands for, if any. */
  function RoleOf(c: int32): (r: Option<Role>)
    ensures r.Some? <==> 1 <= c <= 3
  {
    if c == 1 then Some(Publisher)
    else if c == 2 then Some(Consumer)
    else if c == 3 then Some(Partition)
    else None
  }

  /** Every known code names exactly one role, and that role's code is it. */
  lemma {:induction false} CodesAreInverse(c: int32, role: Role)
    ensures RoleOf(c) == Some(role) <==> Code(role) == c
  {
    if RoleOf(c) == Some(role) {
      assert 1 <= c <= 3;
    }
  }

  /** What the peer does with one ping: the outcome of writing the ping
      frame, the outcome of reading the answer, and what the answer
      decodes to (`None` when it does not decode). */
  datatype PingIo = PingIo(write: Write, read: Read, pong: Option<bool>)

  /** The answer counted as a pong: a non-empty read that decodes to `true`. */
  predicate Ponged(io: PingIo)
  {
    io.read.Got? && |io.read.raw| > 0 && io.pong == Some(true)
  }

  /** `Ping.Ping` followed by `Ping.ping`. A context that is already cancelled
      counts as success and does no I/O. A code of 0 encodes to no bytes
      and is refused before anything is written. */
  function Ping(cancelled: bool, code: int32, io: PingIo): (r: Exchange)
    ensures cancelled ==> r == Exchange([], Pass)
    ensures !cancelled ==> (r.outcome.Pass? <==> code != 0 && io.write.Written? && Ponged(io))
    ensures !cancelled && code != 0 ==> r.sent == [PingFrame(code)]
    ensures !cancelled && code == 0 ==> r == Exchange([], Fail(EmptyMarshal))
    ensures !cancelled && code != 0 && io.write.WriteFailed? ==> r.outcome == Fail(Io(io.write.cause))
    ensures !cancelled && code != 0 && io.write.Written? && io.read.ReadFailed? ==>
              r.outcome == Fail(Io(io.read.cause))
    ensures !cancelled && code != 0 && io.write.Written? && io.read.Got? && |io.read.raw| == 0 ==>
              r.outcome == Fail(NullPong)
    ensures (!cancelled && code != 0 && io.write.Written? && io.read.Got? && |io.read.raw| > 0 &&
             io.pong == Some(false)) ==> r.outcome == Fail(NotPonged)
    ensures (!cancelled && code != 0 && io.write.Written? && io.read.Got? && |io.read.raw| > 0 &&
             io.pong.None?) ==> r.outcome == Fail(Unmarshal)
  {
    if cancelled then Exchange([], Pass)
    else if code == 0 then Exchange([], Fail(EmptyMarshal))
    else
      var sent := [PingFrame(code)];
      match io.write
      case WriteFailed(c) => Exchange(sent, Fail(Io(c)))
      case Written =>
        match io.read
        case ReadFailed(c) => Exchange(sent, Fail(Io(c)))
        case Got(raw) =>
          if |raw| == 0 then Exchange(sent, Fail(NullPong))
          else
            match io.pong
            case None => Exchange(sent, Fail(Unmarshal))
            case Some(ok) => Exchange(sent, if ok then Pass else Fail(NotPonged))
  }
}
