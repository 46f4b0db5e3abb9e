/** The replication controller (`Partition`): a fixed list of peer brokers
    with per-peer health, and the fan-out round that forwards one produced
    message to them in list order.

    Every peer carries two flags, `isInit` (handshake done) and `isFail`
    (skipped from now on). A failed handshake on a peer that was never
    initialised is a soft failure: the peer is marked failed and the round
    goes on. A failed forward or acknowledgment is a hard failure: the peer
    is marked failed and the round stops with an error.

    What each peer connection does during a round is an oracle, `io(k)` for
    the peer at position `k`. */
module Replication {
  import opened Wire
  import Pinger

  datatype Peer = Peer(isFail: bool, isInit: bool)

  /** `newPeer`: connected, not yet handshaken, not failed. */
  const FreshPeer := Peer(false, false)

  /** The three effective states the two flags encode. */
  datatype Health = Unverified | Healthy | Failed

  function HealthOf(p: Peer): Health
  {
    if p.isFail then Failed else if p.isInit then Healthy else Unverified
  }

  // ---------------------------------------------------------------------
  // Construction

  /** Address `i` is usable: non-empty, and dialling it succeeded. */
  predicate Reachable(addresses: seq<string>, dial: nat -> Option<IoFailure>, i: nat)
    requires i < |addresses|
  {
    addresses[i] != "" && dial(i).None?
  }

  /** `NewPartition` with `initPullConnections`: refuse a missing address
      list, then dial the addresses in order, stopping at the first empty
      address or failed dial. `dial(i)` is the outcome of dialling address
      `i`. The fixed round timeout is not part of the model. */
  method NewPartition(addresses: Option<seq<string>>, dial: nat -> Option<IoFailure>)
    returns (r: Result<seq<Peer>>)
    ensures addresses.None? ==> r == Err(NilConnections)
    ensures r.Ok? <==>
              addresses.Some? &&
              forall i :: 0 <= i < |addresses.value| ==> Reachable(addresses.value, dial, i)
    ensures r.Ok? ==>
              |r.value| == |addresses.value| &&
              forall k :: 0 <= k < |r.value| ==> r.value[k] == FreshPeer
    ensures r.Err? && r.error.EmptyAddress? ==>
              addresses.Some? && r.error.index < |addresses.value| &&
              addresses.value[r.error.index] == "" &&
              forall j :: 0 <= j < r.error.index ==> Reachable(addresses.value, dial, j)
    ensures r.Err? && r.error.DialFailed? ==>
              addresses.Some? && r.error.index < |addresses.value| &&
              addresses.value[r.error.index] != "" &&
              dial(r.error.index) == Some(r.error.cause) &&
              forall j :: 0 <= j < r.error.index ==> Reachable(addresses.value, dial, j)
    ensures r.Err? ==> r.error.NilConnections? || r.error.EmptyAddress? || r.error.DialFailed?
  {
    if addresses.None? {
      return Err(NilConnections);
    }
    var a := addresses.value;
    var peers: seq<Peer> := [];
    var i := 0;
    while i < |a|
      invariant i <= |a|
      invariant |peers| == i
      invariant forall k :: 0 <= k < i ==> peers[k] == FreshPeer
      invariant forall j :: 0 <= j < i ==> Reachable(a, dial, j)
    {
      if a[i] == "" {
        assert !Reachable(a, dial, i);
        return Err(EmptyAddress(i));
      }
      match dial(i) {
        case Some(cause) =>
          assert !Reachable(a, dial, i);
          return Err(DialFailed(i, cause));
        case None =>
      }
      peers := peers + [FreshPeer];
      i := i + 1;
    }
    return Ok(peers);
  }

  // ---------------------------------------------------------------------
  // One peer

  /** What one peer connection does during a round: whether the round's
      context is already done when the peer is handshaken, the handshake
      I/O, the outcome of writing the forwarded frame, the read of the
      acknowledgment and what it decodes to. */
  datatype PeerIo = PeerIo(cancelled: bool, handshake: Pinger.PingIo,
                           forward: Write, ack: Read, acked: Option<bool>)

  /** The peer acknowledged the forwarded frame. */
  predicate Acks(io: PeerIo)
  {
    io.forward.Written? && io.ack.Got? && |io.ack.raw| > 0 && io.acked == Some(true)
  }

  /** `peer.tryWrite`: write the frame, read the acknowledgment, require it
      to say `true`. */
  function TryWrite(m: Frame, io: PeerIo): (r: Exchange)
    ensures r.sent == [m]
    ensures r.outcome.Pass? <==> Acks(io)
    ensures io.forward.WriteFailed? ==> r.outcome == Fail(Io(io.forward.cause))
    ensures io.forward.Written? && io.ack.ReadFailed? ==> r.outcome == Fail(Io(io.ack.cause))
    ensures io.forward.Written? && io.ack.Got? && |io.ack.raw| == 0 ==> r.outcome == Fail(UndefinedMessage)
    ensures io.forward.Written? && io.ack.Got? && |io.ack.raw| > 0 && io.acked == Some(false) ==>
              r.outcome == Fail(NotAcked)
    ensures io.forward.Written? && io.ack.Got? && |io.ack.raw| > 0 && io.acked.None? ==>
              r.outcome == Fail(Unmarshal)
  {
    match io.forward
    case WriteFailed(c) => Exchange([m], Fail(Io(c)))
    case Written =>
      match io.ack
      case ReadFailed(c) => Exchange([m], Fail(Io(c)))
      case Got(raw) =>
        if |raw| == 0 then Exchange([m], Fail(UndefinedMessage))
        else
          match io.acked
          case None => Exchange([m], Fail(Unmarshal))
          case Some(ok) => Exchange([m], if ok then Pass else Fail(NotAcked))
  }

  /** The handshake frame a peer is sent: a ping announcing the replica role. */
  const ReplicaPing := PingFrame(Pinger.Code(Pinger.Partition))

  /** `peer.ping`: a handshake announcing the replica role. It succeeds
      without any I/O once the round's deadline has passed, and otherwise
      exactly when the ping is written and answered with a pong. */
  function Handshake(io: PeerIo): (r: Exchange)
    ensures r.outcome.Pass? <==> io.cancelled || (io.handshake.write.Written? && Pinger.Ponged(io.handshake))
    ensures io.cancelled ==> r.sent == []
    ensures !io.cancelled ==> r.sent == [ReplicaPing]
  {
    Pinger.Ping(io.cancelled, Pinger.Code(Pinger.Partition), io.handshake)
  }

  /** The handshake of a peer that is not yet initialised succeeds. */
  predicate Greets(io: PeerIo)
  {
    Handshake(io).outcome.Pass?
  }

  datatype Visit = Visit(peer: Peer, sent: seq<Frame>, outcome: Outcome)

  /** One iteration of the fan-out loop, for one peer. */
  function VisitPeer(p: Peer, m: Frame, io: PeerIo): (r: Visit)
    // a failed peer is skipped and left as it is
    ensures p.isFail ==> r == Visit(p, [], Pass)
    // soft failure: the handshake fails, the peer is failed, the round goes on
    ensures !p.isFail && !p.isInit && !Greets(io) ==>
              r.peer == Peer(true, false) && r.outcome.Pass? && r.sent == Handshake(io).sent
    // an initialised peer is never handshaken again: only the forward is sent
    ensures !p.isFail && p.isInit ==> r.sent == [m]
    // a peer that is (or becomes) initialised is sent the forward exactly
    // once, after the handshake if it needed one
    ensures !p.isFail && (p.isInit || Greets(io)) ==>
              r.sent == (if p.isInit then [] else Handshake(io).sent) + [m]
    // hard failure: the forward or its acknowledgment fails
    ensures r.outcome.Fail? <==> !p.isFail && (p.isInit || Greets(io)) && !Acks(io)
    ensures r.outcome.Fail? ==> r.peer == Peer(true, true) && r.outcome == TryWrite(m, io).outcome
    // success: handshaken (now or before) and acknowledged
    ensures HealthOf(r.peer) == Healthy <==> !p.isFail && (p.isInit || Greets(io)) && Acks(io)
    ensures p.isInit ==> r.peer.isInit
    // under a context that is already done the handshake reports success
    // without any I/O, so the peer is initialised all the same
    ensures !p.isFail && !p.isInit && io.cancelled ==> r.peer.isInit && r.sent == [m]
    // what a peer is sent is a handshake or the forwarded frame
    ensures forall f :: f in r.sent ==> f == m || f == ReplicaPing
  {
    if p.isFail then Visit(p, [], Pass)
    else
      var hs := if p.isInit then Exchange([], Pass) else Handshake(io);
      if hs.outcome.Fail? then Visit(p.(isFail := true), hs.sent, Pass)
      else
        var initialised := p.(isInit := true);
        var w := TryWrite(m, io);
        if w.outcome.Fail? then Visit(initialised.(isFail := true), hs.sent + w.sent, w.outcome)
        else Visit(initialised.(isFail := false), hs.sent + w.sent, Pass)
  }

  // ---------------------------------------------------------------------
  // One round

  /** A frame written to the connection of the peer at position `to`. */
  datatype Send = Send(to: nat, frame: Frame)

  function Tag(k: nat, frames: seq<Frame>): (r: seq<Send>)
    ensures |r| == |frames|
    ensures forall s :: s in r ==> s.to == k && s.frame in frames
  {
    seq(|frames|, j requires 0 <= j < |frames| => Send(k, frames[j]))
  }

  /** The frames written to the peer at position `k`, in order. */
  function SentTo(sends: seq<Send>, k: nat): (r: seq<Frame>)
    ensures |r| <= |sends|
    ensures forall f :: f in r ==> Send(k, f) in sends
    decreases |sends|
  {
    if |sends| == 0 then []
    else (if sends[0].to == k then [sends[0].frame] else []) + SentTo(sends[1..], k)
  }

  lemma {:induction false} SentToAppend(a: seq<Send>, b: seq<Send>, k: nat)
    ensures SentTo(a + b, k) == SentTo(a, k) + SentTo(b, k)
    decreases |a|
  {
    if |a| > 0 {
      assert (a + b)[1..] == a[1..] + b;
      SentToAppend(a[1..], b, k);
    } else {
      assert a + b == b;
    }
  }

  lemma {:induction false} NoneTo(sends: seq<Send>, k: nat)
    requires forall s :: s in sends ==> s.to != k
    ensures SentTo(sends, k) == []
    decreases |sends|
  {
    if |sends| > 0 {
      assert sends[0] in sends;
      NoneTo(sends[1..], k);
    }
  }

  lemma {:induction false} SentToTag(i: nat, frames: seq<Frame>, k: nat)
    ensures SentTo(Tag(i, frames), k) == if k == i then frames else []
    decreases |frames|
  {
    if |frames| > 0 {
      assert Tag(i, frames)[1..] == Tag(i, frames[1..]);
      SentToTag(i, frames[1..], k);
    }
  }

  datatype Round = Round(peers: seq<Peer>, sent: seq<Send>, outcome: Outcome)

  /** The fan-out loop from position `i` on, updating the peers in place. */
  function Walk(peers: seq<Peer>, i: nat, m: Frame, io: nat -> PeerIo): (r: Round)
    requires i <= |peers|
    decreases |peers| - i
    ensures |r.peers| == |peers|
    ensures forall k :: 0 <= k < i ==> r.peers[k] == peers[k]
    ensures forall k :: i <= k < |peers| && peers[k].isFail ==> r.peers[k] == peers[k]
    ensures forall k :: 0 <= k < |peers| && peers[k].isInit ==> r.peers[k].isInit
    ensures forall s :: s in r.sent ==> i <= s.to < |peers| && !peers[s.to].isFail
    ensures forall s :: s in r.sent && peers[s.to].isInit ==> s.frame == m
    ensures forall s :: s in r.sent ==> s.frame == m || s.frame == ReplicaPing
  {
    if i == |peers| then Round(peers, [], Pass)
    else
      var v := VisitPeer(peers[i], m, io(i));
      var after := peers[i := v.peer];
      if v.outcome.Fail? then Round(after, Tag(i, v.sent), v.outcome)
      else
        var rest := Walk(after, i + 1, m, io);
        Round(rest.peers, Tag(i, v.sent) + rest.sent, rest.outcome)
  }

  /** `Partition.AskByPeers`: one fan-out round over all peers. The round's
      result is the loop's own result (see README). */
  function AskByPeers(peers: seq<Peer>, m: Frame, io: nat -> PeerIo): (r: Round)
    ensures |r.peers| == |peers|
    ensures forall k :: 0 <= k < |peers| && HealthOf(peers[k]) == Failed ==> r.peers[k] == peers[k]
    ensures forall k :: 0 <= k < |peers| && HealthOf(peers[k]) == Healthy ==>
              HealthOf(r.peers[k]) != Unverified
    ensures forall s :: s in r.sent ==> s.to < |peers| && HealthOf(peers[s.to]) != Failed
    ensures forall s :: s in r.sent && HealthOf(peers[s.to]) == Healthy ==> s.frame == m
    ensures forall s :: s in r.sent ==> s.frame == m || s.frame == ReplicaPing
  {
    Walk(peers, 0, m, io)
  }

  /** Walking from `i` on succeeds only when every peer's own visit
      succeeds, and then every peer ends exactly as its own visit left it. */
  lemma {:induction false} WalkSucceeds(peers: seq<Peer>, i: nat, m: Frame, io: nat -> PeerIo)
    requires i <= |peers|
    requires Walk(peers, i, m, io).outcome.Pass?
    ensures forall k :: i <= k < |peers| ==>
              VisitPeer(peers[k], m, io(k)).outcome.Pass? &&
              Walk(peers, i, m, io).peers[k] == VisitPeer(peers[k], m, io(k)).peer
    decreases |peers| - i
  {
    if i < |peers| {
      var v := VisitPeer(peers[i], m, io(i));
      var after := peers[i := v.peer];
      WalkSucceeds(after, i + 1, m, io);
      assert Walk(after, i + 1, m, io).peers[i] == v.peer;
      forall k | i < k < |peers|
        ensures after[k] == peers[k]
      {
      }
    }
  }

  /** In a walk from `i` that succeeds, each peer from `i` on is written
      exactly the frames of its own visit, in order. */
  lemma {:induction false} WalkSendsPerPeer(peers: seq<Peer>, i: nat, m: Frame, io: nat -> PeerIo)
    requires i <= |peers|
    requires Walk(peers, i, m, io).outcome.Pass?
    ensures forall k :: i <= k < |peers| ==>
              SentTo(Walk(peers, i, m, io).sent, k) == VisitPeer(peers[k], m, io(k)).sent
    decreases |peers| - i
  {
    if i < |peers| {
      var v := VisitPeer(peers[i], m, io(i));
      var after := peers[i := v.peer];
      var rest := Walk(after, i + 1, m, io);
      WalkSendsPerPeer(after, i + 1, m, io);
      forall k | i <= k < |peers|
        ensures SentTo(Walk(peers, i, m, io).sent, k) == VisitPeer(peers[k], m, io(k)).sent
      {
        SentToAppend(Tag(i, v.sent), rest.sent, k);
        SentToTag(i, v.sent, k);
        if k == i {
          NoneTo(rest.sent, i);
        } else {
          assert after[k] == peers[k];
        }
      }
    }
  }

  /** A round that succeeds: every peer that was not failed at the start is
      now healthy and acknowledged the message, or it was never initialised,
      its handshake failed, and it is now failed (a soft failure). Failed
      peers stay as they were. */
  lemma SuccessfulRound(peers: seq<Peer>, m: Frame, io: nat -> PeerIo)
    requires AskByPeers(peers, m, io).outcome.Pass?
    ensures var r := AskByPeers(peers, m, io);
            forall k :: 0 <= k < |peers| && !peers[k].isFail ==>
              (HealthOf(r.peers[k]) == Healthy && Acks(io(k))) ||
              (!peers[k].isInit && !Greets(io(k)) && r.peers[k] == Peer(true, false))
    // each peer is written exactly the frames of its own visit, in order
    ensures var r := AskByPeers(peers, m, io);
            forall k :: 0 <= k < |peers| ==> SentTo(r.sent, k) == VisitPeer(peers[k], m, io(k)).sent
  {
    WalkSucceeds(peers, 0, m, io);
    WalkSendsPerPeer(peers, 0, m, io);
  }

  /** The round stopped at peer `k`: every peer before `k` had a successful
      visit, `k`'s forward failed and `k` is now failed, the round's error is
      `k`'s, and no peer after `k` was touched or sent anything. */
  ghost predicate AbortedAt(peers: seq<Peer>, i: nat, k: nat, m: Frame, io: nat -> PeerIo, r: Round)
    requires i <= k < |peers| && |r.peers| == |peers|
  {
    && VisitPeer(peers[k], m, io(k)).outcome.Fail?
    && r.outcome == VisitPeer(peers[k], m, io(k)).outcome
    && r.peers[k] == Peer(true, true)
    && (forall j :: i <= j < k ==>
          VisitPeer(peers[j], m, io(j)).outcome.Pass? && r.peers[j] == VisitPeer(peers[j], m, io(j)).peer)
    && (forall j :: k < j < |peers| ==> r.peers[j] == peers[j])
    && (forall s :: s in r.sent ==> s.to <= k)
    && (forall j :: i <= j <= k ==> SentTo(r.sent, j) == VisitPeer(peers[j], m, io(j)).sent)
  }

  /** A walk from `i` that fails stopped at some peer `k`. */
  lemma {:induction false} WalkAborts(peers: seq<Peer>, i: nat, m: Frame, io: nat -> PeerIo)
    returns (k: nat)
    requires i <= |peers|
    requires Walk(peers, i, m, io).outcome.Fail?
    ensures i <= k < |peers| && AbortedAt(peers, i, k, m, io, Walk(peers, i, m, io))
    decreases |peers| - i
  {
    var v := VisitPeer(peers[i], m, io(i));
    var after := peers[i := v.peer];
    if v.outcome.Fail? {
      k := i;
      forall j | i <= j <= k
        ensures SentTo(Walk(peers, i, m, io).sent, j) == VisitPeer(peers[j], m, io(j)).sent
      {
        SentToTag(i, v.sent, j);
      }
    } else {
      k := WalkAborts(after, i + 1, m, io);
      var r := Walk(peers, i, m, io);
      var rest := Walk(after, i + 1, m, io);
      assert r.peers == rest.peers && r.outcome == rest.outcome;
      assert after[k] == peers[k];
      assert rest.peers[i] == v.peer;
      forall j | k < j < |peers|
        ensures r.peers[j] == peers[j]
      {
        assert after[j] == peers[j];
      }
      forall j | i <= j < k
        ensures VisitPeer(peers[j], m, io(j)).outcome.Pass? && r.peers[j] == VisitPeer(peers[j], m, io(j)).peer
      {
        if j > i {
          assert after[j] == peers[j];
        }
      }
      forall j | i <= j <= k
        ensures SentTo(r.sent, j) == VisitPeer(peers[j], m, io(j)).sent
      {
        SentToAppend(Tag(i, v.sent), rest.sent, j);
        SentToTag(i, v.sent, j);
        if j == i {
          NoneTo(rest.sent, i);
        } else {
          assert after[j] == peers[j];
        }
      }
    }
  }

  /** A round that fails stopped at one peer `k` (see `AbortedAt`): the
      error is that peer's forward failure, and peers after it in the list
      are neither contacted nor changed. */
  lemma AbortedRound(peers: seq<Peer>, m: Frame, io: nat -> PeerIo) returns (k: nat)
    requires AskByPeers(peers, m, io).outcome.Fail?
    ensures k < |peers| && AbortedAt(peers, 0, k, m, io, AskByPeers(peers, m, io))
    ensures HealthOf(peers[k]) != Failed && HealthOf(AskByPeers(peers, m, io).peers[k]) == Failed
  {
    k := WalkAborts(peers, 0, m, io);
  }

  // ---------------------------------------------------------------------
  // Many rounds

  /** One produced message to fan out, with what the peers do with it. */
  datatype Fanout = Fanout(message: Frame, io: nat -> PeerIo)

  /** The peers after a series of rounds, whatever each round returned
      (a failed round does not stop later produce calls from fanning out). */
  function AfterRounds(peers: seq<Peer>, rounds: seq<Fanout>): (r: seq<Peer>)
    ensures |r| == |peers|
    decreases |rounds|
  {
    if |rounds| == 0 then peers
    else AfterRounds(AskByPeers(peers, rounds[0].message, rounds[0].io).peers, rounds[1..])
  }

  /** Across any number of rounds a failed peer is never retried or revived
      and an initialised peer never loses its handshake. */
  lemma {:induction false} HealthIsMonotone(peers: seq<Peer>, rounds: seq<Fanout>)
    ensures forall k :: 0 <= k < |peers| && peers[k].isFail ==> AfterRounds(peers, rounds)[k] == peers[k]
    ensures forall k :: 0 <= k < |peers| && peers[k].isInit ==> AfterRounds(peers, rounds)[k].isInit
    decreases |rounds|
  {
    if |rounds| > 0 {
      HealthIsMonotone(AskByPeers(peers, rounds[0].message, rounds[0].io).peers, rounds[1..]);
    }
  }
}
