/** The in-memory topic store: a map from topic name to a log (`pack`).
    Each log is an append-only list of messages with a write offset and a
    single read cursor shared by every consumer of the topic. Reads never
    block: an empty or exhausted log yields "no message".

    The store is modelled sequentially (the store-wide lock is left out), and
    a map that was never made is `Store(None)`. */
module TopicStore {
  import opened Wire

  /** One topic's log. `writeOffset` counts appends; `readOffset` is the
      index of the next message to deliver. */
  datatype Pack = Pack(messages: seq<Payload>, writeOffset: nat, readOffset: nat)

  const EmptyPack := Pack([], 0, 0)

  /** The invariant every log keeps: the write offset counts the messages
      and the read cursor never passes the end. */
  predicate Valid(p: Pack)
  {
    p.writeOffset == |p.messages| && p.readOffset <= |p.messages|
  }

  /** The messages still to be delivered, oldest first. */
  function Pending(p: Pack): seq<Payload>
    requires Valid(p)
  {
    p.messages[p.readOffset..]
  }

  /** `pack.append`. */
  function Append(p: Pack, payload: Payload): (r: Pack)
    ensures r.messages == p.messages + [payload]
    ensures r.writeOffset == p.writeOffset + 1 && r.readOffset == p.readOffset
    ensures Valid(p) ==> Valid(r) && Pending(r) == Pending(p) + [payload]
  {
    Pack(p.messages + [payload], p.writeOffset + 1, p.readOffset)
  }

  datatype Delivery = Delivery(pack: Pack, message: Option<Payload>)

  /** `pack.message`: hand out the message under the cursor and advance it,
      or report "no message" when the log is empty or exhausted. */
  function Message(p: Pack): (r: Delivery)
    ensures r.pack.messages == p.messages && r.pack.writeOffset == p.writeOffset
    ensures Valid(p) ==> Valid(r.pack)
    ensures r.message.None? <==> p.readOffset >= |p.messages|
    ensures r.message.None? ==> r.pack == p
    ensures Valid(p) && r.message.Some? ==>
              r.message.value == Pending(p)[0] && Pending(r.pack) == Pending(p)[1..]
  {
    if |p.messages| == 0 then Delivery(p, None)
    else if p.readOffset > |p.messages| - 1 then Delivery(p, None)
    else Delivery(p.(readOffset := p.readOffset + 1), Some(p.messages[p.readOffset]))
  }

  /** The broker's topic map; `None` is a map that was never made. */
  datatype Store = Store(topics: Option<map<TopicName, Pack>>)

  /** `NewBroker`: an initialised, empty map. */
  const NewStore := Store(Some(map[]))

  predicate ValidStore(s: Store)
  {
    s.topics.Some? ==> forall t :: t in s.topics.value ==> Valid(s.topics.value[t])
  }

  /** The log of `name`, if the topic has been created. */
  function Lookup(s: Store, name: TopicName): Option<Pack>
  {
    if s.topics.Some? && name in s.topics.value then Some(s.topics.value[name]) else None
  }

  /** `Topic.exists`: a nil map has no topics. */
  predicate Exists(s: Store, name: TopicName)
    ensures Exists(s, name) <==> Lookup(s, name).Some?
    ensures s.topics.None? ==> !Exists(s, name)
  {
    s.topics.Some? && name in s.topics.value
  }

  /** The pending messages of an existing topic. */
  function PendingOn(s: Store, name: TopicName): seq<Payload>
    requires ValidStore(s) && Exists(s, name)
  {
    Pending(s.topics.value[name])
  }

  /** `Topic.create`: install an empty log under `name`. */
  function Create(s: Store, name: TopicName): (r: Result<Store>)
    ensures r.Err? <==> s.topics.None?
    ensures r.Err? ==> r.error == StorageNotInitialized
    ensures r.Ok? ==> Lookup(r.value, name) == Some(EmptyPack)
    ensures r.Ok? ==> forall u :: u != name ==> Lookup(r.value, u) == Lookup(s, u)
    ensures r.Ok? && ValidStore(s) ==> ValidStore(r.value)
  {
    match s.topics
    case None => Err(StorageNotInitialized)
    case Some(m) => Ok(Store(Some(m[name := EmptyPack])))
  }

  /** Replace the log of an existing topic. */
  function Put(s: Store, name: TopicName, p: Pack): (r: Store)
    requires Exists(s, name)
    ensures Exists(r, name) && Lookup(r, name) == Some(p)
    ensures forall u :: u != name ==> Lookup(r, u) == Lookup(s, u)
    ensures ValidStore(s) && Valid(p) ==> ValidStore(r)
  {
    Store(Some(s.topics.value[name := p]))
  }

  /** `Broker.Write`. A topic that does not exist yet is only created: the
      payload of that call is not stored. */
  function Write(s: Store, name: TopicName, payload: Payload): (r: Result<Store>)
    ensures r.Err? <==> s.topics.None?
    ensures r.Err? ==> r.error == StorageNotInitialized
    ensures r.Ok? ==> Exists(r.value, name)
    ensures r.Ok? && !Exists(s, name) ==> Lookup(r.value, name) == Some(EmptyPack)
    ensures Exists(s, name) ==>
              r.Ok? && Lookup(r.value, name) == Some(Append(s.topics.value[name], payload))
    ensures r.Ok? ==> forall u :: u != name ==> Lookup(r.value, u) == Lookup(s, u)
    ensures r.Ok? && ValidStore(s) ==> ValidStore(r.value)
  {
    if !Exists(s, name) then
      match Create(s, name)
      case Err(e) => Err(e)
      case Ok(created) => Ok(created)
    else
      Ok(Put(s, name, Append(s.topics.value[name], payload)))
  }

  datatype Fetched = Fetched(store: Store, message: Option<Payload>)

  /** `Broker.Read`: create the topic if it is absent, then take the next
      message from its log. */
  function Read(s: Store, name: TopicName): (r: Result<Fetched>)
    ensures r.Err? <==> s.topics.None?
    ensures r.Err? ==> r.error == StorageNotInitialized
    ensures r.Ok? ==> Exists(r.value.store, name)
    ensures r.Ok? && !Exists(s, name) ==>
              r.value.message.None? && Lookup(r.value.store, name) == Some(EmptyPack)
    ensures r.Ok? && Exists(s, name) ==>
              var d := Message(s.topics.value[name]);
              r.value.message == d.message && Lookup(r.value.store, name) == Some(d.pack)
    ensures r.Ok? ==> forall u :: u != name ==> Lookup(r.value.store, u) == Lookup(s, u)
    ensures r.Ok? && ValidStore(s) ==> ValidStore(r.value.store)
  {
    var created :=
      if !Exists(s, name) then Create(s, name) else Ok(s);
    match created
    case Err(e) => Err(e)
    case Ok(s1) =>
      var d := Message(s1.topics.value[name]);
      Ok(Fetched(Put(s1, name, d.pack), d.message))
  }

  /** Reading an existing topic of a valid store is a queue pop: the oldest
      pending message comes out and leaves the queue, or nothing does when
      the queue is empty. */
  lemma ReadPopsQueue(s: Store, name: TopicName)
    requires ValidStore(s) && Exists(s, name)
    ensures Read(s, name).Ok?
    ensures var f := Read(s, name).value;
            ValidStore(f.store) && Exists(f.store, name) &&
            (if PendingOn(s, name) == [] then f.message.None? && PendingOn(f.store, name) == []
             else f.message == Some(PendingOn(s, name)[0]) &&
                  PendingOn(f.store, name) == PendingOn(s, name)[1..])
  {
    var p := s.topics.value[name];
    assert Valid(p);
    var d := Message(p);
    assert Lookup(Read(s, name).value.store, name) == Some(d.pack);
  }

  /** Writing to an existing topic of a valid store is a queue push. */
  lemma WritePushesQueue(s: Store, name: TopicName, payload: Payload)
    requires ValidStore(s) && Exists(s, name)
    ensures Write(s, name, payload).Ok?
    ensures var s' := Write(s, name, payload).value;
            ValidStore(s') && Exists(s', name) &&
            PendingOn(s', name) == PendingOn(s, name) + [payload]
  {
    var p := s.topics.value[name];
    assert Valid(p);
    assert Lookup(Write(s, name, payload).value, name) == Some(Append(p, payload));
  }

  // ---------------------------------------------------------------------
  // One log under any interleaving of appends and reads.

  datatype PackOp = Push(payload: Payload) | Pop

  datatype PackRun = PackRun(pack: Pack, delivered: seq<Payload>)

  /** Apply `ops` to a log, collecting the messages the reads handed out. */
  function ReplayPack(p: Pack, ops: seq<PackOp>): PackRun
    decreases |ops|
  {
    if |ops| == 0 then PackRun(p, [])
    else
      match ops[0]
      case Push(x) => ReplayPack(Append(p, x), ops[1..])
      case Pop =>
        var d := Message(p);
        var rest := ReplayPack(d.pack, ops[1..]);
        PackRun(rest.pack, (if d.message.Some? then [d.message.value] else []) + rest.delivered)
  }

  function Pushed(ops: seq<PackOp>): seq<Payload>
  {
    if |ops| == 0 then [] else (if ops[0].Push? then [ops[0].payload] else []) + Pushed(ops[1..])
  }

  /** FIFO, exactly once: whatever the interleaving, the messages delivered
      followed by those still pending are exactly the messages that were
      pending at the start followed by the ones appended, in order. */
  lemma {:induction false} PackFifo(p: Pack, ops: seq<PackOp>)
    requires Valid(p)
    ensures Valid(ReplayPack(p, ops).pack)
    ensures ReplayPack(p, ops).delivered + Pending(ReplayPack(p, ops).pack) == Pending(p) + Pushed(ops)
    decreases |ops|
  {
    if |ops| > 0 {
      match ops[0]
      case Push(x) =>
        var q := Append(p, x);
        var r := ReplayPack(q, ops[1..]);
        PackFifo(q, ops[1..]);
        assert ReplayPack(p, ops) == r;
        assert Pushed(ops) == [x] + Pushed(ops[1..]);
        calc {
          r.delivered + Pending(r.pack);
          Pending(q) + Pushed(ops[1..]);
          (Pending(p) + [x]) + Pushed(ops[1..]);
          Pending(p) + ([x] + Pushed(ops[1..]));
          Pending(p) + Pushed(ops);
        }
      case Pop =>
        var d := Message(p);
        var head := if d.message.Some? then [d.message.value] else [];
        var rest := ReplayPack(d.pack, ops[1..]);
        PackFifo(d.pack, ops[1..]);
        PopSplitsPending(p);
        assert ReplayPack(p, ops) == PackRun(rest.pack, head + rest.delivered);
        assert Pushed(ops) == Pushed(ops[1..]);
        assert (head + rest.delivered) + Pending(rest.pack) == head + (rest.delivered + Pending(rest.pack));
        assert Pending(p) + Pushed(ops) == head + (Pending(d.pack) + Pushed(ops[1..]));
    }
  }

  /** A read splits the pending queue into what it hands out and what stays. */
  lemma PopSplitsPending(p: Pack)
    requires Valid(p)
    ensures var d := Message(p);
            Pending(p) == (if d.message.Some? then [d.message.value] else []) + Pending(d.pack)
  {
    var d := Message(p);
    if d.message.Some? {
      assert Pending(p) == [Pending(p)[0]] + Pending(p)[1..];
    }
  }

  /** Appends alone hand out nothing. */
  lemma {:induction false} PushesDeliverNothing(p: Pack, ops: seq<PackOp>)
    requires forall i :: 0 <= i < |ops| ==> ops[i].Push?
    ensures ReplayPack(p, ops).delivered == []
    decreases |ops|
  {
    if |ops| > 0 {
      PushesDeliverNothing(Append(p, ops[0].payload), ops[1..]);
    }
  }

  /** `n` appends to a fresh log followed by `n + 1` reads return the
      appended messages in order, then nothing. */
  lemma AppendsThenReads(xs: seq<Payload>)
    ensures var full := ReplayPack(EmptyPack, seq(|xs|, i requires 0 <= i < |xs| => Push(xs[i])));
            Valid(full.pack) && Pending(full.pack) == xs &&
            ReplayPack(full.pack, seq(|xs| + 1, _ => Pop)).delivered == xs
  {
    var pushes := seq(|xs|, i requires 0 <= i < |xs| => Push(xs[i]));
    PushedAll(xs, pushes);
    PushesDeliverNothing(EmptyPack, pushes);
    PackFifo(EmptyPack, pushes);
    var full := ReplayPack(EmptyPack, pushes);
    assert Pending(EmptyPack) == [];
    assert [] + Pending(full.pack) == Pending(full.pack);
    assert [] + xs == xs;
    DrainAll(full.pack, |xs| + 1);
  }

  lemma {:induction false} PushedAll(xs: seq<Payload>, ops: seq<PackOp>)
    requires |ops| == |xs| && forall i :: 0 <= i < |xs| ==> ops[i] == Push(xs[i])
    ensures Pushed(ops) == xs
    decreases |xs|
  {
    if |xs| > 0 {
      PushedAll(xs[1..], ops[1..]);
    }
  }

  /** At least as many reads as pending messages drain the log completely. */
  lemma {:induction false} DrainAll(p: Pack, n: nat)
    requires Valid(p) && |Pending(p)| <= n
    ensures ReplayPack(p, seq(n, _ => Pop)).delivered == Pending(p)
    decreases n
  {
    var pops := seq(n, _ => Pop);
    if n > 0 {
      assert pops[1..] == seq(n - 1, _ => Pop);
      DrainAll(Message(p).pack, n - 1);
      if |Pending(p)| > 0 {
        assert Pending(p) == [Pending(p)[0]] + Pending(p)[1..];
      }
    }
  }

  // ---------------------------------------------------------------------
  // The whole store under any sequence of writes and reads.

  datatype Op = WriteOp(name: TopicName, payload: Payload) | ReadOp(name: TopicName)

  datatype Replayed = Replayed(store: Store, delivered: seq<Envelope>)

  /** Apply `ops` to the store; a failed call changes nothing. The messages
      the reads hand out are collected with their topic. */
  function Replay(s: Store, ops: seq<Op>): Replayed
    decreases |ops|
  {
    if |ops| == 0 then Replayed(s, [])
    else
      match ops[0]
      case WriteOp(name, x) =>
        (match Write(s, name, x)
         case Err(_) => Replay(s, ops[1..])
         case Ok(s') => Replay(s', ops[1..]))
      case ReadOp(name) =>
        (match Read(s, name)
         case Err(_) => Replay(s, ops[1..])
         case Ok(f) =>
           var rest := Replay(f.store, ops[1..]);
           var got := if f.message.Some? then [Envelope(name, f.message.value)] else [];
           Replayed(rest.store, got + rest.delivered))
  }

  /** Payloads of the writes addressed to `t`, in order. */
  function WritesTo(ops: seq<Op>, t: TopicName): seq<Payload>
  {
    if |ops| == 0 then []
    else (if ops[0].WriteOp? && ops[0].name == t then [ops[0].payload] else []) + WritesTo(ops[1..], t)
  }

  /** Messages delivered on topic `t`, in order. */
  function DeliveredOn(es: seq<Envelope>, t: TopicName): seq<Payload>
  {
    if |es| == 0 then []
    else (if es[0].topic == t then [es[0].message] else []) + DeliveredOn(es[1..], t)
  }

  /** Per-topic FIFO, exactly once, under any interleaving of operations on
      any topics, once the topic exists: what is delivered on `t` followed by
      what is still pending on `t` is what was pending followed by every
      payload written to `t`. */
  lemma {:induction false} TopicFifo(s: Store, ops: seq<Op>, t: TopicName)
    requires ValidStore(s) && Exists(s, t)
    ensures var r := Replay(s, ops);
            ValidStore(r.store) && Exists(r.store, t) &&
            DeliveredOn(r.delivered, t) + PendingOn(r.store, t) == PendingOn(s, t) + WritesTo(ops, t)
    decreases |ops|
  {
    if |ops| > 0 {
      var tail := WritesTo(ops[1..], t);
      match ops[0]
      case WriteOp(name, x) =>
        var s' := Write(s, name, x).value;
        var rest := Replay(s', ops[1..]);
        TopicFifo(s', ops[1..], t);
        WriteStepOn(s, name, x, t);
        assert Replay(s, ops) == rest;
        var mine := if name == t then [x] else [];
        assert WritesTo(ops, t) == mine + tail;
        assert (PendingOn(s, t) + mine) + tail == PendingOn(s, t) + (mine + tail);
      case ReadOp(name) =>
        var f := Read(s, name).value;
        var rest := Replay(f.store, ops[1..]);
        var got := if f.message.Some? then [Envelope(name, f.message.value)] else [];
        TopicFifo(f.store, ops[1..], t);
        ReadStepOn(s, name, t);
        assert Replay(s, ops) == Replayed(rest.store, got + rest.delivered);
        assert WritesTo(ops, t) == tail;
        DeliveredOnAppend(got, rest.delivered, t);
        Regroup(DeliveredOn(got, t), DeliveredOn(rest.delivered, t), PendingOn(rest.store, t),
                PendingOn(f.store, t), tail, PendingOn(s, t));
    }
  }

  /** Sequence bookkeeping for one read step of `TopicFifo`. */
  lemma Regroup(mine: seq<Payload>, later: seq<Payload>, left: seq<Payload>,
                mid: seq<Payload>, tail: seq<Payload>, start: seq<Payload>)
    requires later + left == mid + tail
    requires mine + mid == start
    ensures (mine + later) + left == start + tail
  {
    calc {
      (mine + later) + left;
      mine + (later + left);
      mine + (mid + tail);
      (mine + mid) + tail;
    }
  }

  /** One write, seen from topic `t` that already exists. */
  lemma WriteStepOn(s: Store, name: TopicName, x: Payload, t: TopicName)
    requires ValidStore(s) && Exists(s, t)
    ensures Write(s, name, x).Ok?
    ensures var s' := Write(s, name, x).value;
            ValidStore(s') && Exists(s', t) &&
            PendingOn(s', t) == PendingOn(s, t) + (if name == t then [x] else [])
  {
    var s' := Write(s, name, x).value;
    if name == t {
      WritePushesQueue(s, t, x);
    } else {
      assert Lookup(s', t) == Lookup(s, t);
      assert PendingOn(s, t) + [] == PendingOn(s, t);
    }
  }

  /** One read, seen from topic `t` that already exists: what it hands out
      on `t` followed by what stays pending on `t` is what was pending. */
  lemma ReadStepOn(s: Store, name: TopicName, t: TopicName)
    requires ValidStore(s) && Exists(s, t)
    ensures Read(s, name).Ok?
    ensures var f := Read(s, name).value;
            var got := if f.message.Some? then [Envelope(name, f.message.value)] else [];
            ValidStore(f.store) && Exists(f.store, t) &&
            DeliveredOn(got, t) + PendingOn(f.store, t) == PendingOn(s, t)
  {
    var f := Read(s, name).value;
    var got := if f.message.Some? then [Envelope(name, f.message.value)] else [];
    if name == t {
      ReadPopsQueue(s, t);
      if f.message.Some? {
        assert DeliveredOn(got, t) == [f.message.value];
        assert PendingOn(s, t) == [PendingOn(s, t)[0]] + PendingOn(s, t)[1..];
      } else {
        assert DeliveredOn(got, t) == [];
      }
    } else {
      assert Lookup(f.store, t) == Lookup(s, t);
      assert DeliveredOn(got, t) == [];
    }
  }

  lemma {:induction false} DeliveredOnAppend(a: seq<Envelope>, b: seq<Envelope>, t: TopicName)
    ensures DeliveredOn(a + b, t) == DeliveredOn(a, t) + DeliveredOn(b, t)
    decreases |a|
  {
    if |a| > 0 {
      assert (a + b)[0] == a[0];
      assert (a + b)[1..] == a[1..] + b;
      DeliveredOnAppend(a[1..], b, t);
    } else {
      assert a + b == b;
    }
  }

  /** Isolation: operations that never name `t` leave its log, messages
      and cursor alike, exactly as it was (absent stays absent). */
  lemma {:induction false} TopicIsolation(s: Store, ops: seq<Op>, t: TopicName)
    requires forall i :: 0 <= i < |ops| ==> ops[i].name != t
    ensures Lookup(Replay(s, ops).store, t) == Lookup(s, t)
    ensures DeliveredOn(Replay(s, ops).delivered, t) == []
    decreases |ops|
  {
    if |ops| > 0 {
      match ops[0]
      case WriteOp(name, x) =>
        TopicIsolation(if Write(s, name, x).Ok? then Write(s, name, x).value else s, ops[1..], t);
      case ReadOp(name) =>
        if Read(s, name).Ok? {
          var f := Read(s, name).value;
          TopicIsolation(f.store, ops[1..], t);
          var got := if f.message.Some? then [Envelope(name, f.message.value)] else [];
          DeliveredOnAppend(got, Replay(f.store, ops[1..]).delivered, t);
        } else {
          TopicIsolation(s, ops[1..], t);
        }
    }
  }
}
