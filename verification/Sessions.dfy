// One play session as a value: its sender, its media connection and its SDK play
// handles, and what connect, start, send, stop and destroy do to them.

module Sessions {
  import opened Bytes
  import opened Framing
  import opened Network
  import opened SendBuffer

  // What an SDK call answers: done, or failed with the error code asked for afterwards.
  datatype Answer = Done | Failed(error: int)

  datatype Slot = Record | Live | Download

  // The SDK play handles; 0 is none.
  datatype Plays = Plays(record: nat, live: nat, download: nat) {
    function Get(slot: Slot): nat {
      match slot
      case Record => record
      case Live => live
      case Download => download
    }

    function Set(slot: Slot, handle: nat): Plays {
      match slot
      case Record => this.(record := handle)
      case Live => this.(live := handle)
      case Download => this.(download := handle)
    }
  }

  // Overwritten is not a call: it marks a play handle dropped without being stopped.
  datatype SdkEvent =
    | Opened(slot: Slot, handle: nat)
    | Overwritten(slot: Slot, handle: nat)
    | Stopped(slot: Slot, handle: nat)

  datatype Session = Session(sender: Sender, plays: Plays)

  datatype SessionOp =
    | Connect(result: int, handle: nat)
    | StartReal(keyFrame: Answer, handle: nat, error: int)
    | StartRecord(stream: Answer, kind: Answer, handle: nat, error: int)
    | StartDownload(stream: Answer, kind: Answer, handle: nat, error: int)
    | SendPacket(data: seq<byte>, answer: int)
    | Stop(record: Answer, live: Answer, download: Answer, disconnect: int)
    | Destroy(disconnect: int)

  datatype Effect = Effect(after: Session, net: seq<Event<Batch>>, sdk: seq<SdkEvent>, result: int)

  const NO_PLAYS := Plays(0, 0, 0)

  // A session just constructed; the code leaves the stamp to chance.
  function NewSession(stamp: word32): Session {
    Session(Sender(false, 0, [], stamp, 0), NO_PLAYS)
  }

  // ---------- steps ----------

  // The answer of an open call goes into the slot, whatever was there.
  function OpenInto(plays: Plays, slot: Slot, handle: nat): seq<SdkEvent> {
    (if plays.Get(slot) != 0 then [Overwritten(slot, plays.Get(slot))] else []) +
    (if handle != 0 then [Opened(slot, handle)] else [])
  }

  function Start(s: Session, slot: Slot, handle: nat, error: int, runs: bool): Effect {
    Effect(Session(s.sender.(running := s.sender.running || runs), s.plays.Set(slot, handle)), [],
           OpenInto(s.plays, slot, handle), if handle == 0 then error else 0)
  }

  function StopSlot(plays: Plays, slot: Slot): seq<SdkEvent> {
    if plays.Get(slot) != 0 then [Stopped(slot, plays.Get(slot))] else []
  }

  // Every slot that holds something is stopped, each with one call.
  function StopAll(plays: Plays): seq<SdkEvent> {
    StopSlot(plays, Record) + StopSlot(plays, Live) + StopSlot(plays, Download)
  }

  function Disconnect(s: Sender, answer: int): (Sender, seq<Event<Batch>>) {
    if s.client == 0 then (s, [])
    else (if answer == 0 then s.(client := 0) else s, [Disconnected(s.client, answer)])
  }

  // The error of the last stop call that failed, 0 if none did.
  function StopResult(plays: Plays, record: Answer, live: Answer, download: Answer): int {
    if plays.download != 0 && download.Failed? then download.error
    else if plays.live != 0 && live.Failed? then live.error
    else if plays.record != 0 && record.Failed? then record.error
    else 0
  }

  function Perform(s: Session, op: SessionOp): Effect {
    match op
    case Connect(result, handle) =>
      var client := if result == 0 then handle else 0;
      Effect(s.(sender := s.sender.(client := client)), if result == 0 then [Connected(handle)] else [], [], result)
    case StartReal(keyFrame, handle, error) =>
      if keyFrame.Failed? then Effect(s, [], [], 0)
      else Start(s, Live, handle, error, true)
    case StartRecord(stream, kind, handle, error) =>
      if stream.Failed? then Effect(s, [], [], stream.error)
      else if kind.Failed? then Effect(s, [], [], kind.error)
      else Start(s, Record, handle, error, handle != 0)
    case StartDownload(stream, kind, handle, error) =>
      if stream.Failed? then Effect(s, [], [], stream.error)
      else if kind.Failed? then Effect(s, [], [], kind.error)
      else Start(s, Download, handle, error, false)
    case SendPacket(data, answer) =>
      var sent := Push(s.sender, Packet(0, data), Counted, answer);
      Effect(s.(sender := sent.after), sent.events, [], sent.result)
    case Stop(record, live, download, disconnect) =>
      var off := s.sender.(running := false);
      if s.plays == NO_PLAYS then Effect(s.(sender := off), [], [], 0) else
      var (sender, events) := Disconnect(off, disconnect);
      Effect(Session(sender, NO_PLAYS), events, StopAll(s.plays),
             StopResult(s.plays, record, live, download))
    case Destroy(disconnect) =>
      var (sender, events) := Disconnect(s.sender, disconnect);
      Effect(s.(sender := sender), events, [], 0)
  }

  function Life(s: Session, ops: seq<SessionOp>): Effect
    decreases |ops|
  {
    if ops == [] then
      Effect(s, [], [], 0)
    else
      var before := Life(s, ops[..|ops| - 1]);
      var last := Perform(before.after, ops[|ops| - 1]);
      Effect(last.after, before.net + last.net, before.sdk + last.sdk, last.result)
  }

  // ---------- the sender's share of a life ----------

  // A session drives its sender only through the sender's own operations.
  function SenderOps(s: Session, op: SessionOp): seq<Op> {
    match op
    case SendPacket(data, answer) => [Send(Packet(0, data), Counted, answer)]
    case _ =>
      var t := Perform(s, op).after.sender;
      [Switch(t.running), Attach(t.client)]
  }

  function SenderTrace(s: Session, ops: seq<SessionOp>): seq<Op>
    decreases |ops|
  {
    if ops == [] then
      []
    else
      var before := ops[..|ops| - 1];
      SenderTrace(s, before) + SenderOps(Life(s, before).after, ops[|ops| - 1])
  }

  // So every law about runs of the sender holds of whole lives: a life is a run of its
  // sender, with the same state and the same delivered packets.
  lemma {:induction false} LifeIsSenderRun(s: Session, ops: seq<SessionOp>)
    ensures var r := Run(s.sender, SenderTrace(s, ops));
            Life(s, ops).after.sender == r.after && Delivered(Life(s, ops).net) == Delivered(r.events)
    decreases |ops|
  {
    if ops != [] {
      var before, op := ops[..|ops| - 1], ops[|ops| - 1];
      LifeIsSenderRun(s, before);
      SenderFollows(s.sender, SenderTrace(s, before), Life(s, before).after, op);
      DeliveredAppend(Life(s, before).net, Perform(Life(s, before).after, op).net);
    }
  }

  // One operation of the session continues the run of its sender.
  lemma SenderFollows(start: Sender, trace: seq<Op>, s: Session, op: SessionOp)
    requires Run(start, trace).after == s.sender
    ensures var r := Run(start, trace + SenderOps(s, op));
            && r.after == Perform(s, op).after.sender
            && Delivered(r.events) == Delivered(Run(start, trace).events) + Delivered(Perform(s, op).net)
  {
    var ops := SenderOps(s, op);
    RunSnoc(start, trace, ops[0]);
    if op.SendPacket? {
      assert trace + ops == trace + [ops[0]];
    } else {
      OnlySwitches(s, op);
      NothingDelivered(s, op);
      RunSnoc(start, trace + [ops[0]], ops[1]);
      assert trace + ops == trace + [ops[0]] + [ops[1]];
    }
  }

  // All but sending leaves the buffer and the stamps alone.
  lemma OnlySwitches(s: Session, op: SessionOp)
    requires !op.SendPacket?
    ensures var t := Perform(s, op).after.sender;
            t == s.sender.(running := t.running, client := t.client)
  {
  }

  lemma NothingDelivered(s: Session, op: SessionOp)
    requires !op.SendPacket?
    ensures Delivered(Perform(s, op).net) == []
  {
    var net := Perform(s, op).net;
    if net != [] {
      assert |net| == 1 && net[..0] == [] && !net[0].Wrote?;
    }
  }

  lemma RunSnoc(s: Sender, ops: seq<Op>, op: Op)
    ensures Run(s, ops + [op]).after == Apply(Run(s, ops).after, op).after
    ensures Delivered(Run(s, ops + [op]).events)
         == Delivered(Run(s, ops).events) + Delivered(Apply(Run(s, ops).after, op).events)
  {
    assert (ops + [op])[..|ops|] == ops;
    DeliveredAppend(Run(s, ops).events, Apply(Run(s, ops).after, op).events);
  }

  // Over every life: what the network took, followed by what is held, is what was held
  // first followed by the accepted packets.
  lemma LifeConserves(s: Session, ops: seq<SessionOp>)
    ensures Delivered(Life(s, ops).net) + Life(s, ops).after.sender.held
         == s.sender.held + Run(s.sender, SenderTrace(s, ops)).accepted
  {
    LifeIsSenderRun(s, ops);
    Conservation(s.sender, SenderTrace(s, ops));
  }

  // The same on the wire, in bytes.
  lemma LifeConservesBytes(s: Session, ops: seq<SessionOp>)
    ensures Delivered(AllOnWire(Life(s, ops).net)) + Frames(Life(s, ops).after.sender.held)
         == Frames(s.sender.held) + Frames(Run(s.sender, SenderTrace(s, ops)).accepted)
  {
    var l, accepted := Life(s, ops), Run(s.sender, SenderTrace(s, ops)).accepted;
    LifeConserves(s, ops);
    WireIsFrames(l.net);
    FramesAppend(Delivered(l.net), l.after.sender.held);
    FramesAppend(s.sender.held, accepted);
  }

  // ---------- what gets on the wire ----------

  // The data of the calls that accepted it, in order: made while the session ran, and
  // reporting success.
  function AcceptedData(s: Session, ops: seq<SessionOp>): seq<seq<byte>>
    decreases |ops|
  {
    if ops == [] then [] else
    var before, op := ops[..|ops| - 1], ops[|ops| - 1];
    var now := Life(s, before).after;
    AcceptedData(s, before) +
    if op.SendPacket? && now.sender.running && Perform(now, op).result == 0 then [op.data] else []
  }

  function OnChannel0(datas: seq<seq<byte>>): (ps: seq<Packet>)
    ensures |ps| == |datas|
  {
    seq(|datas|, i requires 0 <= i < |datas| => Packet(0, datas[i]))
  }

  // Over every life: what the network took and what is held is what was held at first and
  // the accepted data, on channel 0.
  lemma {:induction false} LifeDelivers(s: Session, ops: seq<SessionOp>)
    ensures Delivered(Life(s, ops).net) + Life(s, ops).after.sender.held
         == s.sender.held + OnChannel0(AcceptedData(s, ops))
    decreases |ops|
  {
    if ops != [] {
      var before, op := ops[..|ops| - 1], ops[|ops| - 1];
      LifeDelivers(s, before);
      var l := Life(s, before);
      var e := Perform(l.after, op);
      var more := if op.SendPacket? && l.after.sender.running && e.result == 0 then [op.data] else [];
      OneOpDelivers(l.after, op, more);
      DeliversMore(l, e, s.sender.held, AcceptedData(s, before), more);
    }
  }

  lemma DeliversMore(l: Effect, e: Effect, first: Batch, soFar: seq<seq<byte>>, more: seq<seq<byte>>)
    requires Delivered(l.net) + l.after.sender.held == first + OnChannel0(soFar)
    requires Delivered(e.net) + e.after.sender.held == l.after.sender.held + OnChannel0(more)
    ensures Delivered(l.net + e.net) + e.after.sender.held == first + OnChannel0(soFar + more)
  {
    DeliveredAppend(l.net, e.net);
    assert OnChannel0(soFar + more) == OnChannel0(soFar) + OnChannel0(more);
    Reassociate(Delivered(l.net), Delivered(e.net), e.after.sender.held,
                l.after.sender.held, OnChannel0(more), first, OnChannel0(soFar));
  }

  lemma OneOpDelivers(s: Session, op: SessionOp, more: seq<seq<byte>>)
    requires more == if op.SendPacket? && s.sender.running && Perform(s, op).result == 0 then [op.data] else []
    ensures Delivered(Perform(s, op).net) + Perform(s, op).after.sender.held == s.sender.held + OnChannel0(more)
  {
    if op.SendPacket? {
      OneCallConserves(s.sender, Send(Packet(0, op.data), Counted, op.answer));
      ResultTells(s.sender, Packet(0, op.data), Counted, op.answer);
      AcceptedOrNot(s.sender, Packet(0, op.data), op.answer);
      assert OnChannel0([op.data]) == [Packet(0, op.data)];
    } else {
      OnlySwitches(s, op);
      NothingDelivered(s, op);
    }
  }

  lemma AcceptedOrNot(s: Sender, p: Packet, answer: int)
    ensures var r := Push(s, p, Counted, answer);
            r.accepted == if s.running && r.result == 0 then [p] else []
  {
  }

  lemma {:induction false} SameStart(ps: seq<Packet>, qs: seq<Packet>, k: nat)
    requires k <= |ps| && ps <= qs
    ensures StartOf(ps, k) == StartOf(qs, k)
  {
    if k > 0 {
      SameStart(ps, qs, k - 1);
    }
  }

  // In bytes, over every life of a session that held nothing: the wire has a frame on
  // channel 0 for each of the first accepted data, one after the other, and nothing else.
  lemma LifeWireLayout(s: Session, ops: seq<SessionOp>, k: nat)
    requires s.sender.held == [] && k < |Delivered(Life(s, ops).net)|
    ensures var wire, datas := Delivered(AllOnWire(Life(s, ops).net)), AcceptedData(s, ops);
            && |Delivered(Life(s, ops).net)| <= |datas|
            && |wire| == StartOf(OnChannel0(datas), |Delivered(Life(s, ops).net)|)
            && FrameAt(wire, StartOf(OnChannel0(datas), k), 0, datas[k])
  {
    var ps, qs := Delivered(Life(s, ops).net), OnChannel0(AcceptedData(s, ops));
    LifeDelivers(s, ops);
    WireIsFrames(Life(s, ops).net);
    PrefixOf(ps, Life(s, ops).after.sender.held, qs);
    FrameLayout(ps, k);
    SameStart(ps, qs, k);
    SameStart(ps, qs, |ps|);
  }

  lemma PrefixOf(ps: seq<Packet>, rest: seq<Packet>, qs: seq<Packet>)
    requires ps + rest == [] + qs
    ensures ps <= qs
  {
    assert qs == ps + rest;
  }

  // ---------- a new session that sends ----------

  function Sends(datas: seq<seq<byte>>): (ops: seq<SessionOp>)
    ensures |ops| == |datas|
  {
    seq(|datas|, i requires 0 <= i < |datas| => SendPacket(datas[i], 0))
  }

  function Pushes(datas: seq<seq<byte>>): (ops: seq<Op>)
    ensures |ops| == |datas|
  {
    seq(|datas|, i requires 0 <= i < |datas| => Send(Packet(0, datas[i]), Counted, 0))
  }

  lemma {:induction false} LifeOfSends(s: Session, ops: seq<SessionOp>, datas: seq<seq<byte>>)
    ensures Life(s, ops + Sends(datas)).after.sender == Run(Life(s, ops).after.sender, Pushes(datas)).after
    decreases |datas|
  {
    if datas == [] {
      assert ops + Sends(datas) == ops;
    } else {
      var before, last := datas[..|datas| - 1], datas[|datas| - 1];
      LifeOfSends(s, ops, before);
      assert ops + Sends(datas) == ops + Sends(before) + [SendPacket(last, 0)];
      LifeSnoc(s, ops + Sends(before), SendPacket(last, 0));
      assert Pushes(datas)[..|datas| - 1] == Pushes(before);
    }
  }

  lemma StartedConnected(stamp: word32, handle: nat, play: nat)
    requires handle != 0
    ensures Life(NewSession(stamp), [Connect(0, handle), StartReal(Done, play, 0)]).after.sender
         == Sender(true, handle, [], stamp, 0)
  {
    var connect, start := Connect(0, handle), StartReal(Done, play, 0);
    LifeSnoc(NewSession(stamp), [], connect);
    LifeSnoc(NewSession(stamp), [connect], start);
    assert [] + [connect] == [connect] && [connect] + [start] == [connect, start];
  }

  // After any number of packets of at most 65532 bytes, a new session that was connected and
  // started holds exactly the last packet; or the last two, if their number is 0xEFEFEFF0
  // modulo 2^32 and they fit together.
  lemma FreshSessionBatches(stamp: word32, handle: nat, play: nat, datas: seq<seq<byte>>)
    requires handle != 0 && datas != [] && forall i :: 0 <= i < |datas| ==> |datas[i]| <= 65532
    ensures var k := |datas|;
            Life(NewSession(stamp), [Connect(0, handle), StartReal(Done, play, 0)] + Sends(datas)).after.sender.held ==
              if k % 0x1_0000_0000 == 0xEFEF_EFF0 && |datas[k - 2]| + |datas[k - 1]| + 8 <= 65536
              then [Packet(0, datas[k - 2]), Packet(0, datas[k - 1])]
              else [Packet(0, datas[k - 1])]
  {
    StartedConnected(stamp, handle, play);
    LifeOfSends(NewSession(stamp), [Connect(0, handle), StartReal(Done, play, 0)], datas);
    BatchesFromZero(Sender(true, handle, [], stamp, 0), datas);
  }

  lemma BatchesFromZero(s: Sender, datas: seq<seq<byte>>)
    requires s.running && s.client != 0 && s.held == [] && s.counter == 0
    requires datas != [] && forall i :: 0 <= i < |datas| ==> |datas[i]| <= 65532
    ensures var k := |datas|;
            Run(s, Pushes(datas)).after.held ==
              if k % 0x1_0000_0000 == 0xEFEF_EFF0 && |datas[k - 2]| + |datas[k - 1]| + 8 <= 65536
              then [Packet(0, datas[k - 2]), Packet(0, datas[k - 1])]
              else [Packet(0, datas[k - 1])]
  {
    var ops := Pushes(datas);
    assert CountedRun(ops);
    BatchingFromZero(s, ops);
    AtLeastTwo(|datas|);
    assert Packets(ops) == OnChannel0(datas);
  }

  lemma AtLeastTwo(k: nat)
    ensures k % 0x1_0000_0000 == 0xEFEF_EFF0 ==> k >= 2
  {
  }

  // ---------- alike for ever ----------

  // Two sessions that differ only in the stamp they were constructed with stay alike in
  // everything that can be seen, for ever.
  lemma {:induction false} ConstructionStampIsIrrelevant(a: word32, b: word32, ops: seq<SessionOp>)
    ensures var l, m := Life(NewSession(a), ops), Life(NewSession(b), ops);
            && l.net == m.net && l.sdk == m.sdk && l.result == m.result && l.after.plays == m.after.plays
            && Twins(l.after.sender, m.after.sender)
    decreases |ops|
  {
    if ops != [] {
      var before, op := ops[..|ops| - 1], ops[|ops| - 1];
      ConstructionStampIsIrrelevant(a, b, before);
      TwinsPerformAlike(Life(NewSession(a), before).after, Life(NewSession(b), before).after, op);
    }
  }

  lemma TwinsPerformAlike(s: Session, t: Session, op: SessionOp)
    requires Twins(s.sender, t.sender) && s.plays == t.plays
    ensures var e, f := Perform(s, op), Perform(t, op);
            && e.net == f.net && e.sdk == f.sdk && e.result == f.result && e.after.plays == f.after.plays
            && Twins(e.after.sender, f.after.sender)
  {
  }

  // ---------- running without a connection ----------

  // Running only with a connection.
  predicate HasConnection(s: Session) {
    s.sender.running ==> s.sender.client != 0
  }

  // The operation does not start a session that has no connection, or take the
  // connection from a running one.
  predicate KeepsConnection(s: Session, op: SessionOp) {
    match op
    case Connect(result, handle) => s.sender.running ==> result == 0 && handle != 0
    case StartReal(keyFrame, _, _) => keyFrame.Done? ==> s.sender.client != 0
    case StartRecord(stream, kind, handle, _) =>
      stream.Done? && kind.Done? && handle != 0 ==> s.sender.client != 0
    case Destroy(disconnect) => s.sender.running ==> disconnect != 0
    case _ => true
  }

  lemma OneOpKeepsConnectionIff(s: Session, op: SessionOp)
    requires HasConnection(s)
    ensures HasConnection(Perform(s, op).after) <==> KeepsConnection(s, op)
  {
  }

  ghost predicate AlwaysHasConnection(s: Session, ops: seq<SessionOp>)
    decreases |ops|
  {
    HasConnection(Life(s, ops).after) && (ops == [] || AlwaysHasConnection(s, ops[..|ops| - 1]))
  }

  ghost predicate WellStarted(s: Session, ops: seq<SessionOp>)
    decreases |ops|
  {
    ops == [] ||
    (WellStarted(s, ops[..|ops| - 1]) && KeepsConnection(Life(s, ops[..|ops| - 1]).after, ops[|ops| - 1]))
  }

  // A start does not ask for a connection, so a session can run without one. Over a life
  // it never does if and only if every start finds a connection and no connection is
  // taken from it while it runs. Sending, stopping and failing never break this.
  lemma {:induction false} AlwaysHasConnectionIff(s: Session, ops: seq<SessionOp>)
    requires HasConnection(s)
    ensures AlwaysHasConnection(s, ops) <==> WellStarted(s, ops)
    decreases |ops|
  {
    if ops != [] {
      var before, op := ops[..|ops| - 1], ops[|ops| - 1];
      AlwaysHasConnectionIff(s, before);
      if AlwaysHasConnection(s, before) {
        OneOpKeepsConnectionIff(Life(s, before).after, op);
      }
    }
  }

  // Every packet of the life fits an empty buffer.
  ghost predicate LegalPackets(ops: seq<SessionOp>) {
    forall i :: 0 <= i < |ops| && ops[i].SendPacket? ==> HEADER_SIZE + |ops[i].data| <= CAPACITY
  }

  lemma LifeSnoc(s: Session, ops: seq<SessionOp>, op: SessionOp)
    ensures Life(s, ops + [op]).after == Perform(Life(s, ops).after, op).after
    ensures Life(s, ops + [op]).net == Life(s, ops).net + Perform(Life(s, ops).after, op).net
    ensures Life(s, ops + [op]).sdk == Life(s, ops).sdk + Perform(Life(s, ops).after, op).sdk
  {
    assert (ops + [op])[..|ops|] == ops;
  }

  // Over every life that is started well, with packets of at most 65532 bytes, the buffer
  // is never overrun.
  lemma {:induction false} LifeStaysInBuffer(s: Session, ops: seq<SessionOp>)
    requires HasConnection(s) && Length(s.sender) <= CAPACITY && WellStarted(s, ops) && LegalPackets(ops)
    ensures Length(Life(s, ops).after.sender) <= CAPACITY
    ensures ops != [] ==> Sendable(Life(s, ops[..|ops| - 1]).after, ops[|ops| - 1])
    decreases |ops|
  {
    if ops != [] {
      var before, op := ops[..|ops| - 1], ops[|ops| - 1];
      assert LegalPackets(before);
      LifeStaysInBuffer(s, before);
      AlwaysHasConnectionIff(s, before);
      var now := Life(s, before).after;
      if op.SendPacket? {
        LegalKeepsBounds(now.sender, Send(Packet(0, op.data), Counted, op.answer));
      } else {
        OnlySwitches(now, op);
      }
    }
  }

  // What the class asks of a caller that sends.
  predicate Sendable(s: Session, op: SessionOp) {
    op.SendPacket? ==> |op.data| < TWO_TO_32 && Fits(s.sender, |op.data|, Counted, op.answer)
  }

  ghost predicate AlwaysSendable(s: Session, ops: seq<SessionOp>)
    decreases |ops|
  {
    ops == [] ||
    (AlwaysSendable(s, ops[..|ops| - 1]) && Sendable(Life(s, ops[..|ops| - 1]).after, ops[|ops| - 1]))
  }

  lemma {:induction false} SendableAt(s: Session, ops: seq<SessionOp>, k: nat)
    requires AlwaysSendable(s, ops) && k < |ops|
    ensures Sendable(Life(s, ops[..k]).after, ops[k])
    decreases |ops|
  {
    if k < |ops| - 1 {
      SendableAt(s, ops[..|ops| - 1], k);
      assert ops[..|ops| - 1][..k] == ops[..k];
    }
  }

  // So every call of such a life may be made.
  lemma {:induction false} LifeIsSendable(s: Session, ops: seq<SessionOp>)
    requires HasConnection(s) && Length(s.sender) <= CAPACITY && WellStarted(s, ops) && LegalPackets(ops)
    ensures AlwaysSendable(s, ops)
    decreases |ops|
  {
    if ops != [] {
      assert LegalPackets(ops[..|ops| - 1]);
      LifeIsSendable(s, ops[..|ops| - 1]);
      LifeStaysInBuffer(s, ops);
    }
  }

  // Running without a connection, a packet more only fills the buffer.
  lemma PacketFills(s: Session, ops: seq<SessionOp>, data: seq<byte>)
    requires var now := Life(s, ops).after.sender; now.running && now.client == 0
    ensures var now, next := Life(s, ops).after.sender, Life(s, ops + [SendPacket(data, 0)]).after.sender;
            next.running && next.client == 0 && Length(next) == Length(now) + HEADER_SIZE + |data|
  {
    LifeSnoc(s, ops, SendPacket(data, 0));
    FramesSnoc(Life(s, ops).after.sender.held, Packet(0, data));
  }

  lemma StartedUnconnected(stamp: word32)
    ensures var now := Life(NewSession(stamp), [Connect(1, 0), StartReal(Done, 5, 0)]).after.sender;
            now.running && now.client == 0
  {
    LifeSnoc(NewSession(stamp), [], Connect(1, 0));
    LifeSnoc(NewSession(stamp), [Connect(1, 0)], StartReal(Done, 5, 0));
    assert [] + [Connect(1, 0)] == [Connect(1, 0)];
    assert [Connect(1, 0)] + [StartReal(Done, 5, 0)] == [Connect(1, 0), StartReal(Done, 5, 0)];
  }

  // The program goes on to start a session whose connect failed (src/sdk_wrap.cpp:345-354);
  // two packets of 40000 bytes then overrun the buffer.
  lemma FailedConnectOverruns(stamp: word32, first: seq<byte>, second: seq<byte>)
    requires |first| == |second| == 40000
    ensures var ops := [Connect(1, 0), StartReal(Done, 5, 0), SendPacket(first, 0), SendPacket(second, 0)];
            LegalPackets(ops) && Length(Life(NewSession(stamp), ops).after.sender) > CAPACITY
  {
    var begin, p, q := [Connect(1, 0), StartReal(Done, 5, 0)], SendPacket(first, 0), SendPacket(second, 0);
    StartedUnconnected(stamp);
    PacketFills(NewSession(stamp), begin, first);
    PacketFills(NewSession(stamp), begin + [p], second);
    assert begin + [p] + [q] == [Connect(1, 0), StartReal(Done, 5, 0), p, q];
  }

  // At no moment of the life is the buffer overfull.
  ghost predicate LifeStays(s: Session, ops: seq<SessionOp>)
    decreases |ops|
  {
    Length(Life(s, ops).after.sender) <= CAPACITY && (ops == [] || LifeStays(s, ops[..|ops| - 1]))
  }

  // The length of a packet is an unsigned 32-bit number.
  ghost predicate LengthsFit(ops: seq<SessionOp>) {
    forall i :: 0 <= i < |ops| && ops[i].SendPacket? ==> |ops[i].data| < TWO_TO_32
  }

  // Exactly when a life, whatever happens in it, stays inside the buffer.
  lemma {:induction false} LifeStaysIff(s: Session, ops: seq<SessionOp>)
    requires Length(s.sender) <= CAPACITY && LengthsFit(ops)
    ensures LifeStays(s, ops) <==> AlwaysSendable(s, ops)
    decreases |ops|
  {
    if ops != [] {
      var before, op := ops[..|ops| - 1], ops[|ops| - 1];
      assert LengthsFit(before);
      LifeStaysIff(s, before);
      if LifeStays(s, before) {
        LegalAfterOpIff(Life(s, before).after, op);
      }
    }
  }

  lemma LegalAfterOpIff(s: Session, op: SessionOp)
    requires Length(s.sender) <= CAPACITY && (op.SendPacket? ==> |op.data| < TWO_TO_32)
    ensures Length(Perform(s, op).after.sender) <= CAPACITY <==> Sendable(s, op)
  {
    if op.SendPacket? {
      LegalAfterIff(s.sender, Packet(0, op.data), Counted, op.answer);
    } else {
      OnlySwitches(s, op);
    }
  }

  // ---------- stopped ----------

  // The operation does not start the session.
  predicate StartsNothing(op: SessionOp) {
    match op
    case StartReal(keyFrame, _, _) => keyFrame.Failed?
    case StartRecord(stream, kind, handle, _) => stream.Failed? || kind.Failed? || handle == 0
    case _ => true
  }

  ghost predicate NeverStarted(ops: seq<SessionOp>) {
    forall i :: 0 <= i < |ops| ==> StartsNothing(ops[i])
  }

  // From one moment of a life to a later one: nothing written, and no change of the sender
  // but in its handle.
  ghost predicate SilentSince(was: Effect, now: Effect) {
    && was.net <= now.net
    && (forall i :: |was.net| <= i < |now.net| ==> !now.net[i].Wrote?)
    && now.after.sender == was.after.sender.(client := now.after.sender.client)
  }

  // A stopped session, until it is started again, writes nothing and keeps its buffer,
  // whatever packets, stops, refused starts, connects and downloads come.
  lemma {:induction false} StoppedLifeStays(s: Session, ops: seq<SessionOp>, later: seq<SessionOp>)
    requires !Life(s, ops).after.sender.running && NeverStarted(later)
    ensures SilentSince(Life(s, ops), Life(s, ops + later))
    decreases |later|
  {
    if later == [] {
      assert ops + later == ops;
    } else {
      var before, op := later[..|later| - 1], later[|later| - 1];
      StoppedLifeStays(s, ops, before);
      LifeSnoc(s, ops + before, op);
      assert ops + later == ops + before + [op];
      var mid := Life(s, ops + before);
      StoppedOpIsSilent(mid.after, op);
      SilentStill(Life(s, ops), mid, Life(s, ops + later), Perform(mid.after, op).net);
    }
  }

  lemma StoppedOpIsSilent(s: Session, op: SessionOp)
    requires !s.sender.running && StartsNothing(op)
    ensures var e := Perform(s, op);
            && e.after.sender == s.sender.(client := e.after.sender.client)
            && (forall i :: 0 <= i < |e.net| ==> !e.net[i].Wrote?)
  {
  }

  lemma SilentStill(was: Effect, mid: Effect, now: Effect, net: seq<Event<Batch>>)
    requires SilentSince(was, mid) && now.net == mid.net + net
    requires forall i :: 0 <= i < |net| ==> !net[i].Wrote?
    requires now.after.sender == mid.after.sender.(client := now.after.sender.client)
    ensures SilentSince(was, now)
  {
  }

  // So wherever in a life a write fails: what was held is held still, and nothing more is
  // written until the session is started again.
  lemma FailedSendSilences(s: Session, ops: seq<SessionOp>, data: seq<byte>, answer: int, later: seq<SessionOp>)
    requires Perform(Life(s, ops).after, SendPacket(data, answer)).result != 0 && NeverStarted(later)
    ensures var failed := Life(s, ops + [SendPacket(data, answer)]);
            && !failed.after.sender.running && failed.after.sender.held == Life(s, ops).after.sender.held
            && SilentSince(failed, Life(s, ops + [SendPacket(data, answer)] + later))
  {
    ResultTells(Life(s, ops).after.sender, Packet(0, data), Counted, answer);
    LifeSnoc(s, ops, SendPacket(data, answer));
    StoppedLifeStays(s, ops + [SendPacket(data, answer)], later);
  }

  // ---------- when a session runs ----------

  // A start with everything granted: a real-time one whatever its open answers, a record
  // one if it opens.
  predicate Begins(op: SessionOp) {
    (op.StartReal? && op.keyFrame.Done?) ||
    (op.StartRecord? && op.stream.Done? && op.kind.Done? && op.handle != 0)
  }

  // A stop, or a packet whose call reports a failure.
  predicate Quenches(s: Session, op: SessionOp) {
    op.Stop? || (op.SendPacket? && Perform(s, op).result != 0)
  }

  ghost predicate Unquenched(s: Session, ops: seq<SessionOp>, from: nat) {
    forall j :: from <= j < |ops| ==> !Quenches(Life(s, ops[..j]).after, ops[j])
  }

  lemma RunsAfterIff(s: Session, op: SessionOp)
    ensures Perform(s, op).after.sender.running <==> Begins(op) || (s.sender.running && !Quenches(s, op))
  {
    if op.SendPacket? {
      ResultTells(s.sender, Packet(0, op.data), Counted, op.answer);
    }
  }

  // Some start has not been quenched.
  ghost predicate StartedAndUnquenched(s: Session, ops: seq<SessionOp>) {
    exists m :: 0 <= m < |ops| && Begins(ops[m]) && Unquenched(s, ops, m + 1)
  }

  // Over every life: a session runs if and only if it was started, or ran at first, and
  // nothing has quenched it since; whatever its handles and its connection are.
  lemma {:induction false} RunsIff(s: Session, ops: seq<SessionOp>)
    ensures Life(s, ops).after.sender.running <==>
            (s.sender.running && Unquenched(s, ops, 0)) || StartedAndUnquenched(s, ops)
    decreases |ops|
  {
    if ops != [] {
      var before, op := ops[..|ops| - 1], ops[|ops| - 1];
      RunsIff(s, before);
      RunsAfterIff(Life(s, before).after, op);
      UnquenchedSnoc(s, ops, 0);
      StartedSnoc(s, ops);
    }
  }

  lemma StartedSnoc(s: Session, ops: seq<SessionOp>)
    requires ops != []
    ensures var before, op := ops[..|ops| - 1], ops[|ops| - 1];
            StartedAndUnquenched(s, ops) <==>
            Begins(op) || (StartedAndUnquenched(s, before) && !Quenches(Life(s, before).after, op))
  {
    var before := ops[..|ops| - 1];
    if Begins(ops[|before|]) {
      assert Unquenched(s, ops, |before| + 1);
    } else if StartedAndUnquenched(s, ops) {
      var m :| 0 <= m < |ops| && Begins(ops[m]) && Unquenched(s, ops, m + 1);
      StartKept(s, ops, m);
    } else if StartedAndUnquenched(s, before) {
      var m :| 0 <= m < |before| && Begins(before[m]) && Unquenched(s, before, m + 1);
      StartKept(s, ops, m);
    }
  }

  lemma StartKept(s: Session, ops: seq<SessionOp>, m: nat)
    requires m < |ops| - 1
    ensures ops[..|ops| - 1][m] == ops[m]
    ensures Unquenched(s, ops, m + 1) <==>
            Unquenched(s, ops[..|ops| - 1], m + 1) && !Quenches(Life(s, ops[..|ops| - 1]).after, ops[|ops| - 1])
  {
    UnquenchedSnoc(s, ops, m + 1);
  }

  lemma UnquenchedSnoc(s: Session, ops: seq<SessionOp>, m: nat)
    requires m < |ops|
    ensures Unquenched(s, ops, m) <==>
            Unquenched(s, ops[..|ops| - 1], m) && !Quenches(Life(s, ops[..|ops| - 1]).after, ops[|ops| - 1])
  {
    var before := ops[..|ops| - 1];
    assert forall j :: 0 <= j <= |before| ==> before[..j] == ops[..j];
  }

  // After a real-time start with a granted key frame the session runs, whatever the handle
  // and the connection, and accepts the next packet if its write, if any, does not fail.
  lemma StartThenAccepts(s: Session, ops: seq<SessionOp>, handle: nat, error: int, data: seq<byte>)
    ensures var started := ops + [StartReal(Done, handle, error)];
            && Life(s, started).after.sender.running
            && Perform(Life(s, started).after, SendPacket(data, 0)).result == 0
            && AcceptedData(s, started + [SendPacket(data, 0)]) == AcceptedData(s, started) + [data]
  {
    var started := ops + [StartReal(Done, handle, error)];
    LifeSnoc(s, ops, StartReal(Done, handle, error));
    ResultTells(Life(s, started).after.sender, Packet(0, data), Counted, 0);
    assert (started + [SendPacket(data, 0)])[..|started|] == started;
  }

  // ---------- starts that are refused ----------

  // A call before the open is refused: the key frame, or one of the two modes.
  predicate Refused(op: SessionOp) {
    match op
    case StartReal(keyFrame, _, _) => keyFrame.Failed?
    case StartRecord(stream, kind, _, _) => stream.Failed? || kind.Failed?
    case StartDownload(stream, kind, _, _) => stream.Failed? || kind.Failed?
    case _ => false
  }

  // What a start answers: the code of the first call that is refused, though for a key frame
  // success; then the code of an open that fails.
  lemma StartAnswers(s: Session, op: SessionOp)
    requires op.StartReal? || op.StartRecord? || op.StartDownload?
    ensures op.StartReal? && op.keyFrame.Failed? ==> Perform(s, op).result == 0
    ensures !op.StartReal? && op.stream.Failed? ==> Perform(s, op).result == op.stream.error
    ensures !op.StartReal? && op.stream.Done? && op.kind.Failed? ==> Perform(s, op).result == op.kind.error
    ensures !Refused(op) ==> Perform(s, op).result == if op.handle == 0 then op.error else 0
  {
  }

  function Unrefused(ops: seq<SessionOp>): seq<SessionOp> {
    if ops == [] then [] else
    Unrefused(ops[..|ops| - 1]) + if Refused(ops[|ops| - 1]) then [] else [ops[|ops| - 1]]
  }

  ghost predicate SameButResult(e: Effect, f: Effect) {
    e.after == f.after && e.net == f.net && e.sdk == f.sdk
  }

  // Over every life, refused starts leave no trace: without them the session would be the
  // same and have made the same calls.
  lemma {:induction false} RefusedStartsLeaveNoTrace(s: Session, ops: seq<SessionOp>)
    ensures SameButResult(Life(s, ops), Life(s, Unrefused(ops)))
    decreases |ops|
  {
    if ops != [] {
      var before, op := ops[..|ops| - 1], ops[|ops| - 1];
      RefusedStartsLeaveNoTrace(s, before);
      assert before + [op] == ops;
      if Refused(op) {
        assert Unrefused(ops) == Unrefused(before) + [] == Unrefused(before);
        RefusedLast(s, before, op);
      } else {
        SameStep(s, before, Unrefused(before), op);
      }
    }
  }

  lemma SameStep(s: Session, ops: seq<SessionOp>, others: seq<SessionOp>, op: SessionOp)
    requires SameButResult(Life(s, ops), Life(s, others))
    ensures SameButResult(Life(s, ops + [op]), Life(s, others + [op]))
  {
    LifeSnoc(s, ops, op);
    LifeSnoc(s, others, op);
  }

  lemma RefusedLast(s: Session, ops: seq<SessionOp>, op: SessionOp)
    requires Refused(op)
    ensures SameButResult(Life(s, ops + [op]), Life(s, ops))
  {
    LifeSnoc(s, ops, op);
    var l := Life(s, ops);
    assert l.net + [] == l.net && l.sdk + [] == l.sdk;
  }

  // ---------- stopping and going away ----------

  function StopAnswer(op: SessionOp, slot: Slot): Answer
    requires op.Stop?
  {
    match slot
    case Record => op.record
    case Live => op.live
    case Download => op.download
  }

  // The error code of the last of the calls that failed, 0 if none did.
  function LastFailure(es: seq<SdkEvent>, op: SessionOp): int
    requires op.Stop?
  {
    if es == [] then 0
    else if StopAnswer(op, es[|es| - 1].slot).Failed? then StopAnswer(op, es[|es| - 1].slot).error
    else LastFailure(es[..|es| - 1], op)
  }

  function Rank(slot: Slot): nat {
    match slot
    case Record => 0
    case Live => 1
    case Download => 2
  }

  ghost predicate InOrder(es: seq<SdkEvent>) {
    forall i, j :: 0 <= i < j < |es| ==> Rank(es[i].slot) < Rank(es[j].slot)
  }

  // A stop calls the SDK once for each held handle, in the order record, live, download. It
  // answers with the code of the last call that failed.
  lemma StopAnswers(s: Session, op: SessionOp)
    requires op.Stop?
    ensures var e := Perform(s, op);
            && InOrder(e.sdk) && (forall x :: x in e.sdk ==> x.Stopped?)
            && (forall slot, h :: Stopped(slot, h) in e.sdk <==> h != 0 && s.plays.Get(slot) == h)
            && e.result == LastFailure(e.sdk, op)
  {
    StopsInOrder(s.plays);
    StopsAreThose(s.plays);
    StopResultIsLast(s.plays, op);
  }

  lemma StopsInOrder(plays: Plays)
    ensures InOrder(StopAll(plays)) && forall x :: x in StopAll(plays) ==> x.Stopped?
  {
  }

  lemma StopsAreThose(plays: Plays)
    ensures forall slot, h :: Stopped(slot, h) in StopAll(plays) <==> h != 0 && plays.Get(slot) == h
  {
    var r, l, d := StopSlot(plays, Record), StopSlot(plays, Live), StopSlot(plays, Download);
    forall slot, h ensures Stopped(slot, h) in StopAll(plays) <==> h != 0 && plays.Get(slot) == h {
      var x := Stopped(slot, h);
      assert x in r + l + d <==> x in r || x in l || x in d;
      match slot case Record => case Live => case Download =>
    }
  }

  lemma StopResultIsLast(plays: Plays, op: SessionOp)
    requires op.Stop?
    ensures StopResult(plays, op.record, op.live, op.download) == LastFailure(StopAll(plays), op)
  {
    var r, l, d := StopSlot(plays, Record), StopSlot(plays, Live), StopSlot(plays, Download);
    LastFailureAppend(r + l, d, op);
    LastFailureAppend(r, l, op);
    FailureOfOne(plays, Record, op);
    FailureOfOne(plays, Live, op);
    FailureOfOne(plays, Download, op);
  }

  lemma FailureOfOne(plays: Plays, slot: Slot, op: SessionOp)
    requires op.Stop?
    ensures var es, fails := StopSlot(plays, slot), plays.Get(slot) != 0 && StopAnswer(op, slot).Failed?;
            && (SomeFailure(es, op) <==> fails)
            && LastFailure(es, op) == if fails then StopAnswer(op, slot).error else 0
  {
    var es := StopSlot(plays, slot);
    if es != [] {
      assert es[..0] == [];
      assert es[0].slot == slot;
    }
  }

  ghost predicate SomeFailure(es: seq<SdkEvent>, op: SessionOp)
    requires op.Stop?
  {
    exists i :: 0 <= i < |es| && StopAnswer(op, es[i].slot).Failed?
  }

  lemma {:induction false} LastFailureAppend(es: seq<SdkEvent>, fs: seq<SdkEvent>, op: SessionOp)
    requires op.Stop?
    ensures LastFailure(es + fs, op) == if SomeFailure(fs, op) then LastFailure(fs, op) else LastFailure(es, op)
    decreases |fs|
  {
    if fs == [] {
      assert es + fs == es;
    } else {
      var before, f := fs[..|fs| - 1], fs[|fs| - 1];
      assert (es + fs)[..|es + fs| - 1] == es + before;
      LastFailureAppend(es, before, op);
      if SomeFailure(before, op) {
        var i :| 0 <= i < |before| && StopAnswer(op, before[i].slot).Failed?;
        assert StopAnswer(op, fs[i].slot).Failed?;
      }
      if SomeFailure(fs, op) && !StopAnswer(op, f.slot).Failed? {
        var i :| 0 <= i < |fs| && StopAnswer(op, fs[i].slot).Failed?;
        assert StopAnswer(op, before[i].slot).Failed?;
      }
    }
  }

  // A stop with a stream, and the destruction, disconnect what is connected, with one call;
  // a stop without streams makes no call.
  lemma DisconnectsOnce(s: Session, op: SessionOp)
    requires op.Stop? || op.Destroy?
    ensures Perform(s, op).net ==
              if s.sender.client != 0 && (op.Destroy? || s.plays != NO_PLAYS)
              then [Disconnected(s.sender.client, op.disconnect)] else []
  {
  }

  // ---------- running without a stream ----------

  // Running only with a stream to take packets from.
  predicate HasStream(s: Session) {
    s.sender.running ==> s.plays.record != 0 || s.plays.live != 0
  }

  // A start that opens nothing does not leave the session running without a stream.
  predicate KeepsStream(s: Session, op: SessionOp) {
    match op
    case StartReal(keyFrame, handle, _) => keyFrame.Done? && handle == 0 ==> s.plays.record != 0
    case StartRecord(stream, kind, handle, _) =>
      stream.Done? && kind.Done? && handle == 0 && s.sender.running ==> s.plays.live != 0
    case _ => true
  }

  lemma OneOpKeepsStreamIff(s: Session, op: SessionOp)
    requires HasStream(s)
    ensures HasStream(Perform(s, op).after) <==> KeepsStream(s, op)
  {
  }

  ghost predicate AlwaysHasStream(s: Session, ops: seq<SessionOp>)
    decreases |ops|
  {
    HasStream(Life(s, ops).after) && (ops == [] || AlwaysHasStream(s, ops[..|ops| - 1]))
  }

  ghost predicate StartsOpen(s: Session, ops: seq<SessionOp>)
    decreases |ops|
  {
    ops == [] ||
    (StartsOpen(s, ops[..|ops| - 1]) && KeepsStream(Life(s, ops[..|ops| - 1]).after, ops[|ops| - 1]))
  }

  // A real-time start runs the session even if it opened nothing, and a record start that
  // fails empties its slot. Over a life the session never runs without a stream if and only
  // if every real-time start with a granted key frame opens one or finds a recording, and no
  // record start fails to open under a running session without a live stream.
  lemma {:induction false} AlwaysHasStreamIff(s: Session, ops: seq<SessionOp>)
    requires HasStream(s)
    ensures AlwaysHasStream(s, ops) <==> StartsOpen(s, ops)
    decreases |ops|
  {
    if ops != [] {
      var before, op := ops[..|ops| - 1], ops[|ops| - 1];
      AlwaysHasStreamIff(s, before);
      if AlwaysHasStream(s, before) {
        OneOpKeepsStreamIff(Life(s, before).after, op);
      }
    }
  }

  // One real-time start of a new session whose open fails.
  lemma FailedStartRuns(stamp: word32)
    ensures !HasStream(Life(NewSession(stamp), [StartReal(Done, 0, 7)]).after)
  {
    LifeSnoc(NewSession(stamp), [], StartReal(Done, 0, 7));
    assert [] + [StartReal(Done, 0, 7)] == [StartReal(Done, 0, 7)];
  }

  // ---------- what the results tell ----------

  // Success of a record start means that it plays and runs.
  lemma RecordStartSucceedsIff(s: Session, op: SessionOp)
    requires op.StartRecord? && op.error != 0
    requires (op.stream.Failed? ==> op.stream.error != 0) && (op.kind.Failed? ==> op.kind.error != 0)
    ensures var e := Perform(s, op);
            e.result == 0 <==> e.sdk != [] && e.after.plays.record != 0 && e.after.plays.record == op.handle
    ensures Perform(s, op).result == 0 ==> Perform(s, op).after.sender.running
  {
  }

  // Success of a real-time start means that it plays, if and only if the key frame was
  // granted: a refused one reports success and starts nothing.
  lemma RealStartPlaysIff(s: Session, op: SessionOp)
    requires op.StartReal? && op.error != 0
    ensures var e := Perform(s, op);
            (e.result == 0 ==> Opened(Live, op.handle) in e.sdk && e.after.plays.live == op.handle != 0) <==>
            op.keyFrame.Done?
  {
    if op.keyFrame.Done? && op.handle != 0 {
      assert Opened(Live, op.handle) == OpenInto(s.plays, Live, op.handle)[|OpenInto(s.plays, Live, op.handle)| - 1];
    }
  }

  // Error codes are not 0.
  predicate TellsErrors(op: SessionOp) {
    match op
    case StartReal(_, _, error) => error != 0
    case StartRecord(stream, kind, _, error) => TellsError(stream) && TellsError(kind) && error != 0
    case StartDownload(stream, kind, _, error) => TellsError(stream) && TellsError(kind) && error != 0
    case Stop(record, live, download, _) => TellsError(record) && TellsError(live) && TellsError(download)
    case _ => true
  }

  predicate TellsError(a: Answer) {
    a.Failed? ==> a.error != 0
  }

  ghost predicate AllTellErrors(ops: seq<SessionOp>) {
    forall i :: 0 <= i < |ops| ==> TellsErrors(ops[i])
  }

  // The slot that the operation is a start for.
  predicate StartsSlot(op: SessionOp, slot: Slot) {
    match slot
    case Record => op.StartRecord?
    case Live => op.StartReal?
    case Download => op.StartDownload?
  }

  // How many starts for the slot reported success.
  function Successes(s: Session, ops: seq<SessionOp>, slot: Slot): nat
    decreases |ops|
  {
    if ops == [] then 0 else
    var before, op := ops[..|ops| - 1], ops[|ops| - 1];
    Successes(s, before, slot) + if StartsSlot(op, slot) && Perform(Life(s, before).after, op).result == 0 then 1 else 0
  }

  // How many real-time starts had their key frame refused.
  function Refusals(ops: seq<SessionOp>): nat {
    if ops == [] then 0 else
    Refusals(ops[..|ops| - 1]) + if ops[|ops| - 1].StartReal? && ops[|ops| - 1].keyFrame.Failed? then 1 else 0
  }

  // How many handles were opened for the slot.
  function Opens(es: seq<SdkEvent>, slot: Slot): nat {
    if es == [] then 0 else
    Opens(es[..|es| - 1], slot) + if es[|es| - 1].Opened? && es[|es| - 1].slot == slot then 1 else 0
  }

  // Over every life the starts that report success are those that opened a stream; only
  // for the live slot there are besides as many more as key frames were refused.
  lemma {:induction false} SuccessesTellOpens(s: Session, ops: seq<SessionOp>, slot: Slot)
    requires AllTellErrors(ops)
    ensures Successes(s, ops, slot) == Opens(Life(s, ops).sdk, slot) + if slot == Live then Refusals(ops) else 0
    decreases |ops|
  {
    if ops != [] {
      var before, op := ops[..|ops| - 1], ops[|ops| - 1];
      SuccessesTellOpens(s, before, slot);
      var now := Life(s, before);
      OneStartTells(now.after, op, slot);
      OpensAppend(now.sdk, Perform(now.after, op).sdk, slot);
    }
  }

  lemma OneStartTells(s: Session, op: SessionOp, slot: Slot)
    requires TellsErrors(op)
    ensures var e := Perform(s, op);
            Opens(e.sdk, slot) ==
              if StartsSlot(op, slot) && e.result == 0 && !(op.StartReal? && op.keyFrame.Failed?) then 1 else 0
  {
    if op.StartRecord? {
      RecordStartSucceedsIff(s, op);
      OpensOfOpen(s.plays, Record, op.handle, slot);
    } else if op.StartReal? {
      OpensOfOpen(s.plays, Live, op.handle, slot);
    } else if op.StartDownload? {
      OpensOfOpen(s.plays, Download, op.handle, slot);
    } else if op.Stop? {
      OpensOfStop(s.plays, slot);
    }
  }

  lemma OpensOfOpen(plays: Plays, at: Slot, handle: nat, slot: Slot)
    ensures Opens(OpenInto(plays, at, handle), slot) == if at == slot && handle != 0 then 1 else 0
  {
    var lost := if plays.Get(at) != 0 then [Overwritten(at, plays.Get(at))] else [];
    var now := if handle != 0 then [Opened(at, handle)] else [];
    OpensAppend(lost, now, slot);
  }

  lemma OpensOfStop(plays: Plays, slot: Slot)
    ensures Opens(StopAll(plays), slot) == 0
  {
    OpensAppend(StopSlot(plays, Record) + StopSlot(plays, Live), StopSlot(plays, Download), slot);
    OpensAppend(StopSlot(plays, Record), StopSlot(plays, Live), slot);
  }

  lemma {:induction false} OpensAppend(es: seq<SdkEvent>, fs: seq<SdkEvent>, slot: Slot)
    ensures Opens(es + fs, slot) == Opens(es, slot) + Opens(fs, slot)
    decreases |fs|
  {
    if fs == [] {
      assert es + fs == es;
    } else {
      assert (es + fs)[..|es + fs| - 1] == es + fs[..|fs| - 1];
      OpensAppend(es, fs[..|fs| - 1], slot);
    }
  }

  // Stopping reports an error if and only if stopping some held handle failed.
  lemma StopFailsIff(s: Session, op: SessionOp)
    requires op.Stop?
    requires forall a :: a in [op.record, op.live, op.download] && a.Failed? ==> a.error != 0
    ensures Perform(s, op).result != 0 <==>
            || (s.plays.record != 0 && op.record.Failed?)
            || (s.plays.live != 0 && op.live.Failed?)
            || (s.plays.download != 0 && op.download.Failed?)
  {
  }

  // A stop releases the media connection only on the way of stopping a stream: there is
  // none left afterwards if and only if there was none, or some stream was held and the
  // disconnect succeeded.
  lemma StopReleasesConnectionIff(s: Session, op: SessionOp)
    requires op.Stop?
    ensures Perform(s, op).after.sender.client == 0 <==>
            s.sender.client == 0 || (s.plays != NO_PLAYS && op.disconnect == 0)
  {
  }

  // A session that is connected and stopped without having opened a stream.
  lemma IdleStopKeepsConnection(stamp: word32)
    ensures Life(NewSession(stamp), [Connect(0, 7), Stop(Done, Done, Done, 0)]).after.sender.client != 0
  {
    LifeSnoc(NewSession(stamp), [], Connect(0, 7));
    LifeSnoc(NewSession(stamp), [Connect(0, 7)], Stop(Done, Done, Done, 0));
    assert [] + [Connect(0, 7)] == [Connect(0, 7)];
    StopReleasesConnectionIff(Life(NewSession(stamp), [Connect(0, 7)]).after, Stop(Done, Done, Done, 0));
    assert [Connect(0, 7)] + [Stop(Done, Done, Done, 0)] == [Connect(0, 7), Stop(Done, Done, Done, 0)];
  }
}

// Accounting for the SDK play handles.
module PlayHandles {
  import opened Sessions

  // 1 if the slot holds the handle.
  function Holds(plays: Plays, slot: Slot, h: nat): nat {
    if plays.Get(slot) == h then 1 else 0
  }

  // How often the event occurs.
  function Count(es: seq<SdkEvent>, e: SdkEvent): nat {
    if es == [] then 0 else (if es[0] == e then 1 else 0) + Count(es[1..], e)
  }

  lemma {:induction false} CountAppend(es: seq<SdkEvent>, fs: seq<SdkEvent>, e: SdkEvent)
    ensures Count(es + fs, e) == Count(es, e) + Count(fs, e)
  {
    if es == [] {
      assert es + fs == fs;
    } else {
      assert (es + fs)[1..] == es[1..] + fs;
      CountAppend(es[1..], fs, e);
    }
  }

  lemma {:induction false} CountPositiveIff(es: seq<SdkEvent>, e: SdkEvent)
    ensures Count(es, e) > 0 <==> e in es
  {
    if es != [] {
      CountPositiveIff(es[1..], e);
      assert e in es <==> e == es[0] || e in es[1..];
    }
  }

  // The books of one handle: held and opened is stopped, overwritten and still held.
  ghost predicate Balanced(before: Plays, es: seq<SdkEvent>, after: Plays, slot: Slot, h: nat) {
    Holds(before, slot, h) + Count(es, Opened(slot, h))
    == Count(es, Stopped(slot, h)) + Count(es, Overwritten(slot, h)) + Holds(after, slot, h)
  }

  lemma OpenBalances(plays: Plays, at: Slot, handle: nat, slot: Slot, h: nat)
    requires h != 0
    ensures Balanced(plays, OpenInto(plays, at, handle), plays.Set(at, handle), slot, h)
  {
    var lost := if plays.Get(at) != 0 then [Overwritten(at, plays.Get(at))] else [];
    var now := if handle != 0 then [Opened(at, handle)] else [];
    CountAppend(lost, now, Opened(slot, h));
    CountAppend(lost, now, Stopped(slot, h));
    CountAppend(lost, now, Overwritten(slot, h));
  }

  lemma StopAllBalances(plays: Plays, slot: Slot, h: nat)
    requires h != 0
    ensures Count(StopAll(plays), Stopped(slot, h)) == Holds(plays, slot, h)
    ensures Balanced(plays, StopAll(plays), NO_PLAYS, slot, h)
  {
    CountStopAll(plays, Opened(slot, h));
    CountStopAll(plays, Stopped(slot, h));
    CountStopAll(plays, Overwritten(slot, h));
    match slot case Record => case Live => case Download =>
  }

  lemma CountStopAll(plays: Plays, e: SdkEvent)
    ensures Count(StopAll(plays), e)
         == Count(StopSlot(plays, Record), e) + Count(StopSlot(plays, Live), e) + Count(StopSlot(plays, Download), e)
  {
    CountAppend(StopSlot(plays, Record) + StopSlot(plays, Live), StopSlot(plays, Download), e);
    CountAppend(StopSlot(plays, Record), StopSlot(plays, Live), e);
  }

  lemma StartBalances(s: Session, op: SessionOp, slot: Slot, h: nat)
    requires h != 0 && (op.StartReal? || op.StartRecord? || op.StartDownload?)
    ensures Balanced(s.plays, Perform(s, op).sdk, Perform(s, op).after.plays, slot, h)
  {
    if op.StartReal? {
      OpenBalances(s.plays, Live, op.handle, slot, h);
    } else if op.StartRecord? {
      OpenBalances(s.plays, Record, op.handle, slot, h);
    } else {
      OpenBalances(s.plays, Download, op.handle, slot, h);
    }
  }

  lemma OneOpBalances(s: Session, op: SessionOp, slot: Slot, h: nat)
    requires h != 0
    ensures Balanced(s.plays, Perform(s, op).sdk, Perform(s, op).after.plays, slot, h)
  {
    if op.StartReal? || op.StartRecord? || op.StartDownload? {
      StartBalances(s, op, slot, h);
    } else if op.Stop? {
      StopAllBalances(s.plays, slot, h);
    }
  }

  // Over every life, from any session, the books of every handle balance.
  lemma {:induction false} HandlesAreConserved(s: Session, ops: seq<SessionOp>, slot: Slot, h: nat)
    requires h != 0
    ensures Balanced(s.plays, Life(s, ops).sdk, Life(s, ops).after.plays, slot, h)
    decreases |ops|
  {
    if ops != [] {
      var l, op := Life(s, ops[..|ops| - 1]), ops[|ops| - 1];
      HandlesAreConserved(s, ops[..|ops| - 1], slot, h);
      OneOpBalances(l.after, op, slot, h);
      CountAppend(l.sdk, Perform(l.after, op).sdk, Opened(slot, h));
      CountAppend(l.sdk, Perform(l.after, op).sdk, Stopped(slot, h));
      CountAppend(l.sdk, Perform(l.after, op).sdk, Overwritten(slot, h));
    }
  }

  // A handle that the SDK opens once is stopped at most once, however often the session is
  // stopped and restarted, and not before it is out of its slot.
  lemma StoppedAtMostOnce(s: Session, ops: seq<SessionOp>, slot: Slot, h: nat)
    requires s.plays == NO_PLAYS && h != 0 && Count(Life(s, ops).sdk, Opened(slot, h)) <= 1
    ensures Count(Life(s, ops).sdk, Stopped(slot, h)) + Holds(Life(s, ops).after.plays, slot, h) <= 1
  {
    HandlesAreConserved(s, ops, slot, h);
    match slot case Record => case Live => case Download =>
  }

  // The call would put a handle into a slot that still holds one.
  predicate HitsOccupiedSlot(s: Session, op: SessionOp) {
    match op
    case StartReal(keyFrame, _, _) => keyFrame.Done? && s.plays.live != 0
    case StartRecord(stream, kind, _, _) => stream.Done? && kind.Done? && s.plays.record != 0
    case StartDownload(stream, kind, _, _) => stream.Done? && kind.Done? && s.plays.download != 0
    case _ => false
  }

  ghost predicate NeverHitsOccupiedSlot(s: Session, ops: seq<SessionOp>) {
    forall m :: 0 <= m < |ops| ==> !HitsOccupiedSlot(Life(s, ops[..m]).after, ops[m])
  }

  // Every handle held or opened is stopped or still held.
  ghost predicate NothingLost(before: Plays, es: seq<SdkEvent>, after: Plays) {
    forall slot, h :: h != 0 ==>
      Holds(before, slot, h) + Count(es, Opened(slot, h)) == Count(es, Stopped(slot, h)) + Holds(after, slot, h)
  }

  // A start does not stop what its slot holds, so handles can get lost. Over a life none
  // is lost if and only if no start reaches an occupied slot.
  lemma NothingLostIff(s: Session, ops: seq<SessionOp>)
    ensures NothingLost(s.plays, Life(s, ops).sdk, Life(s, ops).after.plays) <==> NeverHitsOccupiedSlot(s, ops)
  {
    var l := Life(s, ops);
    OverwritesIff(s, ops);
    if e :| e in l.sdk && e.Overwritten? {
      HandlesAreConserved(s, ops, e.slot, e.handle);
      CountPositiveIff(l.sdk, Overwritten(e.slot, e.handle));
    } else {
      forall slot, h | h != 0
        ensures Holds(s.plays, slot, h) + Count(l.sdk, Opened(slot, h))
             == Count(l.sdk, Stopped(slot, h)) + Holds(l.after.plays, slot, h)
      {
        HandlesAreConserved(s, ops, slot, h);
        CountPositiveIff(l.sdk, Overwritten(slot, h));
      }
    }
  }

  // Two real-time starts in a row: the first handle is lost.
  lemma SecondStartLosesHandle(s: Session)
    ensures var ops := [StartReal(Done, 5, 0), StartReal(Done, 6, 0)];
            !NothingLost(s.plays, Life(s, ops).sdk, Life(s, ops).after.plays)
  {
    var first, second := StartReal(Done, 5, 0), StartReal(Done, 6, 0);
    LifeSnoc(s, [], first);
    assert [first, second][..1] == [] + [first];
    assert HitsOccupiedSlot(Life(s, [first, second][..1]).after, [first, second][1]);
    NothingLostIff(s, [first, second]);
  }

  lemma {:induction false} OverwritesIff(s: Session, ops: seq<SessionOp>)
    ensures (exists e :: e in Life(s, ops).sdk && e.Overwritten?) <==> !NeverHitsOccupiedSlot(s, ops)
    ensures forall e :: e in Life(s, ops).sdk ==> e.handle != 0
    decreases |ops|
  {
    if ops != [] {
      var before, op := ops[..|ops| - 1], ops[|ops| - 1];
      var now := Life(s, before).after;
      OverwritesIff(s, before);
      NeverHitsSnoc(s, ops);
      OverwriteOfOne(now, op);
      assert forall e :: e in Life(s, ops).sdk <==> e in Life(s, before).sdk || e in Perform(now, op).sdk;
    }
  }

  lemma NeverHitsSnoc(s: Session, ops: seq<SessionOp>)
    requires ops != []
    ensures NeverHitsOccupiedSlot(s, ops) <==>
            NeverHitsOccupiedSlot(s, ops[..|ops| - 1]) &&
            !HitsOccupiedSlot(Life(s, ops[..|ops| - 1]).after, ops[|ops| - 1])
  {
    var before := ops[..|ops| - 1];
    assert forall m :: 0 <= m <= |before| ==> before[..m] == ops[..m];
  }

  lemma OverwriteOfOne(s: Session, op: SessionOp)
    ensures (exists e :: e in Perform(s, op).sdk && e.Overwritten?) <==> HitsOccupiedSlot(s, op)
    ensures forall e :: e in Perform(s, op).sdk ==> e.handle != 0
  {
    if HitsOccupiedSlot(s, op) {
      assert Perform(s, op).sdk[0].Overwritten?;
    }
  }

  // How often stopping the handle of the slot failed; its slot is emptied all the same.
  function FailedStops(s: Session, ops: seq<SessionOp>, slot: Slot, h: nat): nat
    decreases |ops|
  {
    if ops == [] then 0 else
    var before, op := ops[..|ops| - 1], ops[|ops| - 1];
    FailedStops(s, before, slot, h) +
    if op.Stop? && Life(s, before).after.plays.Get(slot) == h && StopAnswer(op, slot).Failed? then 1 else 0
  }

  // Every stop reports success.
  ghost predicate StopsSucceed(s: Session, ops: seq<SessionOp>)
    decreases |ops|
  {
    ops == [] ||
    (StopsSucceed(s, ops[..|ops| - 1]) &&
     (ops[|ops| - 1].Stop? ==> Perform(Life(s, ops[..|ops| - 1]).after, ops[|ops| - 1]).result == 0))
  }

  // Every handle held or opened has been stopped with success or is still held.
  ghost predicate NothingPlaysOn(s: Session, ops: seq<SessionOp>) {
    forall slot, h :: h != 0 ==>
      Holds(s.plays, slot, h) + Count(Life(s, ops).sdk, Opened(slot, h)) + FailedStops(s, ops, slot, h)
      == Count(Life(s, ops).sdk, Stopped(slot, h)) + Holds(Life(s, ops).after.plays, slot, h)
  }

  // No stream plays on at the device that the session has lost sight of, if and only if no
  // start reaches an occupied slot and every stop reports success.
  lemma NothingPlaysOnIff(s: Session, ops: seq<SessionOp>)
    requires AllTellErrors(ops)
    ensures NothingPlaysOn(s, ops) <==> NeverHitsOccupiedSlot(s, ops) && StopsSucceed(s, ops)
  {
    OverwritesIff(s, ops);
    if e :| e in Life(s, ops).sdk && e.Overwritten? {
      HandlesAreConserved(s, ops, e.slot, e.handle);
      CountPositiveIff(Life(s, ops).sdk, Overwritten(e.slot, e.handle));
    } else if !StopsSucceed(s, ops) {
      var slot, h := SomeFailedStop(s, ops);
      HandlesAreConserved(s, ops, slot, h);
    } else {
      forall slot, h | h != 0
        ensures Holds(s.plays, slot, h) + Count(Life(s, ops).sdk, Opened(slot, h)) + FailedStops(s, ops, slot, h)
             == Count(Life(s, ops).sdk, Stopped(slot, h)) + Holds(Life(s, ops).after.plays, slot, h)
      {
        HandlesAreConserved(s, ops, slot, h);
        CountPositiveIff(Life(s, ops).sdk, Overwritten(slot, h));
        NoFailedStop(s, ops, slot, h);
      }
    }
  }

  // A live stream whose stop fails: the session ends with empty slots, and it plays on.
  lemma FailedStopPlaysOn(s: Session)
    requires s.plays == NO_PLAYS
    ensures var ops := [StartReal(Done, 5, 7), Stop(Done, Failed(9), Done, 0)];
            Life(s, ops).after.plays == NO_PLAYS && !NothingPlaysOn(s, ops)
  {
    var start, stop := StartReal(Done, 5, 7), Stop(Done, Failed(9), Done, 0);
    var ops := [start, stop];
    LifeSnoc(s, [], start);
    assert [] + [start] == ops[..1];
    LifeSnoc(s, ops[..1], stop);
    assert ops[..1] + [stop] == ops;
    assert !StopsSucceed(s, ops);
    NothingPlaysOnIff(s, ops);
  }

  lemma {:induction false} NoFailedStop(s: Session, ops: seq<SessionOp>, slot: Slot, h: nat)
    requires AllTellErrors(ops) && StopsSucceed(s, ops) && h != 0
    ensures FailedStops(s, ops, slot, h) == 0
    decreases |ops|
  {
    if ops != [] {
      NoFailedStop(s, ops[..|ops| - 1], slot, h);
      if ops[|ops| - 1].Stop? {
        assert TellsErrors(ops[|ops| - 1]);
        StopFailsIff(Life(s, ops[..|ops| - 1]).after, ops[|ops| - 1]);
        match slot case Record => case Live => case Download =>
      }
    }
  }

  lemma {:induction false} SomeFailedStop(s: Session, ops: seq<SessionOp>) returns (slot: Slot, h: nat)
    requires AllTellErrors(ops) && !StopsSucceed(s, ops)
    ensures h != 0 && FailedStops(s, ops, slot, h) > 0
    decreases |ops|
  {
    var before, op := ops[..|ops| - 1], ops[|ops| - 1];
    if StopsSucceed(s, before) {
      var plays := Life(s, before).after.plays;
      assert TellsErrors(op);
      StopFailsIff(Life(s, before).after, op);
      slot := if plays.record != 0 && op.record.Failed? then Record
              else if plays.live != 0 && op.live.Failed? then Live else Download;
      h := plays.Get(slot);
    } else {
      slot, h := SomeFailedStop(s, before);
    }
  }

  // Every stop, in any state, issues exactly one stop call for each held handle and no
  // other, and empties all slots; a second stop issues no call at all and reports success.
  lemma StopEmptiesSlots(s: Session, first: SessionOp, second: SessionOp)
    requires first.Stop? && second.Stop?
    ensures Perform(s, first).after.plays == NO_PLAYS && !Perform(s, first).after.sender.running
    ensures forall e :: e in Perform(s, first).sdk ==> e.Stopped?
    ensures forall slot, h :: h != 0 ==> Count(Perform(s, first).sdk, Stopped(slot, h)) == Holds(s.plays, slot, h)
    ensures Perform(Perform(s, first).after, second) == Effect(Perform(s, first).after, [], [], 0)
  {
    forall slot, h | h != 0 ensures Count(Perform(s, first).sdk, Stopped(slot, h)) == Holds(s.plays, slot, h) {
      StopAllBalances(s.plays, slot, h);
      match slot case Record => case Live => case Download =>
    }
  }
}
