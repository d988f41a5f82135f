// The buffered sender: what `sendMS` does to its buffer, seen as a queue of whole
// packets. The class PlaySession holds the same packets as bytes in an array.

module Network {
  import opened Bytes
  import opened Framing

  // What passes between a session and the network library. Data is the content of a
  // write: whole packets in this model, bytes on the wire.
  datatype Event<Data> =
    | Connected(handle: nat)
    | Wrote(handle: nat, data: Data, answer: int)
    | Disconnected(handle: nat, answer: int)

  type Batch = seq<Packet>

  function OnWire(e: Event<Batch>): Event<seq<byte>> {
    match e
    case Connected(h) => Connected(h)
    case Wrote(h, batch, answer) => Wrote(h, Frames(batch), answer)
    case Disconnected(h, answer) => Disconnected(h, answer)
  }

  function AllOnWire(es: seq<Event<Batch>>): seq<Event<seq<byte>>> {
    seq(|es|, i requires 0 <= i < |es| => OnWire(es[i]))
  }

  lemma OneOnWire(e: Event<Batch>)
    ensures AllOnWire([e]) == [OnWire(e)]
    ensures AllOnWire([]) == []
  {
  }

  lemma AllOnWireAppend(es: seq<Event<Batch>>, fs: seq<Event<Batch>>)
    ensures AllOnWire(es + fs) == AllOnWire(es) + AllOnWire(fs)
  {
  }

  // The data of a write that the network library accepted.
  function Content<D>(e: Event<seq<D>>): seq<D> {
    if e.Wrote? && e.answer == 0 then e.data else []
  }

  // All accepted data, in order: packets in this model, bytes on the wire.
  function Delivered<D>(es: seq<Event<seq<D>>>): seq<D> {
    if es == [] then [] else Delivered(es[..|es| - 1]) + Content(es[|es| - 1])
  }

  // The events of one connection.
  function OnHandle(es: seq<Event<Batch>>, h: nat): seq<Event<Batch>> {
    if es == [] then
      []
    else
      OnHandle(es[..|es| - 1], h) + if es[|es| - 1].handle == h then [es[|es| - 1]] else []
  }

  lemma {:induction false} DeliveredAppend<D>(es: seq<Event<seq<D>>>, fs: seq<Event<seq<D>>>)
    ensures Delivered(es + fs) == Delivered(es) + Delivered(fs)
    decreases |fs|
  {
    if fs == [] {
      assert es + fs == es;
    } else {
      var fs', f := fs[..|fs| - 1], fs[|fs| - 1];
      assert (es + fs)[..|es + fs| - 1] == es + fs';
      DeliveredAppend(es, fs');
      assert Delivered(es + fs) == Delivered(es + fs') + Content(f);
      assert Delivered(fs) == Delivered(fs') + Content(f);
      assert Delivered(es) + Delivered(fs') + Content(f) == Delivered(es) + (Delivered(fs') + Content(f));
    }
  }

  // What one connection delivered is part of what all delivered.
  lemma {:induction false} HandleShare(es: seq<Event<Batch>>, h: nat)
    ensures forall p :: p in Delivered(OnHandle(es, h)) ==> p in Delivered(es)
    decreases |es|
  {
    if es != [] {
      var before, last := es[..|es| - 1], es[|es| - 1];
      HandleShare(before, h);
      if last.handle == h {
        DeliveredAppend(OnHandle(before, h), [last]);
        assert [last][..0] == [];
        assert Delivered([last]) == Content(last);
      } else {
        assert OnHandle(before, h) + [] == OnHandle(before, h);
      }
    }
  }

  lemma LastOnWire(es: seq<Event<Batch>>)
    requires es != []
    ensures |AllOnWire(es)| == |es| && AllOnWire(es)[..|es| - 1] == AllOnWire(es[..|es| - 1])
    ensures AllOnWire(es)[|es| - 1] == OnWire(es[|es| - 1])
  {
  }

  lemma ContentOnWire(e: Event<Batch>)
    ensures Content(OnWire(e)) == Frames(Content(e))
  {
  }

  // The bytes on the wire are exactly the frames of the delivered packets.
  lemma {:induction false} WireIsFrames(es: seq<Event<Batch>>)
    ensures Delivered(AllOnWire(es)) == Frames(Delivered(es))
    decreases |es|
  {
    if es != [] {
      var before, last := es[..|es| - 1], es[|es| - 1];
      WireIsFrames(before);
      WireStep(es, AllOnWire(es));
      FramesAppend(Delivered(before), Content(last));
    }
  }

  lemma WireStep(es: seq<Event<Batch>>, wire: seq<Event<seq<byte>>>)
    requires es != [] && wire == AllOnWire(es)
    ensures Delivered(wire) == Delivered(AllOnWire(es[..|es| - 1])) + Frames(Content(es[|es| - 1]))
  {
    LastOnWire(es);
    ContentOnWire(es[|es| - 1]);
  }
}

module SendBuffer {
  import opened Bytes
  import opened Framing
  import opened Network

  const CAPACITY := 1024 * 64
  const NO_STAMP: word32 := 0xEFEF_EFEF

  // held: the packets whose frames are in the buffer; stamp: the time stamp of the last
  // packet put there; counter: the time stamp of the current packet.
  datatype Sender = Sender(running: bool, client: nat, held: seq<Packet>, stamp: word32, counter: word32)

  // The time stamp of a new packet: the code counts packets. Given stands for any other
  // rule, such as taking the stamp out of the RTP header.
  datatype Stamp = Counted | Given(value: word32)

  function StampOf(s: Sender, t: Stamp): word32 {
    match t
    case Counted => Increment32(s.counter)
    case Given(value) => value
  }

  datatype Outcome = Outcome(after: Sender, events: seq<Event<Batch>>, accepted: seq<Packet>, result: int)

  function Length(s: Sender): nat {
    |Frames(s.held)|
  }

  // The difference is compared with an unsigned 32-bit number, so it is converted to one.
  function Room(s: Sender): word32 {
    Wrap32(CAPACITY - Length(s))
  }

  predicate NoRoom(s: Sender, n: nat) {
    s.client != 0 && Room(s) < Wrap32(n + HEADER_SIZE) && s.held != []
  }

  predicate NewStamp(s: Sender, stamp: word32) {
    s.client != 0 && s.stamp != NO_STAMP && s.stamp != stamp && s.held != []
  }

  function Append(s: Sender, p: Packet, stamp: word32): Sender {
    s.(held := s.held + [p], stamp := stamp, counter := stamp)
  }

  // Gives the whole buffer to the network library, then appends the packet unless the
  // write failed. A failed write stops the session and gives up the handle.
  function FlushThenAppend(s: Sender, p: Packet, stamp: word32, answer: int): Outcome {
    var events := [Wrote(s.client, s.held, answer)];
    if answer == 0 then
      Outcome(Append(s.(held := []), p, stamp), events, [p], 0)
    else
      Outcome(s.(running := false, client := 0), events, [], answer)
  }

  // One call of sendMS. The answer is what the network library would say to a write.
  function Push(s: Sender, p: Packet, t: Stamp, answer: int): Outcome {
    var stamp := StampOf(s, t);
    if !s.running then
      Outcome(s, [], [], 0)
    else if NoRoom(s, |p.payload|) then
      FlushThenAppend(s, p, stamp, answer)
    else if NewStamp(s, stamp) then
      FlushThenAppend(s.(counter := stamp), p, stamp, answer)
    else
      Outcome(Append(s, p, stamp), [], [p], 0)
  }

  // Everything that can happen to a sender: a packet, a start or stop, a new handle.
  datatype Op = Send(packet: Packet, stamp: Stamp, answer: int) | Switch(on: bool) | Attach(handle: nat)

  function Apply(s: Sender, op: Op): Outcome {
    match op
    case Send(p, t, answer) => Push(s, p, t, answer)
    case Switch(on) => Outcome(s.(running := on), [], [], 0)
    case Attach(handle) => Outcome(s.(client := handle), [], [], 0)
  }

  function Run(s: Sender, ops: seq<Op>): Outcome
    decreases |ops|
  {
    if ops == [] then
      Outcome(s, [], [], 0)
    else
      var before := Run(s, ops[..|ops| - 1]);
      var last := Apply(before.after, ops[|ops| - 1]);
      Outcome(last.after, before.events + last.events, before.accepted + last.accepted, last.result)
  }

  ghost predicate OnlySends(ops: seq<Op>) {
    forall i :: 0 <= i < |ops| ==> ops[i].Send?
  }

  // Only packets, and every write succeeds.
  ghost predicate AllWell(ops: seq<Op>) {
    forall i :: 0 <= i < |ops| ==> ops[i].Send? && ops[i].answer == 0
  }

  function Packets(ops: seq<Op>): (ps: seq<Packet>)
    requires OnlySends(ops)
    ensures |ps| == |ops| && forall i :: 0 <= i < |ops| ==> ps[i] == ops[i].packet
  {
    seq(|ops|, i requires 0 <= i < |ops| => ops[i].packet)
  }

  // ---------- conservation ----------

  // Over every run, with any stamps, failures, stops, restarts and reconnections:
  // delivered packets followed by held packets are the packets held at first followed by
  // the accepted ones. Nothing is lost, duplicated, reordered or split.
  lemma {:induction false} Conservation(s: Sender, ops: seq<Op>)
    ensures var r := Run(s, ops); Delivered(r.events) + r.after.held == s.held + r.accepted
    decreases |ops|
  {
    if ops != [] {
      var before := Run(s, ops[..|ops| - 1]);
      var last := Apply(before.after, ops[|ops| - 1]);
      Conservation(s, ops[..|ops| - 1]);
      DeliveredAppend(before.events, last.events);
      OneCallConserves(before.after, ops[|ops| - 1]);
      Reassociate(Delivered(before.events), Delivered(last.events), last.after.held,
                  before.after.held, last.accepted, s.held, before.accepted);
    }
  }

  lemma Reassociate(a: Batch, b: Batch, c: Batch, d: Batch, e: Batch, f: Batch, g: Batch)
    requires b + c == d + e && a + d == f + g
    ensures a + b + c == f + (g + e)
  {
    assert a + b + c == a + (b + c) == a + d + e == f + g + e == f + (g + e);
  }

  // The result of a call: 0 unless its write failed, and then what the write answered.
  // So 0 means that the packet was accepted, or that the sender was stopped already and
  // dropped it unseen.
  lemma ResultTells(s: Sender, p: Packet, t: Stamp, answer: int)
    ensures var r := Push(s, p, t, answer);
            && (r.result == 0 <==> r.accepted == [p] || !s.running)
            && (r.result != 0 <==> s.running && !r.after.running)
            && (r.result != 0 ==> r.result == answer && r.events == [Wrote(s.client, s.held, answer)])
  {
  }

  lemma OneCallConserves(s: Sender, op: Op)
    ensures var r := Apply(s, op); Delivered(r.events) + r.after.held == s.held + r.accepted
  {
    var r := Apply(s, op);
    if |r.events| == 1 {
      assert r.events[..0] == [];
    }
  }

  // The buffer refines sending every frame straight to the wire: with successful writes
  // the bytes on the wire followed by the bytes in the buffer are the frames held at
  // first followed by those of all the packets, in order.
  lemma RefinesDirectSending(s: Sender, ops: seq<Op>)
    requires s.running && AllWell(ops)
    ensures Run(s, ops).accepted == Packets(ops)
    ensures Delivered(AllOnWire(Run(s, ops).events)) + Frames(Run(s, ops).after.held)
         == Frames(s.held) + Frames(Packets(ops))
  {
    var r := Run(s, ops);
    AllAccepted(s, ops);
    Conservation(s, ops);
    WireIsFrames(r.events);
    FramesAppend(Delivered(r.events), r.after.held);
    FramesAppend(s.held, Packets(ops));
  }

  lemma {:induction false} AllAccepted(s: Sender, ops: seq<Op>)
    requires s.running && AllWell(ops)
    ensures Run(s, ops).after.running && Run(s, ops).after.client == s.client
    ensures Run(s, ops).accepted == Packets(ops)
    decreases |ops|
  {
    if ops != [] {
      AllAccepted(s, ops[..|ops| - 1]);
      assert Packets(ops) == Packets(ops[..|ops| - 1]) + [ops[|ops| - 1].packet];
    }
  }

  // ---------- the receiver's view ----------

  // With successful writes: in whatever reads the bytes on the wire arrive, the receiver
  // is in step, has a prefix of the packets and has nothing pending; the bytes still in
  // the buffer then complete them all.
  lemma ReceiverGetsAll(s: Sender, ops: seq<Op>, wire: seq<seq<byte>>, buffer: seq<seq<byte>>)
    requires s.running && AllWell(ops) && Encodable(s.held + Packets(ops))
    requires Joined(wire) == Delivered(AllOnWire(Run(s, ops).events))
    requires Joined(buffer) == Frames(Run(s, ops).after.held)
    ensures Delivered(Run(s, ops).events) + Run(s, ops).after.held == s.held + Packets(ops)
    ensures FeedAll(NEW_RECEIVER, wire) == Receiver(Delivered(Run(s, ops).events), [], true)
    ensures FeedAll(FeedAll(NEW_RECEIVER, wire), buffer) == Receiver(s.held + Packets(ops), [], true)
  {
    var r := Run(s, ops);
    AllAccepted(s, ops);
    Conservation(s, ops);
    WireIsFrames(r.events);
    WholeFramesArrived(Delivered(r.events), r.after.held, wire, buffer);
  }

  // Every packet fits an empty buffer, so its length fits the header.
  ghost predicate Legal(op: Op) {
    op.Send? ==> HEADER_SIZE + |op.packet.payload| <= CAPACITY
  }

  // On every single connection, over every run with failures, stops and reconnections:
  // what was written there is a sequence of whole frames, so its receiver, in whatever
  // reads, is in step and gets exactly the packets of the successful writes on it.
  lemma EachConnectionInStep(s: Sender, ops: seq<Op>, h: nat, chunks: seq<seq<byte>>)
    requires Encodable(s.held) && forall i :: 0 <= i < |ops| ==> Legal(ops[i])
    requires Joined(chunks) == Delivered(AllOnWire(OnHandle(Run(s, ops).events, h)))
    ensures FeedAll(NEW_RECEIVER, chunks) == Receiver(Delivered(OnHandle(Run(s, ops).events, h)), [], true)
  {
    var es := OnHandle(Run(s, ops).events, h);
    WireIsFrames(es);
    DeliveredIsEncodable(s, ops, h);
    DeframeFrames(Delivered(es));
    ChunkingIsInvisible(chunks, []);
    assert [] + Joined(chunks) == Joined(chunks);
  }

  lemma DeliveredIsEncodable(s: Sender, ops: seq<Op>, h: nat)
    requires Encodable(s.held) && forall i :: 0 <= i < |ops| ==> Legal(ops[i])
    ensures Encodable(Delivered(OnHandle(Run(s, ops).events, h)))
  {
    var r := Run(s, ops);
    Conservation(s, ops);
    AcceptedIsEncodable(s, ops);
    assert Encodable(s.held + r.accepted);
    EncodableParts(Delivered(r.events), r.after.held);
    HandleShare(r.events, h);
    var ps := Delivered(OnHandle(r.events, h));
    assert forall i :: 0 <= i < |ps| ==> ps[i] in Delivered(r.events);
  }

  lemma {:induction false} AcceptedIsEncodable(s: Sender, ops: seq<Op>)
    requires forall i :: 0 <= i < |ops| ==> Legal(ops[i])
    ensures Encodable(Run(s, ops).accepted)
    decreases |ops|
  {
    if ops != [] {
      AcceptedIsEncodable(s, ops[..|ops| - 1]);
      assert Legal(ops[|ops| - 1]);
    }
  }

  // ---------- one call, in plain numbers ----------

  // The next time stamp: one more, in 32 bits, where the code counts packets.
  function NextStamp(s: Sender, t: Stamp): int {
    match t
    case Counted => (s.counter + 1) % 0x1_0000_0000
    case Given(value) => value
  }

  // The call writes first: on a connection with something held, if the frame does not fit
  // beside that into 64 KiB, or if the stamp is a new one and the last was not the sentinel.
  predicate Flushes(s: Sender, n: nat, t: Stamp) {
    && s.client != 0 && s.held != []
    && (|Frames(s.held)| + 4 + n > 65536 || (s.stamp != 0xEFEF_EFEF && s.stamp != NextStamp(s, t)))
  }

  // What a call of a running sender does on a buffer that is not overfull.
  lemma CallOfRunning(s: Sender, p: Packet, t: Stamp, answer: int)
    requires s.running && |Frames(s.held)| <= 65536 && 4 + |p.payload| < 0x1_0000_0000
    ensures var r, flushes := Push(s, p, t, answer), Flushes(s, |p.payload|, t);
            && r.events == (if flushes then [Wrote(s.client, s.held, answer)] else [])
            && if flushes && answer != 0 then
                 && r.result == answer && r.accepted == [] && r.after.held == s.held
                 && !r.after.running && r.after.client == 0
               else
                 && r.result == 0 && r.accepted == [p]
                 && r.after == Sender(true, s.client, if flushes then [p] else s.held + [p],
                                      NextStamp(s, t), NextStamp(s, t))
  {
    RoomInNumbers(s, |p.payload|);
  }

  lemma RoomInNumbers(s: Sender, n: nat)
    requires |Frames(s.held)| <= 65536 && 4 + n < 0x1_0000_0000
    ensures NoRoom(s, n) <==> s.client != 0 && s.held != [] && |Frames(s.held)| + 4 + n > 65536
  {
    Wrap32Near(CAPACITY - Length(s));
    Wrap32Near(n + HEADER_SIZE);
  }

  // ---------- room in the buffer ----------

  // Whether the store of this packet, if the call comes to it, stays inside the buffer.
  predicate Fits(s: Sender, n: nat, t: Stamp, answer: int) {
    s.running ==>
      if NoRoom(s, n) || NewStamp(s, StampOf(s, t)) then answer == 0 ==> n + HEADER_SIZE <= CAPACITY
      else Length(s) + n + HEADER_SIZE <= CAPACITY
  }

  // A call on a legal buffer leaves a legal buffer if and only if its packet fits.
  lemma LegalAfterIff(s: Sender, p: Packet, t: Stamp, answer: int)
    requires Length(s) <= CAPACITY
    ensures Length(Push(s, p, t, answer).after) <= CAPACITY <==> Fits(s, |p.payload|, t, answer)
  {
    FramesSnoc(s.held, p);
    FramesSnoc([], p);
    assert [] + [p] == [p];
  }

  // Unless a failed write keeps the call from storing, a packet fits if and only if its
  // frame fits an empty buffer, with a connection, or beside what is held, without one.
  lemma FitsIff(s: Sender, n: nat, t: Stamp)
    requires s.running && Length(s) <= CAPACITY
    ensures Fits(s, n, t, 0) <==>
            if s.client != 0 then n + HEADER_SIZE <= CAPACITY else Length(s) + n + HEADER_SIZE <= CAPACITY
    ensures forall answer :: Fits(s, n, t, 0) ==> Fits(s, n, t, answer)
  {
    if s.held == [] {
      assert Length(s) == 0;
    }
  }

  // Running only with a connection, over every moment of the run.
  ghost predicate AlwaysConnected(s: Sender, ops: seq<Op>) {
    forall m :: 0 <= m <= |ops| ==> var now := Run(s, ops[..m]).after; now.running ==> now.client != 0
  }

  // Every packet of the run fits at its time.
  ghost predicate AlwaysFits(s: Sender, ops: seq<Op>) {
    forall m :: 0 <= m < |ops| && ops[m].Send? ==>
      Fits(Run(s, ops[..m]).after, |ops[m].packet.payload|, ops[m].stamp, ops[m].answer)
  }

  // With packets of at most 65532 bytes and a connection whenever running, the buffer is
  // never overrun: every store is in range at its time and the length stays legal, over
  // every run with failures, stops and restarts.
  lemma {:induction false} BufferBounds(s: Sender, ops: seq<Op>)
    requires Length(s) <= CAPACITY && AlwaysConnected(s, ops)
    requires forall i :: 0 <= i < |ops| ==> Legal(ops[i])
    ensures Length(Run(s, ops).after) <= CAPACITY && AlwaysFits(s, ops)
    decreases |ops|
  {
    if ops != [] {
      var before, last := ops[..|ops| - 1], ops[|ops| - 1];
      ConnectedBefore(s, ops);
      BufferBounds(s, before);
      AlwaysFitsSnoc(s, ops);
      assert Legal(last);
      LegalKeepsBounds(Run(s, before).after, last);
    }
  }

  lemma ConnectedBefore(s: Sender, ops: seq<Op>)
    requires AlwaysConnected(s, ops) && ops != []
    ensures AlwaysConnected(s, ops[..|ops| - 1])
    ensures var now := Run(s, ops[..|ops| - 1]).after; now.running ==> now.client != 0
  {
    var before := ops[..|ops| - 1];
    assert forall m :: 0 <= m <= |before| ==> before[..m] == ops[..m];
  }

  lemma LegalKeepsBounds(now: Sender, op: Op)
    requires Length(now) <= CAPACITY && (now.running ==> now.client != 0) && Legal(op)
    ensures Length(Apply(now, op).after) <= CAPACITY
    ensures op.Send? ==> Fits(now, |op.packet.payload|, op.stamp, op.answer)
  {
    if op.Send? {
      if now.running {
        FitsIff(now, |op.packet.payload|, op.stamp);
      }
      LegalAfterIff(now, op.packet, op.stamp, op.answer);
    }
  }

  // At no moment of the run is the buffer overfull.
  ghost predicate StaysInBuffer(s: Sender, ops: seq<Op>)
    decreases |ops|
  {
    Length(Run(s, ops).after) <= CAPACITY && (ops == [] || StaysInBuffer(s, ops[..|ops| - 1]))
  }

  lemma {:induction false} StaysAtEveryMoment(s: Sender, ops: seq<Op>, m: nat)
    requires StaysInBuffer(s, ops) && m <= |ops|
    ensures Length(Run(s, ops[..m]).after) <= CAPACITY
    decreases |ops|
  {
    if m < |ops| {
      assert ops[..|ops| - 1][..m] == ops[..m];
      StaysAtEveryMoment(s, ops[..|ops| - 1], m);
    } else {
      assert ops[..m] == ops;
    }
  }

  // Exactly when a run stays inside the buffer, with any failures, stops and connections:
  // when each packet fits at its time.
  lemma {:induction false} StaysInBufferIff(s: Sender, ops: seq<Op>)
    requires Length(s) <= CAPACITY
    ensures StaysInBuffer(s, ops) <==> AlwaysFits(s, ops)
    decreases |ops|
  {
    if ops != [] {
      var before, last := ops[..|ops| - 1], ops[|ops| - 1];
      StaysInBufferIff(s, before);
      AlwaysFitsSnoc(s, ops);
      if StaysInBuffer(s, before) && last.Send? {
        LegalAfterIff(Run(s, before).after, last.packet, last.stamp, last.answer);
      }
    }
  }

  lemma AlwaysFitsSnoc(s: Sender, ops: seq<Op>)
    requires ops != []
    ensures var before, last := ops[..|ops| - 1], ops[|ops| - 1];
            AlwaysFits(s, ops) <==>
            AlwaysFits(s, before) &&
            (last.Send? ==> Fits(Run(s, before).after, |last.packet.payload|, last.stamp, last.answer))
  {
    var before := ops[..|ops| - 1];
    assert forall m :: 0 <= m <= |before| ==> before[..m] == ops[..m];
  }

  // With successful writes the condition is one on the packets alone. With a connection: each
  // frame fits an empty buffer.
  lemma {:induction false} ConnectedRunStaysIff(s: Sender, ops: seq<Op>)
    requires s.running && s.client != 0 && Length(s) <= CAPACITY && AllWell(ops)
    ensures StaysInBuffer(s, ops) <==> forall i :: 0 <= i < |ops| ==> Legal(ops[i])
    decreases |ops|
  {
    if ops != [] {
      var before, last := ops[..|ops| - 1], ops[|ops| - 1];
      ConnectedRunStaysIff(s, before);
      AllAccepted(s, before);
      if StaysInBuffer(s, before) {
        FitsIff(Run(s, before).after, |last.packet.payload|, last.stamp);
        LegalAfterIff(Run(s, before).after, last.packet, last.stamp, 0);
      }
      assert forall i :: 0 <= i < |ops| ==> ops[i] == if i < |before| then before[i] else last;
    }
  }

  // Without a connection nothing is ever flushed.
  lemma {:induction false} UnconnectedNeverFlushes(s: Sender, ops: seq<Op>)
    requires s.running && s.client == 0 && AllWell(ops)
    ensures Run(s, ops).after.held == s.held + Packets(ops)
    decreases |ops|
  {
    if ops != [] {
      var before, last := ops[..|ops| - 1], ops[|ops| - 1];
      UnconnectedNeverFlushes(s, before);
      AllAccepted(s, before);
      assert Packets(ops) == Packets(before) + [last.packet];
    }
  }

  // So there the run stays inside exactly when all the frames together fit beside what is
  // held already.
  lemma {:induction false} UnconnectedRunStaysIff(s: Sender, ops: seq<Op>)
    requires s.running && s.client == 0 && Length(s) <= CAPACITY && AllWell(ops)
    ensures StaysInBuffer(s, ops) <==> Length(s) + |Frames(Packets(ops))| <= CAPACITY
    decreases |ops|
  {
    UnconnectedNeverFlushes(s, ops);
    FramesAppend(s.held, Packets(ops));
    if ops != [] {
      var before := ops[..|ops| - 1];
      UnconnectedRunStaysIff(s, before);
      assert Packets(ops) == Packets(before) + [ops[|ops| - 1].packet];
      FramesSnoc(Packets(before), ops[|ops| - 1].packet);
    }
  }

  // ---------- failure ----------

  ghost predicate NoFailure(es: seq<Event<Batch>>) {
    forall i :: 0 <= i < |es| ==> es[i].Connected? || es[i].answer == 0
  }

  // The last event is a failed write of the given packets, the only failure.
  ghost predicate EndsInFailure(es: seq<Event<Batch>>, client: nat, held: Batch) {
    && es != []
    && es[|es| - 1].Wrote? && es[|es| - 1].handle == client
    && es[|es| - 1].data == held && es[|es| - 1].answer != 0
    && NoFailure(es[..|es| - 1])
  }

  ghost predicate SameOutcome(r: Outcome, q: Outcome) {
    r.after == q.after && r.events == q.events && r.accepted == q.accepted
  }

  // What a run of packets looks like at every moment.
  ghost predicate Shape(s: Sender, ops: seq<Op>, r: Outcome)
    requires OnlySends(ops)
  {
    && |r.accepted| <= |ops| && r.accepted == Packets(ops)[..|r.accepted|]
    && if r.after.running then
         |r.accepted| == |ops| && r.after.client == s.client && NoFailure(r.events)
       else
         |r.accepted| < |ops| && r.after.client == 0 && EndsInFailure(r.events, s.client, r.after.held)
  }

  lemma {:induction false} RunHasShape(s: Sender, ops: seq<Op>)
    requires s.running && s.client != 0 && OnlySends(ops)
    ensures Shape(s, ops, Run(s, ops))
    decreases |ops|
  {
    if ops != [] {
      var before, last := ops[..|ops| - 1], ops[|ops| - 1];
      RunHasShape(s, before);
      assert Packets(ops) == Packets(before) + [last.packet];
      ShapeGrows(s, before, Run(s, before), last);
      assert before + [last] == ops;
    }
  }

  lemma ShapeGrows(s: Sender, before: seq<Op>, r: Outcome, last: Op)
    requires OnlySends(before) && last.Send? && s.client != 0 && Shape(s, before, r)
    ensures OnlySends(before + [last])
    ensures var x := Apply(r.after, last);
            Shape(s, before + [last], Outcome(x.after, r.events + x.events, r.accepted + x.accepted, x.result))
  {
    var x := Apply(r.after, last);
    assert Packets(before + [last]) == Packets(before) + [last.packet];
    assert (r.events + x.events)[..|r.events|] == r.events;
    if x.events == [] {
      assert r.events + x.events == r.events;
      assert r.accepted + [] == r.accepted;
    }
  }

  // One outcome after the other.
  function Then(r: Outcome, q: Outcome): Outcome {
    Outcome(q.after, r.events + q.events, r.accepted + q.accepted, q.result)
  }

  lemma ThenAssociates(whole: Outcome, r: Outcome, q: Outcome, x: Outcome)
    requires SameOutcome(whole, Then(r, q))
    ensures SameOutcome(Then(whole, x), Then(r, Then(q, x)))
  {
    assert r.events + q.events + x.events == r.events + (q.events + x.events);
    assert r.accepted + q.accepted + x.accepted == r.accepted + (q.accepted + x.accepted);
  }

  lemma RunSnoc(s: Sender, ops: seq<Op>, op: Op)
    ensures Run(s, ops + [op]) == Then(Run(s, ops), Apply(Run(s, ops).after, op))
  {
    assert (ops + [op])[..|ops|] == ops;
  }

  // A run in two parts.
  lemma {:induction false} RunAppend(s: Sender, ops: seq<Op>, later: seq<Op>)
    ensures SameOutcome(Run(s, ops + later), Then(Run(s, ops), Run(Run(s, ops).after, later)))
    decreases |later|
  {
    var r := Run(s, ops);
    if later == [] {
      assert ops + later == ops;
    } else {
      var before, op := later[..|later| - 1], later[|later| - 1];
      RunAppend(s, ops, before);
      RunSnoc(s, ops + before, op);
      assert ops + later == ops + before + [op];
      var q := Run(r.after, before);
      ThenAssociates(Run(s, ops + before), r, q, Apply(q.after, op));
    }
  }

  ghost predicate NeverSwitchedOn(ops: seq<Op>) {
    forall i :: 0 <= i < |ops| ==> ops[i] != Switch(true)
  }

  // A stopped sender, until it is started again: whatever packets, stops and new handles
  // come, nothing is written, nothing accepted, and only the handle can change.
  lemma {:induction false} StoppedIsSilent(s: Sender, ops: seq<Op>)
    requires !s.running && NeverSwitchedOn(ops)
    ensures var r := Run(s, ops); r.events == [] && r.accepted == [] && r.after == s.(client := r.after.client)
    decreases |ops|
  {
    if ops != [] {
      StoppedIsSilent(s, ops[..|ops| - 1]);
    }
  }

  // The same in the course of a run.
  lemma StoppedStays(s: Sender, ops: seq<Op>, later: seq<Op>)
    requires !Run(s, ops).after.running && NeverSwitchedOn(later)
    ensures var r, q := Run(s, ops), Run(s, ops + later);
            q.events == r.events && q.accepted == r.accepted && q.after == r.after.(client := q.after.client)
  {
    var r := Run(s, ops);
    StoppedIsSilent(r.after, later);
    RunAppend(s, ops, later);
    assert r.events + [] == r.events && r.accepted + [] == r.accepted;
  }

  // Wherever in a run with stops, restarts and reconnections a write fails: it offered all
  // that was held, which is held still, so what is not delivered is that and the packet of
  // the call; and nothing is written or accepted until the sender is started again.
  lemma FailedCallStops(s: Sender, ops: seq<Op>, op: Op, later: seq<Op>)
    requires op.Send? && Apply(Run(s, ops).after, op).result != 0 && NeverSwitchedOn(later)
    ensures var r, q := Run(s, ops), Run(s, ops + [op] + later);
            && !q.after.running && q.after.held == r.after.held && q.accepted == r.accepted
            && q.events == r.events + [Wrote(r.after.client, r.after.held, op.answer)] && op.answer != 0
            && Delivered(q.events) + (q.after.held + [op.packet]) == s.held + r.accepted + [op.packet]
  {
    var r, f := Run(s, ops), Run(s, ops + [op]);
    var x := Apply(r.after, op);
    ResultTells(r.after, op.packet, op.stamp, op.answer);
    assert (ops + [op])[..|ops|] == ops;
    assert r.accepted + [] == r.accepted;
    StoppedStays(s, ops + [op], later);
    Conservation(s, ops + [op]);
    Regroup(Delivered(f.events), f.after.held, s.held + r.accepted, op.packet);
  }

  lemma Regroup(delivered: Batch, held: Batch, all: Batch, p: Packet)
    requires delivered + held == all
    ensures delivered + (held + [p]) == all + [p]
  {
    assert delivered + (held + [p]) == delivered + held + [p];
  }

  // A failed write stops everything at a frame boundary. The accepted packets are the
  // first ones; while running nothing has failed and all are accepted; once stopped, the
  // last write is the failed one, it offered exactly the held packets and every earlier
  // one succeeded, so what is not delivered is what is held plus the packet whose call
  // failed; no later call writes or changes anything, and nothing else does before the
  // sender is started again.
  lemma FailStop(s: Sender, ops: seq<Op>, later: seq<Op>)
    requires s.running && s.client != 0 && OnlySends(ops) && NeverSwitchedOn(later)
    ensures Shape(s, ops, Run(s, ops))
    ensures Delivered(Run(s, ops).events) + Run(s, ops).after.held == s.held + Run(s, ops).accepted
    ensures var r, k := Run(s, ops), |Run(s, ops).accepted|;
            !r.after.running ==>
              && Delivered(r.events) + (r.after.held + [ops[k].packet]) == s.held + Packets(ops)[..k + 1]
              && SameOutcome(Run(s, ops[..k + 1]), r)
    ensures var r, q := Run(s, ops), Run(s, ops + later);
            !r.after.running ==>
              q.events == r.events && q.accepted == r.accepted && q.after == r.after.(client := q.after.client)
  {
    var r, k := Run(s, ops), |Run(s, ops).accepted|;
    Conservation(s, ops);
    RunHasShape(s, ops);
    if !r.after.running {
      WithTheRefused(Delivered(r.events), r.after.held, s.held, Packets(ops), k);
      NothingAfterRefusal(s, ops, k);
      StoppedStays(s, ops, later);
    }
  }

  lemma NothingAfterRefusal(s: Sender, ops: seq<Op>, k: nat)
    requires s.running && s.client != 0 && OnlySends(ops)
    requires k < |ops| && |Run(s, ops).accepted| <= k
    ensures SameOutcome(Run(s, ops[..k + 1]), Run(s, ops))
  {
    AcceptedGrows(s, ops, k + 1);
    NothingAfterShort(s, ops[..k + 1], ops[k + 1..]);
    assert ops[..k + 1] + ops[k + 1..] == ops;
  }

  // The run was stopped by the very call whose packet was not accepted.
  lemma NothingAfterShort(s: Sender, ops: seq<Op>, later: seq<Op>)
    requires s.running && s.client != 0 && OnlySends(ops) && OnlySends(later)
    requires |Run(s, ops).accepted| < |ops|
    ensures SameOutcome(Run(s, ops), Run(s, ops + later))
  {
    RunHasShape(s, ops);
    StoppedStays(s, ops, later);
    SendsKeepClient(Run(s, ops).after, later);
    RunAppend(s, ops, later);
  }

  lemma {:induction false} SendsKeepClient(s: Sender, ops: seq<Op>)
    requires !s.running && OnlySends(ops)
    ensures Run(s, ops).after == s
    decreases |ops|
  {
    if ops != [] {
      SendsKeepClient(s, ops[..|ops| - 1]);
    }
  }

  lemma WithTheRefused(delivered: Batch, held: Batch, first: Batch, ps: seq<Packet>, k: nat)
    requires k < |ps| && delivered + held == first + ps[..k]
    ensures delivered + (held + [ps[k]]) == first + ps[..k + 1]
  {
    assert ps[..k + 1] == ps[..k] + [ps[k]];
    assert delivered + (held + [ps[k]]) == delivered + held + [ps[k]];
  }

  lemma {:induction false} AcceptedGrows(s: Sender, ops: seq<Op>, m: nat)
    requires m <= |ops|
    ensures |Run(s, ops[..m]).accepted| <= |Run(s, ops).accepted|
    decreases |ops|
  {
    if m < |ops| {
      assert ops[..|ops| - 1][..m] == ops[..m];
      AcceptedGrows(s, ops[..|ops| - 1], m);
    } else {
      assert ops[..m] == ops;
    }
  }

  // ---------- batching ----------

  // The code's own stamps, on packets that fit the buffer, with successful writes.
  ghost predicate CountedRun(ops: seq<Op>) {
    AllWell(ops) && forall i :: 0 <= i < |ops| ==> ops[i].stamp == Counted && Legal(ops[i])
  }

  // The counter was at the "no stamp" mark when the last packet came, so that packet did
  // not cause a flush, and there was room for its frame beside the one before.
  predicate Paired(counter: word32, ps: seq<Packet>) {
    && |ps| >= 2
    && (counter + |ps| - 1) % TWO_TO_32 == NO_STAMP
    && PairFits(ps[|ps| - 2], ps[|ps| - 1])
  }

  // The packets that are still in the buffer after these have been sent.
  function Waiting(counter: word32, ps: seq<Packet>): Batch {
    if ps == [] then []
    else if Paired(counter, ps) then ps[|ps| - 2..]
    else ps[|ps| - 1..]
  }

  ghost predicate OneOrTwo(es: seq<Event<Batch>>, client: nat) {
    forall i :: 0 <= i < |es| ==>
      es[i].Wrote? && es[i].handle == client && es[i].answer == 0 && 1 <= |es[i].data| <= 2
  }

  lemma CounterSteps(counter: word32, k: nat)
    ensures Increment32((counter + k) % TWO_TO_32) == (counter + (k + 1)) % TWO_TO_32
    ensures (counter + k) % TWO_TO_32 != (counter + (k + 1)) % TWO_TO_32
  {
  }

  // What a running sender looks like after these packets.
  ghost predicate Steady(s: Sender, ps: seq<Packet>, now: Sender) {
    && now.running && now.client == s.client
    && now.held == Waiting(s.counter, ps)
    && now.counter == (s.counter + |ps|) % TWO_TO_32
    && (ps != [] ==> now.stamp == now.counter)
  }

  // The last of the packets, if any, fits an empty buffer.
  predicate LastFits(ps: seq<Packet>) {
    ps != [] ==> |Frame(ps[|ps| - 1])| <= CAPACITY
  }

  lemma CountedLastFits(ops: seq<Op>)
    requires CountedRun(ops)
    ensures LastFits(Packets(ops))
  {
    if ops != [] {
      assert Legal(ops[|ops| - 1]);
    }
  }

  // One more packet.
  lemma NextHeld(s: Sender, ps: seq<Packet>, now: Sender, op: Op)
    requires Steady(s, ps, now) && s.client != 0 && LastFits(ps)
    requires op.Send? && op.stamp == Counted && op.answer == 0 && Legal(op)
    ensures Steady(s, ps + [op.packet], Apply(now, op).after)
    ensures OneOrTwo(Apply(now, op).events, s.client)
  {
    CounterSteps(s.counter, |ps|);
    PushCounts(now, op.packet);
    NextWaiting(s, ps, now, op.packet);
    PushWrites(now, op.packet);
  }

  lemma PushCounts(now: Sender, p: Packet)
    requires now.running
    ensures var r := Push(now, p, Counted, 0);
            && r.after.running && r.after.client == now.client
            && r.after.stamp == r.after.counter == Increment32(now.counter)
  {
  }

  lemma PushWrites(now: Sender, p: Packet)
    requires now.running && |now.held| <= 2
    ensures OneOrTwo(Push(now, p, Counted, 0).events, now.client)
  {
  }

  lemma NextWaiting(s: Sender, ps: seq<Packet>, now: Sender, p: Packet)
    requires Steady(s, ps, now) && s.client != 0 && LastFits(ps) && HEADER_SIZE + |p.payload| <= CAPACITY
    ensures Push(now, p, Counted, 0).after.held == Waiting(s.counter, ps + [p])
  {
    if ps == [] {
      assert ps + [p] == [p];
    } else {
      CounterSteps(s.counter, |ps|);
      CounterSteps(s.counter, |ps| - 1);
      if Paired(s.counter, ps) {
        NextToTwo(s.counter, ps, now, p);
      } else {
        NextToOne(s.counter, ps, now, p);
      }
    }
  }

  // Two packets are held: the next one flushes them.
  lemma NextToTwo(counter: word32, ps: seq<Packet>, now: Sender, p: Packet)
    requires Paired(counter, ps) && now.running && now.client != 0 && now.held == ps[|ps| - 2..]
    requires now.counter == now.stamp == (counter + |ps|) % TWO_TO_32
    requires now.stamp != NO_STAMP && StampOf(now, Counted) != now.stamp
    ensures Push(now, p, Counted, 0).after.held == Waiting(counter, ps + [p])
  {
    OneMoreWaiting(counter, ps, p);
  }

  // One packet is held: the next one flushes it unless the two become a pair.
  lemma NextToOne(counter: word32, ps: seq<Packet>, now: Sender, p: Packet)
    requires ps != [] && now.running && now.client != 0 && now.held == ps[|ps| - 1..]
    requires LastFits(ps) && HEADER_SIZE + |p.payload| <= CAPACITY
    requires now.counter == now.stamp == (counter + |ps|) % TWO_TO_32
    requires StampOf(now, Counted) != now.stamp
    ensures Push(now, p, Counted, 0).after.held == Waiting(counter, ps + [p])
  {
    LastOne(ps);
    PushOnOne(now, ps[|ps| - 1], p);
    OneMoreWaiting(counter, ps, p);
  }

  lemma LastOne(ps: seq<Packet>)
    requires ps != []
    ensures ps[|ps| - 1..] == [ps[|ps| - 1]]
  {
  }

  lemma LastTwo(ps: seq<Packet>)
    ensures |ps| >= 2 ==> ps[|ps| - 2..] == [ps[|ps| - 2], ps[|ps| - 1]]
  {
  }

  // A pair fits together.
  predicate PairFits(q: Packet, p: Packet) {
    |Frame(q)| + |Frame(p)| <= CAPACITY
  }

  lemma OneMoreWaiting(counter: word32, ps: seq<Packet>, p: Packet)
    requires ps != []
    ensures Waiting(counter, ps + [p]) ==
              if (counter + |ps|) % TWO_TO_32 == NO_STAMP && PairFits(ps[|ps| - 1], p)
              then [ps[|ps| - 1], p] else [p]
  {
    LastOne(ps + [p]);
    LastTwo(ps + [p]);
  }

  lemma PushOnOne(now: Sender, q: Packet, p: Packet)
    requires now.running && now.client != 0 && now.held == [q]
    requires |Frame(q)| <= CAPACITY && HEADER_SIZE + |p.payload| <= CAPACITY
    requires now.stamp == now.counter && StampOf(now, Counted) != now.stamp
    ensures Push(now, p, Counted, 0).after.held == if now.stamp == NO_STAMP && PairFits(q, p) then [q, p] else [p]
  {
    RoomBesideOne(now, q, p);
    assert [] + [p] == [p] && [q] + [p] == [q, p];
  }

  lemma RoomBesideOne(now: Sender, q: Packet, p: Packet)
    requires now.client != 0 && now.held == [q]
    requires |Frame(q)| <= CAPACITY && HEADER_SIZE + |p.payload| <= CAPACITY
    ensures NoRoom(now, |p.payload|) <==> !PairFits(q, p)
  {
    LengthOfOne(now, q);
    Wrap32Near(|p.payload| + HEADER_SIZE);
    Wrap32Near(CAPACITY - Length(now));
  }

  lemma LengthOfOne(now: Sender, q: Packet)
    requires now.held == [q]
    ensures Length(now) == |Frame(q)|
  {
    assert [q] == [] + [q];
    FramesSnoc([], q);
  }

  lemma OneOrTwoAppend(es: seq<Event<Batch>>, fs: seq<Event<Batch>>, client: nat)
    requires OneOrTwo(es, client) && OneOrTwo(fs, client)
    ensures OneOrTwo(es + fs, client)
  {
  }

  // Bounded lag: from an empty buffer, after k packets the buffer holds exactly the last
  // one, except when the counter was at the "no stamp" mark one packet ago and both
  // frames fit, when it holds the last two. Every write carries one or two whole frames.
  lemma {:induction false} ExactBatching(s: Sender, ops: seq<Op>)
    requires s.running && s.client != 0 && s.held == [] && CountedRun(ops)
    ensures Steady(s, Packets(ops), Run(s, ops).after)
    ensures OneOrTwo(Run(s, ops).events, s.client)
    decreases |ops|
  {
    if ops != [] {
      var before, last := ops[..|ops| - 1], ops[|ops| - 1];
      assert CountedRun(before);
      ExactBatching(s, before);
      assert Packets(ops) == Packets(before) + [last.packet];
      var r := Run(s, before);
      CountedLastFits(before);
      NextHeld(s, Packets(before), r.after, last);
      OneOrTwoAppend(r.events, Apply(r.after, last).events, s.client);
    }
  }

  // Whatever was held, and whatever its stamp: from the third packet on the buffer holds
  // what it would hold if it had been empty at first.
  lemma {:induction false} BatchingSettles(s: Sender, ops: seq<Op>)
    requires s.running && s.client != 0 && Length(s) <= CAPACITY && CountedRun(ops) && |ops| >= 3
    ensures Steady(s, Packets(ops), Run(s, ops).after)
    decreases |ops|
  {
    var before, last := ops[..|ops| - 1], ops[|ops| - 1];
    assert CountedRun(before);
    assert Packets(ops) == Packets(before) + [last.packet];
    if |ops| == 3 {
      AfterTwo(s, before);
      ThirdPacket(s, Packets(before), Run(s, before).after, last);
    } else {
      BatchingSettles(s, before);
      CountedLastFits(before);
      NextHeld(s, Packets(before), Run(s, before).after, last);
    }
  }

  // The held packets that are not the last come with the sentinel alone.
  ghost predicate SettledAlmost(s: Sender, ps: seq<Packet>, now: Sender) {
    && |ps| == 2 && now.running && now.client == s.client && LastFits(ps)
    && now.stamp == now.counter == (s.counter + 2) % TWO_TO_32
    && now.held != [] && Length(now) <= CAPACITY
    && ((s.counter + 1) % TWO_TO_32 != NO_STAMP ==> now.held == [ps[1]])
  }

  lemma AfterTwo(s: Sender, ops: seq<Op>)
    requires s.running && s.client != 0 && Length(s) <= CAPACITY && CountedRun(ops) && |ops| == 2
    ensures SettledAlmost(s, Packets(ops), Run(s, ops).after)
  {
    RunOfTwo(s, ops);
    assert Legal(ops[0]) && Legal(ops[1]);
    TwoPackets(s, ops[0].packet, ops[1].packet);
    assert Packets(ops) == [ops[0].packet, ops[1].packet];
  }

  lemma TwoPackets(s: Sender, p: Packet, q: Packet)
    requires s.running && s.client != 0 && Length(s) <= CAPACITY
    requires HEADER_SIZE + |p.payload| <= CAPACITY && HEADER_SIZE + |q.payload| <= CAPACITY
    ensures SettledAlmost(s, [p, q], Push(Push(s, p, Counted, 0).after, q, Counted, 0).after)
  {
    var t := Push(s, p, Counted, 0).after;
    CallStaysLegal(s, p);
    CallStaysLegal(t, q);
    CounterSteps(s.counter, 0);
    CounterSteps(s.counter, 1);
    NextOfStamped(t, q);
  }

  lemma RunOfTwo(s: Sender, ops: seq<Op>)
    requires |ops| == 2
    ensures Run(s, ops).after == Apply(Apply(s, ops[0]).after, ops[1]).after
  {
    assert ops[..1][..0] == [];
    assert Run(s, ops[..1]).after == Apply(s, ops[0]).after;
  }

  lemma CallStaysLegal(s: Sender, p: Packet)
    requires s.running && s.client != 0 && Length(s) <= CAPACITY && HEADER_SIZE + |p.payload| <= CAPACITY
    ensures var t := Push(s, p, Counted, 0).after;
            && Length(t) <= CAPACITY && t.running && t.client == s.client && t.held != []
            && t.stamp == t.counter == Increment32(s.counter)
  {
    LegalKeepsBounds(s, Send(p, Counted, 0));
    PushCounts(s, p);
  }

  // A packet behind one with its own stamp.
  lemma NextOfStamped(s: Sender, p: Packet)
    requires s.running && s.client != 0 && s.held != [] && s.stamp == s.counter && Length(s) <= CAPACITY
    requires HEADER_SIZE + |p.payload| <= CAPACITY
    ensures Push(s, p, Counted, 0).after.held
         == if s.stamp == NO_STAMP && Length(s) + |Frame(p)| <= CAPACITY then s.held + [p] else [p]
  {
    CallOfRunning(s, p, Counted, 0);
  }

  lemma ThirdPacket(s: Sender, ps: seq<Packet>, now: Sender, op: Op)
    requires SettledAlmost(s, ps, now) && s.client != 0
    requires op.Send? && op.stamp == Counted && op.answer == 0 && Legal(op)
    ensures Steady(s, ps + [op.packet], Apply(now, op).after)
  {
    CounterSteps(s.counter, 2);
    PushCounts(now, op.packet);
    ThirdWaits(s, ps, now, op.packet);
  }

  lemma ThirdWaits(s: Sender, ps: seq<Packet>, now: Sender, p: Packet)
    requires SettledAlmost(s, ps, now) && s.client != 0 && HEADER_SIZE + |p.payload| <= CAPACITY
    ensures Push(now, p, Counted, 0).after.held == Waiting(s.counter, ps + [p])
  {
    OneMoreWaiting(s.counter, ps, p);
    if (s.counter + 1) % TWO_TO_32 == NO_STAMP {
      CounterSteps(s.counter, 1);
      NextOfStamped(now, p);
    } else {
      NextOfOne(now, ps[1], p);
    }
  }

  lemma NextOfOne(s: Sender, q: Packet, p: Packet)
    requires s.running && s.client != 0 && s.held == [q] && s.stamp == s.counter && Length(s) <= CAPACITY
    requires HEADER_SIZE + |p.payload| <= CAPACITY
    ensures Push(s, p, Counted, 0).after.held == if s.stamp == NO_STAMP && PairFits(q, p) then [q, p] else [p]
  {
    NextOfStamped(s, p);
    LengthOfOne(s, q);
    assert [q] + [p] == [q, p];
  }

  lemma WritesLagByWaiting(s: Sender, ops: seq<Op>)
    requires s.running && s.client != 0 && s.held == [] && CountedRun(ops)
    ensures Delivered(Run(s, ops).events) == Packets(ops)[..|ops| - |Waiting(s.counter, Packets(ops))|]
  {
    SentThenWaiting(s, ops);
    FrontOf(Delivered(Run(s, ops).events), Waiting(s.counter, Packets(ops)), Packets(ops));
  }

  lemma SentThenWaiting(s: Sender, ops: seq<Op>)
    requires s.running && s.client != 0 && s.held == [] && CountedRun(ops)
    ensures Delivered(Run(s, ops).events) + Waiting(s.counter, Packets(ops)) == [] + Packets(ops)
  {
    ExactBatching(s, ops);
    Conservation(s, ops);
    AllAccepted(s, ops);
  }

  lemma FrontOf(front: Batch, back: Batch, all: Batch)
    requires front + back == [] + all
    ensures front == all[..|all| - |back|]
  {
    assert [] + all == all;
    assert front == (front + back)[..|front|];
  }

  // The code's case, with the counter at 0: two frames wait exactly when the number of
  // packets is 0xEFEFEFF0 modulo 2^32 and both fit.
  lemma BatchingFromZero(s: Sender, ops: seq<Op>)
    requires s.running && s.client != 0 && s.held == [] && s.counter == 0
    requires CountedRun(ops) && ops != []
    ensures var ps, k := Packets(ops), |ops|;
            Run(s, ops).after.held ==
              if k % TWO_TO_32 == 0xEFEF_EFF0 && |Frame(ps[k - 2])| + |Frame(ps[k - 1])| <= CAPACITY
              then [ps[k - 2], ps[k - 1]]
              else [ps[k - 1]]
  {
    ExactBatching(s, ops);
    WaitingFromZero(Packets(ops));
  }

  lemma WaitingFromZero(ps: seq<Packet>)
    requires ps != []
    ensures var k := |ps|;
            Waiting(0, ps) ==
              if k % TWO_TO_32 == 0xEFEF_EFF0 && |Frame(ps[k - 2])| + |Frame(ps[k - 1])| <= CAPACITY
              then [ps[k - 2], ps[k - 1]]
              else [ps[k - 1]]
  {
    PairedFromZero(ps);
    LastOne(ps);
    LastTwo(ps);
  }

  lemma PairedFromZero(ps: seq<Packet>)
    requires ps != []
    ensures Paired(0, ps) <==> |ps| % TWO_TO_32 == 0xEFEF_EFF0 &&
                               |Frame(ps[|ps| - 2])| + |Frame(ps[|ps| - 1])| <= CAPACITY
  {
    AtTheMark(|ps|);
  }

  // Whether one less leaves the remainder of the mark.
  lemma AtTheMark(k: nat)
    requires k > 0
    ensures (k - 1) % 0x1_0000_0000 == 0xEFEF_EFEF <==> k % 0x1_0000_0000 == 0xEFEF_EFF0
    ensures k % 0x1_0000_0000 == 0xEFEF_EFF0 ==> k >= 2
  {
    var q, r := k / 0x1_0000_0000, k % 0x1_0000_0000;
    assert k == q * 0x1_0000_0000 + r;
    if r > 0 {
      RemainderOf(k - 1, q, r - 1);
    } else {
      RemainderOf(k - 1, q - 1, 0xFFFF_FFFF);
    }
  }

  lemma RemainderOf(k: int, q: int, r: int)
    requires k == q * 0x1_0000_0000 + r && 0 <= r < 0x1_0000_0000
    ensures k % 0x1_0000_0000 == r
  {
  }

  // ---------- initial stamp ----------

  // Equal but for the stamp, which may differ only while nothing is held.
  ghost predicate Twins(s: Sender, t: Sender) {
    t == s.(stamp := t.stamp) && (s.held != [] ==> s.stamp == t.stamp)
  }

  // The stamp that a new session starts with has no influence, ever: the same operations
  // make the same writes, accept the same packets and leave the same buffer.
  lemma {:induction false} InitialStampIsIrrelevant(s: Sender, t: Sender, ops: seq<Op>)
    requires Twins(s, t)
    ensures Run(s, ops).events == Run(t, ops).events
    ensures Run(s, ops).accepted == Run(t, ops).accepted
    ensures Twins(Run(s, ops).after, Run(t, ops).after)
    decreases |ops|
  {
    if ops != [] {
      InitialStampIsIrrelevant(s, t, ops[..|ops| - 1]);
    }
  }

  // ---------- counter ----------

  // What a call that fails adds to the counter: a flush for room fails before the counter
  // is advanced, a flush for a new stamp after.
  function Overshoot(r: Outcome, ops: seq<Op>): nat {
    if |r.accepted| < |ops| && ops[|r.accepted|].Send? &&
       Room(r.after) >= Wrap32(|ops[|r.accepted|].packet.payload| + HEADER_SIZE)
    then 1 else 0
  }

  function Advanced(counter: word32, n: nat): word32 {
    if n == 0 then counter else Increment32(Advanced(counter, n - 1))
  }

  ghost predicate CounterFits(counter: word32, r: Outcome, ops: seq<Op>) {
    r.after.counter == Advanced(counter, |r.accepted| + Overshoot(r, ops))
  }

  lemma {:induction false} AdvancedIsModular(counter: word32, n: nat)
    ensures Advanced(counter, n) == (counter + n) % TWO_TO_32
  {
    if n > 0 {
      AdvancedIsModular(counter, n - 1);
      CounterSteps(counter, n - 1);
    }
  }

  // Over every run of packets with the code's stamps the counter advances by one for
  // each accepted packet, and by one more for the packet whose call failed in a flush
  // for a new stamp, but not for one that failed in a flush for room.
  lemma {:induction false} CounterLaw(s: Sender, ops: seq<Op>)
    requires s.running && s.client != 0 && OnlySends(ops)
    requires forall i :: 0 <= i < |ops| ==> ops[i].stamp == Counted
    ensures CounterFits(s.counter, Run(s, ops), ops)
    decreases |ops|
  {
    if ops != [] {
      var before, last := ops[..|ops| - 1], ops[|ops| - 1];
      CounterLaw(s, before);
      RunHasShape(s, before);
      NextCounter(s.counter, Run(s, before), before, last);
      assert before + [last] == ops;
    }
  }

  lemma NextCounter(counter: word32, r: Outcome, before: seq<Op>, last: Op)
    requires last.Send? && last.stamp == Counted
    requires r.after.running ==> r.after.client != 0 && |r.accepted| == |before|
    requires !r.after.running ==> |r.accepted| < |before|
    requires CounterFits(counter, r, before)
    ensures var x := Apply(r.after, last);
            var q := Outcome(x.after, r.events + x.events, r.accepted + x.accepted, x.result);
            CounterFits(counter, q, before + [last])
  {
    if r.after.running {
      CounterOfOneCall(r.after, last);
    }
  }

  lemma CounterOfOneCall(now: Sender, op: Op)
    requires now.running && now.client != 0 && op.Send? && op.stamp == Counted
    ensures var x := Apply(now, op);
            if x.after.running
            then |x.accepted| == 1 && x.after.counter == Increment32(now.counter)
            else
              && x.accepted == [] && x.after.held == now.held
              && x.after.counter == if Room(x.after) >= Wrap32(|op.packet.payload| + HEADER_SIZE)
                                    then Increment32(now.counter) else now.counter
  {
  }
}
