// The class PlaySession as the program has it: a byte buffer filled by offset, and fields
// for handles, counters and playback state. Each method is proved to do what the value
// models of the session, its sender and its playback say.

// The network library and the device SDK, known by the calls made to them. What a call
// answers is a parameter of the method that makes it.
module Outside {
  import opened Bytes
  import opened Network
  import opened Sessions

  class Net {
    ghost var log: seq<Event<seq<byte>>>

    constructor ()
      ensures log == []
    {
      log := [];
    }

    method Connect(result: int, handle: nat) returns (r: int, client: nat)
      modifies this
      ensures r == result && client == if result == 0 then handle else 0
      ensures log == old(log) + if result == 0 then [Connected(handle)] else []
    {
      r, client := result, if result == 0 then handle else 0;
      log := log + if result == 0 then [Connected(handle)] else [];
    }

    method Write(client: nat, buffer: array<byte>, length: nat, answer: int) returns (r: int)
      requires length <= buffer.Length
      modifies this
      ensures r == answer && log == old(log) + [Wrote(client, buffer[..length], answer)]
    {
      r := answer;
      log := log + [Wrote(client, buffer[..length], answer)];
    }

    method Disconnect(client: nat, answer: int) returns (r: int)
      modifies this
      ensures r == answer && log == old(log) + [Disconnected(client, answer)]
    {
      r := answer;
      log := log + [Disconnected(client, answer)];
    }
  }

  class Sdk {
    ghost var log: seq<SdkEvent>
    ghost var seeks: seq<(nat, word32)>

    constructor ()
      ensures log == [] && seeks == []
    {
      log, seeks := [], [];
    }

    // Opens a stream for a slot that holds the old handle; 0 is failure.
    method Open(slot: Slot, before: nat, handle: nat) returns (h: nat)
      modifies this`log
      ensures h == handle
      ensures log == old(log) + (if before != 0 then [Overwritten(slot, before)] else [])
                              + (if handle != 0 then [Opened(slot, handle)] else [])
    {
      h := handle;
      log := log + (if before != 0 then [Overwritten(slot, before)] else [])
                 + (if handle != 0 then [Opened(slot, handle)] else []);
    }

    method Stop(slot: Slot, handle: nat, answer: Answer) returns (ok: bool)
      modifies this`log
      ensures ok == answer.Done? && log == old(log) + [Stopped(slot, handle)]
    {
      ok := answer.Done?;
      log := log + [Stopped(slot, handle)];
    }

    method Seek(handle: nat, offset: word32, answer: Answer) returns (ok: bool)
      modifies this`seeks
      ensures ok == answer.Done? && seeks == old(seeks) + [(handle, offset)]
    {
      ok := answer.Done?;
      seeks := seeks + [(handle, offset)];
    }
  }
}

module PlaySessions {
  import opened Bytes
  import opened Framing
  import opened Network
  import opened SendBuffer
  import opened Sessions
  import opened Outside
  import opened DateText
  import P = Playback

  class PlaySession {
    const net: Net
    const sdk: Sdk
    const buffer: array<byte>
    var length: nat
    var startStamp: word32
    var currentStamp: word32
    var isRun: bool
    var mediaClient: nat
    var recordHandle: nat
    var liveHandle: nat
    var downloadHandle: nat
    var startTime: string
    var backward: bool
    var speed: real

    // The packets whose frames are in the buffer.
    ghost var held: seq<Packet>

    ghost predicate Valid()
      reads this, buffer
    {
      buffer.Length == CAPACITY && length <= CAPACITY && buffer[..length] == Frames(held)
    }

    ghost function State(): Session
      reads this
    {
      Session(Sender(isRun, mediaClient, held, startStamp, currentStamp),
                      Plays(recordHandle, liveHandle, downloadHandle))
    }

    ghost function PlayState(): P.Playback
      reads this
    {
      P.Playback(backward, speed)
    }

    // The stamp is one of the fields that the code leaves to chance.
    constructor (net: Net, sdk: Sdk, start: string, stamp: word32, turned: bool)
      ensures Valid() && fresh(buffer) && this.net == net && this.sdk == sdk
      ensures State() == NewSession(stamp) && startTime == start
      ensures PlayState() == P.Playback(turned, 1.0)
    {
      this.net, this.sdk := net, sdk;
      buffer := new byte[CAPACITY];
      length, startStamp, currentStamp := 0, stamp, 0;
      isRun, mediaClient := false, 0;
      recordHandle, liveHandle, downloadHandle := 0, 0, 0;
      startTime, backward, speed := start, turned, 1.0;
      held := [];
      new;
      assert buffer[..length] == [];
    }

    // ---------- media connection ----------

    method ConnectMS(result: int, handle: nat) returns (r: int)
      requires Valid()
      modifies this`mediaClient, net
      ensures Valid() && DoneAs(old(State()), Connect(result, handle), r, old(net.log), old(sdk.log))
    {
      r, mediaClient := net.Connect(result, handle);
    }

    method SetMSAddr(result: int, handle: nat) returns (ok: bool)
      requires Valid()
      modifies this`mediaClient, net
      ensures Valid() && DoneAs(old(State()), Connect(result, handle), result, old(net.log), old(sdk.log))
      ensures ok <==> result == 0
    {
      var r := ConnectMS(result, handle);
      ok := r == 0;
    }

    method DisconnectMS(answer: int)
      requires Valid()
      modifies this`mediaClient, net
      ensures Valid()
      ensures State() == old(State()).(sender := Disconnect(old(State()).sender, answer).0)
      ensures net.log == old(net.log) + AllOnWire(Disconnect(old(State()).sender, answer).1)
    {
      if mediaClient == 0 {
        return;
      }
      var val := net.Disconnect(mediaClient, answer);
      if val == 0 {
        mediaClient := 0;
      }
    }

    // ---------- outcome of a method ----------

    // The method did what the model of the session says: state, result and calls.
    ghost predicate DoneAs(before: Session, op: SessionOp, r: int,
                              netLog: seq<Event<seq<byte>>>, sdkLog: seq<SdkEvent>)
      reads this, net, sdk
    {
      var e := Perform(before, op);
      && State() == e.after && r == e.result
      && net.log == netLog + AllOnWire(e.net) && sdk.log == sdkLog + e.sdk
    }

    // ---------- sending ----------

    // One RTP packet. The answer is what the network library would say to a write.
    method SendMS(data: seq<byte>, answer: int) returns (r: int)
      requires Valid() && |data| < TWO_TO_32 && Fits(State().sender, |data|, Counted, answer)
      modifies this`length, this`held, this`isRun, this`mediaClient, this`startStamp, this`currentStamp, buffer, net
      ensures Valid() && DoneAs(old(State()), SendPacket(data, answer), r, old(net.log), old(sdk.log))
    {
      OneOnWire(Wrote(mediaClient, held, answer));
      LengthInArray();
      r := 0;
      if !isRun {
        return;
      }

      if mediaClient != 0 && Wrap32(CAPACITY - length) < Wrap32(|data| + HEADER_SIZE) && length > 0 {
        r := Flush(answer);
        if r != 0 {
          return;
        }
      }

      currentStamp := Increment32(currentStamp);
      if mediaClient != 0 && startStamp != NO_STAMP && startStamp != currentStamp && length > 0 {
        r := Flush(answer);
        if r != 0 {
          return;
        }
      }

      Store(data);
      startStamp := currentStamp;
    }

    lemma LengthInArray()
      requires Valid()
      ensures Length(State().sender) == length && (held != [] <==> length > 0)
      ensures Room(State().sender) == Wrap32(CAPACITY - length)
    {
    }

    // Writes the buffer out: empties it on success, stops the session on failure.
    method Flush(answer: int) returns (r: int)
      requires Valid()
      modifies this`length, this`held, this`isRun, this`mediaClient, net
      ensures Valid() && r == answer
      ensures net.log == old(net.log) + [Wrote(old(mediaClient), Frames(old(held)), answer)]
      ensures if r == 0 then held == [] && isRun == old(isRun) && mediaClient == old(mediaClient)
              else held == old(held) && !isRun && mediaClient == 0
    {
      r := net.Write(mediaClient, buffer, length, answer);
      if r != 0 {
        isRun, mediaClient := false, 0;
        return;
      }
      length, held := 0, [];
    }

    // Puts the frame of the packet behind the frames in the buffer.
    method Store(data: seq<byte>)
      requires Valid() && length + HEADER_SIZE + |data| <= CAPACITY
      modifies this`length, this`held, buffer
      ensures Valid() && held == old(held) + [Packet(0, data)]
      ensures length == old(length) + HEADER_SIZE + |data|
    {
      ghost var was := buffer[..length];
      buffer[length + 0] := '$' as int;
      buffer[length + 1] := 0;
      var rtpLength := InMemory(Htons(|data|));
      buffer[length + 2], buffer[length + 3] := rtpLength[0], rtpLength[1];
      forall i | 0 <= i < |data| {
        buffer[length + HEADER_SIZE + i] := data[i];
      }
      HtonsIsNetworkOrder(|data|);
      FramesSnoc(held, Packet(0, data));
      held := held + [Packet(0, data)];
      length := length + |data| + HEADER_SIZE;
      assert buffer[..length] == was + Frame(Packet(0, data));
    }

    // ---------- play handles ----------

    method StartRealPlaySession(keyFrame: Answer, handle: nat, error: int) returns (ret: int)
      requires Valid()
      modifies this`liveHandle, this`isRun, sdk`log
      ensures Valid() && DoneAs(old(State()), StartReal(keyFrame, handle, error), ret, old(net.log), old(sdk.log))
    {
      ret := 0;
      if keyFrame.Failed? {
        return;
      }
      liveHandle := sdk.Open(Live, liveHandle, handle);
      if liveHandle == 0 {
        ret := error;
      }
      isRun := true;
    }

    method StartRecordPlaySession(stream: Answer, kind: Answer, handle: nat, error: int) returns (ret: int)
      requires Valid()
      modifies this`recordHandle, this`isRun, sdk`log
      ensures Valid()
      ensures DoneAs(old(State()), StartRecord(stream, kind, handle, error), ret, old(net.log), old(sdk.log))
    {
      ret := 0;
      if stream.Failed? {
        ret := stream.error;
        return;
      }
      if kind.Failed? {
        ret := kind.error;
        return;
      }
      recordHandle := sdk.Open(Record, recordHandle, handle);
      if recordHandle == 0 {
        ret := error;
        return;
      }
      isRun := true;
    }

    method StartDownloadPlaySession(stream: Answer, kind: Answer, handle: nat, error: int) returns (ret: int)
      requires Valid()
      modifies this`downloadHandle, sdk`log
      ensures Valid()
      ensures DoneAs(old(State()), StartDownload(stream, kind, handle, error), ret, old(net.log), old(sdk.log))
    {
      ret := 0;
      if stream.Failed? {
        ret := stream.error;
        return;
      }
      if kind.Failed? {
        ret := kind.error;
        return;
      }
      downloadHandle := sdk.Open(Download, downloadHandle, handle);
      if downloadHandle == 0 {
        ret := error;
      }
    }

    method StopSession(record: Answer, live: Answer, download: Answer, disconnect: int) returns (ret: int)
      requires Valid()
      modifies this`isRun, this`recordHandle, this`liveHandle, this`downloadHandle, this`mediaClient, sdk`log, net
      ensures Valid()
      ensures DoneAs(old(State()), Stop(record, live, download, disconnect), ret, old(net.log), old(sdk.log))
    {
      isRun := false;
      ret := 0;
      if recordHandle == 0 && downloadHandle == 0 && liveHandle == 0 {
        return;
      }

      ret := StopStreams(record, live, download);
      DisconnectMS(disconnect);
    }

    method StopStreams(record: Answer, live: Answer, download: Answer) returns (ret: int)
      modifies this`recordHandle, this`liveHandle, this`downloadHandle, sdk`log
      ensures State() == old(State()).(plays := NO_PLAYS)
      ensures ret == StopResult(old(State()).plays, record, live, download)
      ensures sdk.log == old(sdk.log) + StopAll(old(State()).plays)
    {
      ghost var plays := State().plays;
      ret := StopHandle(Record, recordHandle, record, 0);
      recordHandle := 0;
      ret := StopHandle(Live, liveHandle, live, ret);
      liveHandle := 0;
      ret := StopHandle(Download, downloadHandle, download, ret);
      downloadHandle := 0;
      ThreeStops(old(sdk.log), plays);
    }

    static lemma ThreeStops(log: seq<SdkEvent>, plays: Plays)
      ensures log + StopSlot(plays, Record) + StopSlot(plays, Live) + StopSlot(plays, Download) == log + StopAll(plays)
    {
    }

    // Stops the stream of one slot, if it has one.
    method StopHandle(slot: Slot, handle: nat, answer: Answer, soFar: int) returns (ret: int)
      modifies sdk`log
      ensures ret == if handle != 0 && answer.Failed? then answer.error else soFar
      ensures sdk.log == old(sdk.log) + StopSlot(NO_PLAYS.Set(slot, handle), slot)
    {
      ret := soFar;
      if handle != 0 {
        var ok := sdk.Stop(slot, handle, answer);
        if !ok {
          ret := answer.error;
        }
      }
    }

    // The destructor.
    method Reclaim(disconnect: int)
      requires Valid()
      modifies this`mediaClient, net
      ensures Valid() && DoneAs(old(State()), Destroy(disconnect), 0, old(net.log), old(sdk.log))
    {
      DisconnectMS(disconnect);
    }

    // ---------- a whole life ----------

    method Do(op: SessionOp) returns (r: int)
      requires Valid() && Sendable(State(), op)
      modifies this`length, this`held, this`isRun, this`mediaClient, this`startStamp, this`currentStamp
      modifies this`recordHandle, this`liveHandle, this`downloadHandle, buffer, net, sdk`log
      ensures Valid() && DoneAs(old(State()), op, r, old(net.log), old(sdk.log))
    {
      r := 0;
      match op
      case Connect(result, handle) => r := ConnectMS(result, handle);
      case StartReal(keyFrame, handle, error) => r := StartRealPlaySession(keyFrame, handle, error);
      case StartRecord(stream, kind, handle, error) => r := StartRecordPlaySession(stream, kind, handle, error);
      case StartDownload(stream, kind, handle, error) => r := StartDownloadPlaySession(stream, kind, handle, error);
      case SendPacket(data, answer) => r := SendMS(data, answer);
      case Stop(record, live, download, disconnect) => r := StopSession(record, live, download, disconnect);
      case Destroy(disconnect) => Reclaim(disconnect);
    }

    // The object has been through the life that the model gives for these calls.
    ghost predicate LivedAs(before: Session, ops: seq<SessionOp>,
                            netLog: seq<Event<seq<byte>>>, sdkLog: seq<SdkEvent>)
      reads this, net, sdk
    {
      var e := Life(before, ops);
      && State() == e.after
      && net.log == netLog + AllOnWire(e.net) && sdk.log == sdkLog + e.sdk
    }

    // Any calls in any order: so the theorems about lives are theorems about the object, its
    // bytes and the calls it makes.
    method DoAll(ops: seq<SessionOp>)
      requires Valid() && AlwaysSendable(State(), ops)
      modifies this`length, this`held, this`isRun, this`mediaClient, this`startStamp, this`currentStamp
      modifies this`recordHandle, this`liveHandle, this`downloadHandle, buffer, net, sdk`log
      ensures Valid() && LivedAs(old(State()), ops, old(net.log), old(sdk.log))
    {
      ghost var s, netLog, sdkLog := State(), net.log, sdk.log;
      assert LivedAs(s, ops[..0], netLog, sdkLog);
      for k := 0 to |ops|
        invariant Valid() && LivedAs(s, ops[..k], netLog, sdkLog)
      {
        DoNext(ops, k, s, netLog, sdkLog);
      }
      assert ops[..|ops|] == ops;
    }

    method DoNext(ops: seq<SessionOp>, k: nat, ghost s: Session,
                  ghost netLog: seq<Event<seq<byte>>>, ghost sdkLog: seq<SdkEvent>)
      requires Valid() && k < |ops| && AlwaysSendable(s, ops) && LivedAs(s, ops[..k], netLog, sdkLog)
      modifies this`length, this`held, this`isRun, this`mediaClient, this`startStamp, this`currentStamp
      modifies this`recordHandle, this`liveHandle, this`downloadHandle, buffer, net, sdk`log
      ensures Valid() && LivedAs(s, ops[..k + 1], netLog, sdkLog)
    {
      SendableAt(s, ops, k);
      OneMoreCall(s, ops[..k], ops[k], netLog, sdkLog);
      assert ops[..k + 1] == ops[..k] + [ops[k]];
      var _ := Do(ops[k]);
    }

    static lemma OneMoreCall(s: Session, ops: seq<SessionOp>, op: SessionOp,
                             netLog: seq<Event<seq<byte>>>, sdkLog: seq<SdkEvent>)
      ensures var e, f := Life(s, ops), Life(s, ops + [op]);
              var last := Perform(e.after, op);
              && f.after == last.after
              && netLog + AllOnWire(f.net) == netLog + AllOnWire(e.net) + AllOnWire(last.net)
              && sdkLog + f.sdk == sdkLog + e.sdk + last.sdk
    {
      assert (ops + [op])[..|ops|] == ops;
      AllOnWireAppend(Life(s, ops).net, Perform(Life(s, ops).after, op).net);
    }

    // ---------- playback control ----------

    method SeekPlayBack(time: string, zone: int, answer: Answer) returns (ret: int)
      requires ValidText(time) && ValidText(startTime)
      modifies sdk`seeks
      ensures ret == if answer.Failed? then answer.error else 0
      ensures sdk.seeks == old(sdk.seeks) + [(recordHandle, Offset(time, startTime))]
    {
      ret := 0;
      var offset := SeekOffset(time, startTime, zone);
      var ok := sdk.Seek(recordHandle, offset, answer);
      if !ok {
        ret := answer.error;
      }
    }

    method PlayBackControlDirection(answer: Answer) returns (ret: int)
      modifies this`backward
      ensures PlayState() == P.Issue(old(PlayState()), P.Turn(answer.Done?), P.SLOW_FACTOR)
      ensures ret == if answer.Failed? then answer.error else 0
    {
      ret := 0;
      backward := !backward;
      if answer.Failed? {
        backward := !backward;
        ret := answer.error;
      }
    }

    method SetSpeed(kind: P.Kind, answer: Answer) returns (ret: int)
      modifies this`speed
      ensures PlayState() == P.Issue(old(PlayState()), P.Speed(kind, answer.Done?), P.SLOW_FACTOR)
      ensures ret == if answer.Failed? then answer.error else 0
    {
      ret := 0;
      var next := 1.0;
      if kind == P.Fast {
        next := 2.0 * speed;
      } else if kind == P.Slow {
        next := (1 / 2) as real * speed;
      } else {
        next := 1.0;
      }
      if answer.Failed? {
        ret := answer.error;
      } else {
        speed := next;
      }
    }
  }
}
