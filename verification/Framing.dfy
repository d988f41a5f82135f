// Interleaved framing of RTP packets over TCP (section 10.12 of RFC 2326), and
// an incremental receiver for it.

module Bytes {
  type byte = x: int | 0 <= x < 0x100
  type word16 = x: int | 0 <= x < 0x1_0000
  type word32 = x: int | 0 <= x < 0x1_0000_0000

  const TWO_TO_16 := 0x1_0000
  const TWO_TO_32 := 0x1_0000_0000

  // Unsigned 32-bit increment: wraps to 0 after the largest value.
  function Increment32(x: word32): word32 {
    Wrap32(x + 1)
  }

  // Conversion to an unsigned 32-bit number.
  function Wrap32(x: int): word32 {
    x % TWO_TO_32
  }

  lemma Wrap32Near(x: int)
    requires -TWO_TO_32 < x < TWO_TO_32
    ensures Wrap32(x) == if x >= 0 then x else x + TWO_TO_32
  {
  }

  // Swaps the two bytes of a 16-bit value, as `htons` does on a little-endian host.
  // The argument is first truncated to 16 bits.
  function Htons(n: nat): word16 {
    var x := n % TWO_TO_16;
    x % 0x100 * 0x100 + x / 0x100
  }

  // The bytes of a 16-bit value in the memory of a little-endian host.
  function InMemory(x: word16): (s: seq<byte>) {
    [x % 0x100, x / 0x100]
  }

  // The big-endian bytes of a length, truncated to 16 bits.
  function BigEndian16(n: nat): (s: seq<byte>)
    ensures |s| == 2
  {
    [n / 0x100 % 0x100, n % 0x100]
  }

  // What the sender copies into its header really is network byte order.
  lemma HtonsIsNetworkOrder(n: nat)
    ensures InMemory(Htons(n)) == BigEndian16(n)
    ensures FromBigEndian16(InMemory(Htons(n))) == n % TWO_TO_16
  {
    var x: word16 := n % 0x1_0000;
    TruncationKeepsBytes(n);
    SwappedBytes(x);
    assert InMemory(Htons(n)) == [x / 0x100, x % 0x100];
  }

  // The low two bytes of a number are those of its last 16 bits.
  lemma TruncationKeepsBytes(n: nat)
    ensures n % 0x1_0000 % 0x100 == n % 0x100
    ensures n % 0x1_0000 / 0x100 == n / 0x100 % 0x100
  {
    var q, x := n / 0x1_0000, n % 0x1_0000;
    var high, low := x / 0x100, x % 0x100;
    assert n == (q * 0x100 + high) * 0x100 + low;
    SplitOff(n, q * 0x100 + high, low);
    SplitOff(q * 0x100 + high, q, high);
  }

  lemma SplitOff(n: nat, high: nat, low: nat)
    requires n == high * 0x100 + low && low < 0x100
    ensures n / 0x100 == high && n % 0x100 == low
  {
  }

  // Swapping puts the high byte where memory has its low one.
  lemma SwappedBytes(x: word16)
    ensures var y := x % 0x100 * 0x100 + x / 0x100;
            y % 0x100 == x / 0x100 && y / 0x100 == x % 0x100
  {
    SplitOff(x % 0x100 * 0x100 + x / 0x100, x % 0x100, x / 0x100);
  }

  // Reads a big-endian 16-bit value.
  function FromBigEndian16(s: seq<byte>): word16
    requires |s| == 2
  {
    var high: int, low: int := s[0], s[1];
    high * 0x100 + low
  }
}

module Framing {
  import opened Bytes

  datatype Packet = Packet(channel: byte, payload: seq<byte>)

  const MAGIC: byte := 0x24  // '$'
  const HEADER_SIZE := 4
  const MAX_PAYLOAD := 0xFFFF

  // ---------- sending ----------

  function Frame(p: Packet): (s: seq<byte>)
    ensures |s| == HEADER_SIZE + |p.payload|
  {
    [MAGIC, p.channel] + BigEndian16(|p.payload|) + p.payload
  }

  function Frames(ps: seq<Packet>): (s: seq<byte>)
    ensures ps != [] ==> |s| >= HEADER_SIZE
  {
    if ps == [] then [] else Frame(ps[0]) + Frames(ps[1..])
  }

  lemma {:induction false} FramesAppend(ps: seq<Packet>, qs: seq<Packet>)
    ensures Frames(ps + qs) == Frames(ps) + Frames(qs)
  {
    if ps == [] {
      assert ps + qs == qs;
    } else {
      assert (ps + qs)[1..] == ps[1..] + qs;
      FramesAppend(ps[1..], qs);
    }
  }

  lemma FramesSnoc(ps: seq<Packet>, p: Packet)
    ensures Frames(ps + [p]) == Frames(ps) + Frame(p)
  {
    FramesAppend(ps, [p]);
    assert Frames([p]) == Frame(p) + Frames([]);
  }

  lemma FramesCons(p: Packet, ps: seq<Packet>)
    ensures Frames([p] + ps) == Frame(p) + Frames(ps)
  {
    assert ([p] + ps)[1..] == ps;
  }

  // Where the frame of a packet starts: behind four bytes and a payload for each before it.
  function StartOf(ps: seq<Packet>, k: nat): nat
    requires k <= |ps|
  {
    if k == 0 then 0 else StartOf(ps, k - 1) + 4 + |ps[k - 1].payload|
  }

  lemma {:induction false} StartOfIsLength(ps: seq<Packet>, k: nat)
    requires k <= |ps|
    ensures |Frames(ps[..k])| == StartOf(ps, k)
  {
    if k > 0 {
      StartOfIsLength(ps, k - 1);
      assert ps[..k] == ps[..k - 1] + [ps[k - 1]];
      FramesSnoc(ps[..k - 1], ps[k - 1]);
    }
  }

  // One frame after the other: a dollar sign, the channel, the length of the payload in two
  // bytes with the high one first, the payload; and nothing else.
  ghost predicate FrameAt(bytes: seq<byte>, n: nat, channel: byte, payload: seq<byte>) {
    && n + 4 + |payload| <= |bytes|
    && bytes[n] == 0x24 && bytes[n + 1] == channel
    && bytes[n + 2] as int * 256 + bytes[n + 3] as int == |payload| % 65536
    && bytes[n + 4..n + 4 + |payload|] == payload
  }

  lemma FrameLayout(ps: seq<Packet>, k: nat)
    requires k < |ps|
    ensures |Frames(ps)| == StartOf(ps, |ps|)
    ensures FrameAt(Frames(ps), StartOf(ps, k), ps[k].channel, ps[k].payload)
  {
    FramesLength(ps);
    StartOfIsLength(ps, k);
    FramesInThree(ps, k);
    FrameInside(Frames(ps[..k]), ps[k], Frames(ps[k + 1..]), Frames(ps));
  }

  lemma FramesLength(ps: seq<Packet>)
    ensures |Frames(ps)| == StartOf(ps, |ps|)
  {
    StartOfIsLength(ps, |ps|);
    assert ps[..|ps|] == ps;
  }

  lemma FramesInThree(ps: seq<Packet>, k: nat)
    requires k < |ps|
    ensures Frames(ps) == Frames(ps[..k]) + Frame(ps[k]) + Frames(ps[k + 1..])
  {
    Around(ps, k);
    FramesAround(ps[..k], ps[k], ps[k + 1..]);
  }

  lemma Around(ps: seq<Packet>, k: nat)
    requires k < |ps|
    ensures ps == ps[..k] + [ps[k]] + ps[k + 1..]
  {
  }

  lemma FramesAround(front: seq<Packet>, p: Packet, back: seq<Packet>)
    ensures Frames(front + [p] + back) == Frames(front) + Frame(p) + Frames(back)
  {
    FramesSnoc(front, p);
    FramesAppend(front + [p], back);
  }

  lemma FrameInside(front: seq<byte>, p: Packet, back: seq<byte>, bytes: seq<byte>)
    requires bytes == front + Frame(p) + back
    ensures FrameAt(bytes, |front|, p.channel, p.payload)
  {
    var n, f := |front|, Frame(p);
    assert forall i :: 0 <= i < |f| ==> bytes[n + i] == f[i];
    TwoBytes(|p.payload|);
    assert f[4..] == p.payload;
    assert bytes[n + 4..n + 4 + |p.payload|] == f[4..];
  }

  lemma TwoBytes(n: nat)
    ensures BigEndian16(n)[0] as int * 256 + BigEndian16(n)[1] as int == n % 65536
  {
    TruncationKeepsBytes(n);
  }

  // Payloads whose length the 16-bit header field can carry.
  ghost predicate Encodable(ps: seq<Packet>) {
    forall i :: 0 <= i < |ps| ==> |ps[i].payload| <= MAX_PAYLOAD
  }

  // ---------- receiving ----------

  // What a receiver has made of the bytes so far: the packets it has delivered, the
  // bytes it still waits to complete, and whether the stream is still in step.
  datatype Receiver = Receiver(packets: seq<Packet>, pending: seq<byte>, inStep: bool)

  // Where the frame at the front ends.
  function FrameEnd(bytes: seq<byte>): (end: nat)
    requires |bytes| >= HEADER_SIZE
    ensures HEADER_SIZE <= end
  {
    HEADER_SIZE + FromBigEndian16(bytes[2..4])
  }

  predicate FrameAtFront(bytes: seq<byte>) {
    |bytes| >= HEADER_SIZE && bytes[0] == MAGIC && FrameEnd(bytes) <= |bytes|
  }

  // Takes every complete frame off the front of the bytes.
  function Deframe(bytes: seq<byte>): Receiver
    decreases |bytes|
  {
    if bytes == [] then
      Receiver([], [], true)
    else if bytes[0] != MAGIC then
      Receiver([], bytes, false)
    else if !FrameAtFront(bytes) then
      Receiver([], bytes, true)
    else
      var end := FrameEnd(bytes);
      var tail := Deframe(bytes[end..]);
      Receiver([Packet(bytes[1], bytes[HEADER_SIZE..end])] + tail.packets, tail.pending, tail.inStep)
  }

  // One read from the socket.
  function Feed(r: Receiver, chunk: seq<byte>): Receiver {
    if !r.inStep then
      r.(pending := r.pending + chunk)
    else
      var next := Deframe(r.pending + chunk);
      next.(packets := r.packets + next.packets)
  }

  function FeedAll(r: Receiver, chunks: seq<seq<byte>>): Receiver
    decreases |chunks|
  {
    if chunks == [] then r else FeedAll(Feed(r, chunks[0]), chunks[1..])
  }

  function Joined(chunks: seq<seq<byte>>): seq<byte> {
    if chunks == [] then [] else chunks[0] + Joined(chunks[1..])
  }

  const NEW_RECEIVER := Receiver([], [], true)

  // ---------- laws ----------

  // More bytes at the back leave the frame at the front as it is.
  lemma FrontUnchanged(a: seq<byte>, b: seq<byte>)
    requires FrameAtFront(a)
    ensures FrameAtFront(a + b) && FrameEnd(a + b) == FrameEnd(a)
    ensures (a + b)[FrameEnd(a)..] == a[FrameEnd(a)..] + b
    ensures (a + b)[HEADER_SIZE..FrameEnd(a)] == a[HEADER_SIZE..FrameEnd(a)]
    ensures (a + b)[1] == a[1]
  {
    assert (a + b)[2..4] == a[2..4];
  }

  // Reading two chunks one after the other is reading them joined.
  lemma {:induction false} FeedContinues(a: seq<byte>, b: seq<byte>)
    ensures Feed(Deframe(a), b) == Deframe(a + b)
    decreases |a|
  {
    if FrameAtFront(a) {
      FeedContinues(a[FrameEnd(a)..], b);
      FrontUnchanged(a, b);
      DeframeFront(a);
      DeframeFront(a + b);
      FeedKeepsFront(Packet(a[1], a[HEADER_SIZE..FrameEnd(a)]), Deframe(a[FrameEnd(a)..]), b);
    } else {
      FeedCompletes(a, b);
    }
  }

  // What has been delivered does not matter to the rest.
  lemma FeedKeepsFront(p: Packet, r: Receiver, chunk: seq<byte>)
    ensures Feed(r.(packets := [p] + r.packets), chunk)
         == Feed(r, chunk).(packets := [p] + Feed(r, chunk).packets)
  {
    var next := Deframe(r.pending + chunk).packets;
    assert [p] + r.packets + next == [p] + (r.packets + next);
  }

  lemma FeedCompletes(a: seq<byte>, b: seq<byte>)
    requires !FrameAtFront(a)
    ensures Feed(Deframe(a), b) == Deframe(a + b)
  {
    var next := Deframe(a + b).packets;
    assert [] + next == next;
    if a == [] {
      assert a + b == b;
    } else {
      assert Deframe(a) == Receiver([], a, a[0] == MAGIC);
    }
  }

  lemma DeframeFront(bytes: seq<byte>)
    requires FrameAtFront(bytes)
    ensures var p, tail := Packet(bytes[1], bytes[HEADER_SIZE..FrameEnd(bytes)]), Deframe(bytes[FrameEnd(bytes)..]);
            Deframe(bytes) == tail.(packets := [p] + tail.packets)
  {
  }

  // How the stream is cut into reads makes no difference, whatever the bytes are.
  lemma {:induction false} ChunkingIsInvisible(chunks: seq<seq<byte>>, before: seq<byte>)
    ensures FeedAll(Deframe(before), chunks) == Deframe(before + Joined(chunks))
    decreases |chunks|
  {
    if chunks == [] {
      assert before + Joined(chunks) == before;
    } else {
      FeedContinues(before, chunks[0]);
      ChunkingIsInvisible(chunks[1..], before + chunks[0]);
      JoinedCons(before, chunks);
    }
  }

  lemma JoinedCons(before: seq<byte>, chunks: seq<seq<byte>>)
    requires chunks != []
    ensures before + chunks[0] + Joined(chunks[1..]) == before + Joined(chunks)
  {
    assert Joined(chunks) == chunks[0] + Joined(chunks[1..]);
  }

  // Receiving inverts sending, and leaves the receiver in step with nothing pending.
  lemma {:induction false} DeframeFrames(ps: seq<Packet>)
    requires Encodable(ps)
    ensures Deframe(Frames(ps)) == Receiver(ps, [], true)
    decreases |ps|
  {
    if ps != [] {
      var p, bytes := ps[0], Frames(ps);
      var n := |p.payload|;
      assert bytes[2..4] == BigEndian16(n);
      assert n / 0x100 % 0x100 * 0x100 + n % 0x100 == n;
      assert bytes[HEADER_SIZE..HEADER_SIZE + n] == p.payload;
      assert bytes[HEADER_SIZE + n..] == Frames(ps[1..]);
      DeframeFrames(ps[1..]);
    }
  }

  lemma FrameOfFront(bytes: seq<byte>)
    requires FrameAtFront(bytes)
    ensures Frame(Packet(bytes[1], bytes[HEADER_SIZE..FrameEnd(bytes)])) == bytes[..FrameEnd(bytes)]
  {
    var high: int, low: int := bytes[2], bytes[3];
    assert FrameEnd(bytes) == HEADER_SIZE + high * 0x100 + low;
    assert BigEndian16(high * 0x100 + low) == bytes[2..4];
  }

  // Sending inverts receiving: the receiver neither drops nor invents a byte.
  lemma {:induction false} FramesDeframe(bytes: seq<byte>)
    ensures Encodable(Deframe(bytes).packets)
    ensures Frames(Deframe(bytes).packets) + Deframe(bytes).pending == bytes
    decreases |bytes|
  {
    if FrameAtFront(bytes) {
      FramesDeframe(bytes[FrameEnd(bytes)..]);
      DeframeFront(bytes);
      FramesFront(bytes, Deframe(bytes[FrameEnd(bytes)..]));
    }
  }

  lemma FramesFront(bytes: seq<byte>, tail: Receiver)
    requires FrameAtFront(bytes) && Encodable(tail.packets)
    requires Frames(tail.packets) + tail.pending == bytes[FrameEnd(bytes)..]
    ensures var p := Packet(bytes[1], bytes[HEADER_SIZE..FrameEnd(bytes)]);
            Encodable([p] + tail.packets) && Frames([p] + tail.packets) + tail.pending == bytes
  {
    var end := FrameEnd(bytes);
    var p := Packet(bytes[1], bytes[HEADER_SIZE..end]);
    FrameOfFront(bytes);
    FramesCons(p, tail.packets);
    assert bytes[..end] + Frames(tail.packets) + tail.pending == bytes[..end] + bytes[end..] == bytes;
  }

  // Framing is injective on packet sequences.
  lemma FramesInjective(ps: seq<Packet>, qs: seq<Packet>)
    requires Encodable(ps) && Encodable(qs) && Frames(ps) == Frames(qs)
    ensures ps == qs
  {
    DeframeFrames(ps);
    DeframeFrames(qs);
  }

  // The 16-bit length field is the exact limit: one frame survives the trip if and
  // only if its payload fits the field.
  lemma FrameSurvivesIff(p: Packet)
    ensures Deframe(Frame(p)) == Receiver([p], [], true) <==> |p.payload| <= MAX_PAYLOAD
  {
    assert Frames([p]) == Frame(p) + Frames([]) == Frame(p);
    if |p.payload| <= MAX_PAYLOAD {
      DeframeFrames([p]);
    } else {
      FramesDeframe(Frame(p));
    }
  }

  // Whatever part of a framed stream has arrived, in whatever reads: the receiver is in
  // step and has delivered a prefix of the packets; the rest of the stream, again in
  // whatever reads, delivers all of them.
  lemma AnyPartArrived(ps: seq<Packet>, arrived: seq<seq<byte>>, rest: seq<seq<byte>>)
    requires Encodable(ps)
    requires Joined(arrived) + Joined(rest) == Frames(ps)
    ensures var r := FeedAll(NEW_RECEIVER, arrived);
            r.inStep && r.packets <= ps && Frames(r.packets) + r.pending == Joined(arrived)
    ensures FeedAll(FeedAll(NEW_RECEIVER, arrived), rest) == Receiver(ps, [], true)
  {
    var r := FeedAll(NEW_RECEIVER, arrived);
    ChunkingIsInvisible(arrived, []);
    assert [] + Joined(arrived) == Joined(arrived);
    ChunkingIsInvisible(rest, Joined(arrived));
    FramesDeframe(Joined(arrived));
    DeframeFrames(ps);
    FeedContinues(Joined(arrived), Joined(rest));
  }

  lemma EncodableParts(ps: seq<Packet>, qs: seq<Packet>)
    requires Encodable(ps + qs)
    ensures Encodable(ps) && Encodable(qs)
  {
    assert forall i :: 0 <= i < |ps| ==> ps[i] == (ps + qs)[i];
    assert forall i :: 0 <= i < |qs| ==> qs[i] == (ps + qs)[|ps| + i];
  }

  // When the first part ends at a frame boundary, the receiver has nothing pending there.
  lemma WholeFramesArrived(ps: seq<Packet>, qs: seq<Packet>, arrived: seq<seq<byte>>, rest: seq<seq<byte>>)
    requires Encodable(ps + qs)
    requires Joined(arrived) == Frames(ps) && Joined(rest) == Frames(qs)
    ensures FeedAll(NEW_RECEIVER, arrived) == Receiver(ps, [], true)
    ensures FeedAll(FeedAll(NEW_RECEIVER, arrived), rest) == Receiver(ps + qs, [], true)
  {
    EncodableParts(ps, qs);
    FramesAppend(ps, qs);
    AnyPartArrived(ps + qs, arrived, rest);
    ChunkingIsInvisible(arrived, []);
    assert [] + Joined(arrived) == Joined(arrived);
    DeframeFrames(ps);
  }
}
