/** One end of a connection: a sender and a receiver over one unreliable channel. */
module ArpSession {
  import opened Bits
  import opened Buffers
  import opened ArpFrames
  import opened ArpSpec
  import opened ArpProtocol

  function Least(a: nat, b: nat): nat { if a < b then a else b }

  /** Application bytes cut into segments of at most MSS bytes. */
  function Segments(bytes: seq<byte>): seq<seq<byte>> {
    if bytes == [] then []
    else var n := Least(MSS, |bytes|); [bytes[..n]] + Segments(bytes[n..])
  }

  lemma {:induction false} SegmentsCover(bytes: seq<byte>)
    ensures Concat(Segments(bytes)) == bytes
    ensures forall i :: 0 <= i < |Segments(bytes)| ==> 1 <= |Segments(bytes)[i]| <= MSS
  {
    if bytes != [] {
      var n := Least(MSS, |bytes|);
      SegmentsCover(bytes[n..]);
      ConcatAppend([bytes[..n]], Segments(bytes[n..]));
      ConcatOne(bytes[..n]);
      assert bytes[..n] + bytes[n..] == bytes;
      hide Concat;
    }
  }

  /** All segments but the last are full. */
  lemma {:induction false} SegmentsAreFull(bytes: seq<byte>, i: nat)
    requires i < |Segments(bytes)|
    ensures i * MSS < |bytes| && Segments(bytes)[i] == bytes[i * MSS..Least((i + 1) * MSS, |bytes|)]
    ensures i < |Segments(bytes)| - 1 ==> |Segments(bytes)[i]| == MSS
  {
    var n := Least(MSS, |bytes|);
    assert Segments(bytes) == [bytes[..n]] + Segments(bytes[n..]);
    if i > 0 {
      SegmentsAreFull(bytes[n..], i - 1);
    } else if n < MSS {
      assert Segments(bytes[n..]) == [];
    }
  }

  function EnqueueAll(s: Sender, payloads: seq<seq<byte>>, now: real): (Sender, seq<Frame>)
    decreases |payloads|
  {
    if payloads == [] then (s, [])
    else
      var (t, first) := Enqueue(s, payloads[0], now);
      var (u, rest) := EnqueueAll(t, payloads[1..], now);
      (u, first + rest)
  }

  datatype Endpoint = Endpoint(sender: Sender, receiver: Receiver)

  function SendBytes(e: Endpoint, bytes: seq<byte>, now: real): (Endpoint, seq<Frame>) {
    var (s, frames) := EnqueueAll(e.sender, Segments(bytes), now);
    (e.(sender := s), frames)
  }

  function TickTimer(e: Endpoint, now: real): (Endpoint, seq<Frame>) {
    var (s, frames) := Tick(e.sender, now);
    (e.(sender := s), frames)
  }

  /** The new state, the frames sent in answer, and the bytes handed to the application. */
  function HandleMessage(e: Endpoint, buf: seq<byte>, now: real): (Endpoint, seq<Frame>, seq<byte>) {
    match Decode(buf)
    case None => (e, [], [])
    case Some(f) =>
      if f.kind == FRAME_DATA then
        var (r, delivered, ackFrame) := OnData(e.receiver, f);
        (e.(receiver := r), [ackFrame], Concat(delivered))
      else if f.kind == FRAME_ACK then
        var (s, frames) := OnAck(e.sender, f.ack, f.window, now);
        (e.(sender := s), frames, [])
      else (e, [], [])
  }

  /** What an encoded frame does: data is for the receiver, which acknowledges it and hands on what has
      become contiguous; an acknowledgement is for the sender, with the window it grants. A frame of
      another kind, or a buffer too short for a header, does nothing. */
  lemma FrameArrives(e: Endpoint, f: Frame, now: real)
    requires Truncated(f) == f
    ensures var (t, frames, delivered) := HandleMessage(e, Encoded(f), now);
            && (f.kind == 0 ==> t == e.(receiver := OnData(e.receiver, f).0) && frames == [OnData(e.receiver, f).2]
                                && delivered == Concat(OnData(e.receiver, f).1))
            && (f.kind == 1 ==> t == e.(sender := OnAck(e.sender, f.ack, f.window, now).0) && delivered == []
                                && frames == OnAck(e.sender, f.ack, f.window, now).1)
            && (f.kind > 1 ==> t == e && frames == [] && delivered == [])
  {
    DecodeEncoded(f);
    hide Decode, Encoded, OnData, OnAck, Concat;
  }

  lemma ShortBuffersAreIgnored(e: Endpoint, buf: seq<byte>, now: real)
    requires |buf| < 11
    ensures HandleMessage(e, buf, now) == (e, [], [])
  {
  }

  class Session {
    const sender: ArpSender
    const receiver: ArpReceiver

    function State(): Endpoint
      reads this, sender, receiver
    {
      Endpoint(sender.State(), receiver.State())
    }

    constructor ()
      ensures fresh(sender) && fresh(receiver) && State() == Endpoint(INITIAL_SENDER, INITIAL_RECEIVER)
    {
      sender := new ArpSender();
      receiver := new ArpReceiver();
    }

    /** Copies the bytes segment by segment into the sender. */
    method Send(bytes: seq<byte>, now: real) returns (frames: seq<Frame>)
      modifies sender
      ensures (State(), frames) == SendBytes(old(State()), bytes, now)
    {
      hide Enqueue;
      frames := [];
      var off := 0;
      assert bytes[0..] == bytes;
      ghost var sent := EnqueueAll(sender.State(), Segments(bytes), now).1;
      assert [] + sent == sent;
      while off < |bytes|
        invariant off <= |bytes| && receiver.State() == old(receiver.State())
        invariant var (s, rest) := EnqueueAll(sender.State(), Segments(bytes[off..]), now);
                  (s, frames + rest) == EnqueueAll(old(sender.State()), Segments(bytes), now)
      {
        var end := Least(off + MSS, |bytes|);
        assert bytes[off..][..end - off] == bytes[off..end] && bytes[off..][end - off..] == bytes[end..];
        ghost var before, rest := sender.State(), EnqueueAll(sender.State(), Segments(bytes[off..]), now).1;
        var sent := sender.Enqueue(bytes[off..end], now);
        assert Segments(bytes[off..]) == [bytes[off..end]] + Segments(bytes[end..]);
        ghost var rest' := EnqueueAll(sender.State(), Segments(bytes[end..]), now).1;
        assert rest == sent + rest' && frames + rest == frames + sent + rest';
        frames := frames + sent;
        off := end;
      }
      assert bytes[off..] == [] && frames + [] == frames;
    }

    method OnTimer(now: real) returns (frames: seq<Frame>)
      modifies sender
      ensures (State(), frames) == TickTimer(old(State()), now)
    {
      frames := sender.Tick(now);
    }

    /** Dispatches an inbound buffer to the receiver or to the sender. */
    method Handle(buf: seq<byte>, now: real) returns (frames: seq<Frame>, delivered: seq<byte>)
      requires Contiguous(sender.State())
      modifies sender, receiver
      ensures (State(), frames, delivered) == HandleMessage(old(State()), buf, now)
    {
      var decoded := Decode(buf);
      if decoded.None? { return [], []; }
      var frame := decoded.value;
      if frame.kind == FRAME_DATA {
        var payloads, ackFrame := receiver.OnData(frame);
        return [ackFrame], Concat(payloads);
      } else if frame.kind == FRAME_ACK {
        frames := sender.OnAck(frame.ack, frame.window, now);
        delivered := [];
      } else {
        return [], [];
      }
    }
  }
}
