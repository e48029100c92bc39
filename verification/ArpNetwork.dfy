/** Two sessions over a network that may lose, duplicate, delay and reorder frames.

    A wire is the set of all encoded frames put on it and not lost since. Any of them may be received at
    any later moment and any number of times, in any order; and at any moment the network may lose any of
    them for good, as the source does with frames it drops before they reach the channel.
    No bound is put on sequence numbers, although the wire format keeps only 32 bits of them. */
module ArpNetwork {
  import opened Bits
  import opened Buffers
  import opened ArpFrames
  import opened ArpSpec
  import opened ArpInvariants
  import opened ArpSession

  type Wire = set<seq<byte>>

  /** A session with its history: the bytes given to `send`, the bytes delivered to the application,
      and the payload of every sequence number used so far. */
  datatype Peer = Peer(end: Endpoint, accepted: seq<byte>, delivered: seq<byte>, segs: seq<seq<byte>>)

  datatype Net = Net(a: Peer, b: Peer, toA: Wire, toB: Wire, clock: real)

  datatype Event = Send(bytes: seq<byte>) | Timer | Receive(buf: seq<byte>)

  const INITIAL_PEER := Peer(Endpoint(INITIAL_SENDER, INITIAL_RECEIVER), [], [], [])
  const INITIAL_NET := Net(INITIAL_PEER, INITIAL_PEER, {}, {}, 0.0)

  function OnWire(frames: seq<Frame>): Wire {
    set f | f in frames :: Encoded(f)
  }

  /** The payloads numbered by a step that moves `nextSeq` on, taken from the front of the queue. */
  function NewlyNumbered(p: Peer, queued: seq<seq<byte>>, s: Sender): seq<seq<byte>> {
    queued[..Clamp(s.nextSeq - p.end.sender.nextSeq, |queued|)]
  }

  function Act(p: Peer, ev: Event, now: real): (Peer, seq<Frame>) {
    match ev
    case Send(bytes) =>
      var (e, frames) := SendBytes(p.end, bytes, now);
      var queued := p.end.sender.sendQueue + Segments(bytes);
      (Peer(e, p.accepted + bytes, p.delivered, p.segs + NewlyNumbered(p, queued, e.sender)), frames)
    case Timer =>
      var (e, frames) := TickTimer(p.end, now);
      (p.(end := e), frames)
    case Receive(buf) =>
      var (e, frames, delivered) := HandleMessage(p.end, buf, now);
      (Peer(e, p.accepted, p.delivered + delivered,
            p.segs + NewlyNumbered(p, p.end.sender.sendQueue, e.sender)), frames)
  }

  ghost predicate StepA(n: Net, ev: Event, now: real, n': Net) {
    && n.clock <= now && (ev.Receive? ==> ev.buf in n.toA)
    && var (a, frames) := Act(n.a, ev, now);
       n' == Net(a, n.b, n.toA, n.toB + OnWire(frames), now)
  }

  ghost predicate StepB(n: Net, ev: Event, now: real, n': Net) {
    && n.clock <= now && (ev.Receive? ==> ev.buf in n.toB)
    && var (b, frames) := Act(n.b, ev, now);
       n' == Net(n.a, b, n.toA + OnWire(frames), n.toB, now)
  }

  /** One of the sessions acts. */
  ghost predicate Acts(n: Net, n': Net) {
    exists ev, now :: StepA(n, ev, now, n') || StepB(n, ev, now, n')
  }

  /** Some frames are lost for good. */
  ghost predicate Loses(n: Net, n': Net) {
    n'.toA <= n.toA && n'.toB <= n.toB && n' == n.(toA := n'.toA, toB := n'.toB)
  }

  ghost predicate Step(n: Net, n': Net) {
    Acts(n, n') || Loses(n, n')
  }

  ghost predicate IsRun(run: seq<Net>) {
    && |run| > 0 && run[0] == INITIAL_NET
    && forall i :: 0 <= i < |run| - 1 ==> Step(run[i], run[i + 1])
  }

  // ---------- the invariant of one direction ----------

  ghost predicate IsSegment(f: Frame, segs: seq<seq<byte>>, q: nat) {
    q < |segs| && f.seqNo == q % 0x1_0000_0000 && f.payload == segs[q]
  }

  ghost predicate DataOnWire(w: Wire, segs: seq<seq<byte>>) {
    forall buf :: buf in w && Decode(buf).Some? && Decode(buf).value.kind == FRAME_DATA
      ==> exists q: nat :: IsSegment(Decode(buf).value, segs, q)
  }

  ghost predicate IsAck(f: Frame, e: nat) {
    f.ack == e % 0x1_0000_0000 && f.window == DEFAULT_RWND
  }

  ghost predicate AcksOnWire(w: Wire, expected: nat) {
    forall buf :: buf in w && Decode(buf).Some? && Decode(buf).value.kind == FRAME_ACK
      ==> exists e: nat :: e <= expected && IsAck(Decode(buf).value, e)
  }

  ghost predicate ReceiverInv(r: Receiver, delivered: seq<byte>, s: Sender, segs: seq<seq<byte>>) {
    && s.highestAck <= r.expectedSeq <= |segs|
    && r.rwnd == DEFAULT_RWND
    && (forall q :: q in r.outOfOrder ==> r.expectedSeq < q < |segs| && r.outOfOrder[q] == segs[q])
    && r.expectedSeq <= 0x1_0000_0000 && (forall q :: q in r.outOfOrder ==> q < 0x1_0000_0000)
    && delivered == Concat(segs[..r.expectedSeq])
    && r.bytesDelivered == |delivered|
  }

  /** Everything there is to say about the bytes flowing from p to q. */
  ghost predicate Flow(p: Peer, q: Peer, data: Wire, acks: Wire, clock: real) {
    && SenderInv(p.end.sender, p.segs, p.accepted, clock)
    && ReceiverInv(q.end.receiver, q.delivered, p.end.sender, p.segs)
    && DataOnWire(data, p.segs) && AcksOnWire(acks, q.end.receiver.expectedSeq)
  }

  ghost predicate Inv(n: Net) {
    0.0 <= n.clock && Flow(n.a, n.b, n.toB, n.toA, n.clock) && Flow(n.b, n.a, n.toA, n.toB, n.clock)
  }

  // ---------- wires ----------

  lemma DataStays(w: Wire, frames: seq<Frame>, segs: seq<seq<byte>>, more: seq<seq<byte>>)
    requires DataOnWire(w, segs) && Genuine(frames, segs + more)
    ensures DataOnWire(w + OnWire(frames), segs + more)
  {
    forall buf | buf in w + OnWire(frames) && Decode(buf).Some? && Decode(buf).value.kind == FRAME_DATA
      ensures exists q: nat :: IsSegment(Decode(buf).value, segs + more, q)
    {
      if buf in w {
        var q: nat :| IsSegment(Decode(buf).value, segs, q);
        assert IsSegment(Decode(buf).value, segs + more, q);
      } else {
        var f :| f in frames && Encoded(f) == buf;
        DecodeEncoded(f);
        assert IsSegment(Decode(buf).value, segs + more, f.seqNo);
      }
    }
  }

  lemma AcksStay(w: Wire, f: Frame, expected: nat, expected': nat)
    requires AcksOnWire(w, expected) && expected <= expected'
    requires f.kind == FRAME_ACK && f.ack == expected' && f.window == DEFAULT_RWND
    ensures AcksOnWire(w + OnWire([f]), expected')
  {
    forall buf | buf in w + OnWire([f]) && Decode(buf).Some? && Decode(buf).value.kind == FRAME_ACK
      ensures exists e: nat :: e <= expected' && IsAck(Decode(buf).value, e)
    {
      if buf in w {
        var e: nat :| e <= expected && IsAck(Decode(buf).value, e);
      } else {
        DecodeEncoded(f);
        assert IsAck(Decode(buf).value, expected');
      }
    }
  }

  /** Data frames are no acknowledgements, and acknowledgements are no data. */
  lemma OtherKind(w: Wire, frames: seq<Frame>, kind: nat, buf: seq<byte>)
    requires kind < 0x100 && forall f :: f in frames ==> f.kind < 0x100 && f.kind != kind
    requires buf in w + OnWire(frames) && Decode(buf).Some? && Decode(buf).value.kind == kind
    ensures buf in w
  {
    if buf !in w {
      var f :| f in frames && Encoded(f) == buf;
      DecodeEncoded(f);
    }
  }

  lemma DataIgnoresAcks(w: Wire, f: Frame, segs: seq<seq<byte>>)
    requires DataOnWire(w, segs) && f.kind == FRAME_ACK
    ensures DataOnWire(w + OnWire([f]), segs)
  {
    forall buf | buf in w + OnWire([f]) && Decode(buf).Some? && Decode(buf).value.kind == FRAME_DATA
      ensures exists q: nat :: IsSegment(Decode(buf).value, segs, q)
    {
      OtherKind(w, [f], FRAME_DATA, buf);
    }
  }

  lemma AcksIgnoreData(w: Wire, frames: seq<Frame>, segs: seq<seq<byte>>, expected: nat)
    requires AcksOnWire(w, expected) && Genuine(frames, segs)
    ensures AcksOnWire(w + OnWire(frames), expected)
  {
    forall buf | buf in w + OnWire(frames) && Decode(buf).Some? && Decode(buf).value.kind == FRAME_ACK
      ensures exists e: nat :: e <= expected && IsAck(Decode(buf).value, e)
    {
      OtherKind(w, frames, FRAME_ACK, buf);
    }
  }

  // ---------- the receiving side ----------

  /** Truncated to 32 bits, a sequence number is either old or unchanged: the window keeps every
      number in use within 256 of the next expected one. */
  lemma NoConfusion(q: nat, expected: nat)
    requires q < expected + 256
    ensures q % 0x1_0000_0000 >= expected ==> q % 0x1_0000_0000 == q
  {
  }

  lemma {:induction false} RunIsSegments(buffer: map<nat, seq<byte>>, from: nat, segs: seq<seq<byte>>)
    requires forall q :: q in buffer ==> from <= q < |segs| && buffer[q] == segs[q]
    requires from <= |segs|
    ensures var n := |Run(buffer, from)|;
            && from + n <= |segs| && Run(buffer, from) == segs[from..from + n]
            && from + n !in buffer
    decreases |buffer|
  {
    if from in buffer {
      var rest := buffer - {from};
      RunIsSegments(rest, from + 1, segs);
      var n := |Run(rest, from + 1)|;
      assert Run(buffer, from) == [segs[from]] + Run(rest, from + 1);
      assert segs[from..from + 1 + n] == [segs[from]] + segs[from + 1..from + 1 + n];
    }
  }

  lemma {:induction false} RunEndsInBuffer(buffer: map<nat, seq<byte>>, from: nat)
    ensures var n := |Run(buffer, from)|; n > 0 ==> from + n - 1 in buffer
    decreases |buffer|
  {
    if from in buffer {
      RunEndsInBuffer(buffer - {from}, from + 1);
    }
  }

  lemma OnDataKeeps(r: Receiver, delivered: seq<byte>, s: Sender, segs: seq<seq<byte>>, f: Frame, q: nat)
    requires ReceiverInv(r, delivered, s, segs) && IsSegment(f, segs, q) && |segs| <= r.expectedSeq + 256
    ensures var (t, out, ackFrame) := OnData(r, f);
            && ReceiverInv(t, delivered + Concat(out), s, segs) && t.expectedSeq >= r.expectedSeq
            && ackFrame == Frame(FRAME_ACK, 0, t.expectedSeq, DEFAULT_RWND, [])
  {
    NoConfusion(q, r.expectedSeq);
    if f.seqNo == r.expectedSeq {
      InOrderKeeps(r, delivered, s, segs, f);
    } else {
      assert OnData(r, f).1 == [] && delivered + [] == delivered;
      hide Run;
    }
  }

  lemma InOrderKeeps(r: Receiver, delivered: seq<byte>, s: Sender, segs: seq<seq<byte>>, f: Frame)
    requires ReceiverInv(r, delivered, s, segs)
    requires f.seqNo == r.expectedSeq < |segs| && f.seqNo < 0x1_0000_0000 && f.payload == segs[f.seqNo]
    ensures var (t, out, _) := OnData(r, f);
            ReceiverInv(t, delivered + Concat(out), s, segs) && t.expectedSeq >= r.expectedSeq
  {
    hide Concat;
    var e := r.expectedSeq;
    RunIsSegments(r.outOfOrder, e + 1, segs);
    RunEndsInBuffer(r.outOfOrder, e + 1);
    hide Run;
    var run := Run(r.outOfOrder, e + 1);
    assert segs[..e + 1 + |run|] == segs[..e] + ([f.payload] + run);
    ConcatAppend(segs[..e], [f.payload] + run);
    var t := OnData(r, f).0;
    assert t.expectedSeq == e + 1 + |run| <= 0x1_0000_0000;
    forall q | q in t.outOfOrder
      ensures t.expectedSeq < q < |segs| && q < 0x1_0000_0000 && t.outOfOrder[q] == segs[q]
    {
      assert q in r.outOfOrder && q >= t.expectedSeq;
    }
  }

  /** Receiving a data frame: q answers, and nothing q says to p about its own data changes. */
  lemma DataReceived(p: Peer, q: Peer, data: Wire, acks: Wire, clock: real, buf: seq<byte>)
    requires Flow(p, q, data, acks, clock) && buf in data
    requires Decode(buf).Some? && Decode(buf).value.kind == FRAME_DATA
    ensures var (r, out, ackFrame) := OnData(q.end.receiver, Decode(buf).value);
            Flow(p, q.(end := q.end.(receiver := r), delivered := q.delivered + Concat(out)),
                 data, acks + OnWire([ackFrame]), clock)
            && ackFrame.kind == FRAME_ACK
  {
    hide SenderInv, ReceiverInv, OnData;
    var f := Decode(buf).value;
    var i: nat :| IsSegment(f, p.segs, i);
    WindowBound(p, q, clock);
    OnDataKeeps(q.end.receiver, q.delivered, p.end.sender, p.segs, f, i);
    var (r, out, ackFrame) := OnData(q.end.receiver, f);
    AcksStay(acks, ackFrame, q.end.receiver.expectedSeq, r.expectedSeq);
  }

  lemma WindowBound(p: Peer, q: Peer, clock: real)
    requires ReceiverInv(q.end.receiver, q.delivered, p.end.sender, p.segs)
    requires SenderInv(p.end.sender, p.segs, p.accepted, clock)
    ensures |p.segs| <= q.end.receiver.expectedSeq + 256
    ensures q.end.receiver.expectedSeq <= p.end.sender.nextSeq
  {
  }

  // ---------- the sending side ----------

  /** What a step of p's sender must achieve, whatever the event was. */
  ghost predicate SenderStep(p: Peer, p': Peer, frames: seq<Frame>, q: Peer, now: real) {
    && SenderInv(p'.end.sender, p'.segs, p'.accepted, now)
    && p.segs <= p'.segs && Genuine(frames, p'.segs)
    && p'.end.sender.highestAck <= q.end.receiver.expectedSeq
    && p'.end.receiver == p.end.receiver && p'.delivered == p.delivered
  }

  lemma SenderStepKeepsFlow(p: Peer, p': Peer, frames: seq<Frame>, q: Peer, data: Wire, acks: Wire, clock: real,
                            now: real)
    requires Flow(p, q, data, acks, clock) && SenderStep(p, p', frames, q, now)
    ensures Flow(p', q, data + OnWire(frames), acks, now)
  {
    var more := p'.segs[|p.segs|..];
    assert p'.segs == p.segs + more;
    DataStays(data, frames, p.segs, more);
    assert p'.segs[..q.end.receiver.expectedSeq] == p.segs[..q.end.receiver.expectedSeq];
    hide SenderInv, DataOnWire, AcksOnWire, Genuine, Concat, OnWire;
  }

  lemma {:induction false} EnqueueAllKeeps(s: Sender, payloads: seq<seq<byte>>, segs: seq<seq<byte>>,
                                           accepted: seq<byte>, clock: real, now: real)
      returns (released: seq<seq<byte>>)
    requires SenderInv(s, segs, accepted, clock) && 0.0 <= clock <= now
    requires forall i :: 0 <= i < |payloads| ==> payloads[i] != []
    ensures var (t, frames) := EnqueueAll(s, payloads, now);
            && SenderInv(t, segs + released, accepted + Concat(payloads), now)
            && Genuine(frames, segs + released)
            && released + t.sendQueue == s.sendQueue + payloads
            && t.highestAck == s.highestAck
    decreases |payloads|
  {
    hide Enqueue, Concat;
    if payloads == [] {
      released := [];
      ConcatNone(payloads);
      assert segs + [] == segs && accepted + Concat(payloads) == accepted;
      AdvanceClock(s, segs, accepted, clock, now);
      hide SenderInv;
    } else {
      hide SenderInv;
      var first := EnqueueKeeps(s, payloads[0], segs, accepted, clock, now);
      var (t, sent) := Enqueue(s, payloads[0], now);
      var rest := EnqueueAllKeeps(t, payloads[1..], segs + first, accepted + payloads[0], now, now);
      released := first + rest;
      assert segs + released == segs + first + rest;
      ConcatAppend([payloads[0]], payloads[1..]);
      assert [payloads[0]] + payloads[1..] == payloads;
      ConcatOne(payloads[0]);
      assert accepted + payloads[0] + Concat(payloads[1..]) == accepted + Concat(payloads);
      assert first + rest + EnqueueAll(s, payloads, now).0.sendQueue == first + (t.sendQueue + payloads[1..]);
      assert first + (t.sendQueue + payloads[1..]) == s.sendQueue + [payloads[0]] + payloads[1..];
      GenuineStays(sent, segs + first, rest);
    }
  }

  lemma GenuineStays(frames: seq<Frame>, segs: seq<seq<byte>>, more: seq<seq<byte>>)
    requires Genuine(frames, segs)
    ensures Genuine(frames, segs + more)
  {
  }

  lemma AdvanceClock(s: Sender, segs: seq<seq<byte>>, accepted: seq<byte>, clock: real, now: real)
    requires SenderInv(s, segs, accepted, clock) && clock <= now
    ensures SenderInv(s, segs, accepted, now)
  {
  }

  lemma SendStep(p: Peer, bytes: seq<byte>, q: Peer, clock: real, now: real)
    requires SenderInv(p.end.sender, p.segs, p.accepted, clock) && 0.0 <= clock <= now
    requires p.end.sender.highestAck <= q.end.receiver.expectedSeq
    ensures var (p', frames) := Act(p, Send(bytes), now); SenderStep(p, p', frames, q, now)
  {
    hide EnqueueAll, Genuine, Segments;
    var s := p.end.sender;
    SegmentsCover(bytes);
    var released := EnqueueAllKeeps(s, Segments(bytes), p.segs, p.accepted, clock, now);
    var (t, frames) := EnqueueAll(s, Segments(bytes), now);
    NumberedIsReleased(p, s.sendQueue + Segments(bytes), t, released, clock, now, p.accepted + bytes);
  }

  /** The lemma's `released` payloads are the ones the history records. */
  lemma NumberedIsReleased(p: Peer, queued: seq<seq<byte>>, t: Sender, released: seq<seq<byte>>, clock: real,
                           now: real, accepted: seq<byte>)
    requires SenderInv(p.end.sender, p.segs, p.accepted, clock)
    requires SenderInv(t, p.segs + released, accepted, now) && released + t.sendQueue == queued
    ensures NewlyNumbered(p, queued, t) == released
  {
    assert queued[..|released|] == released;
  }

  lemma TimerStep(p: Peer, q: Peer, clock: real, now: real)
    requires SenderInv(p.end.sender, p.segs, p.accepted, clock) && 0.0 <= clock <= now
    requires p.end.sender.highestAck <= q.end.receiver.expectedSeq
    ensures var (p', frames) := Act(p, Timer, now); SenderStep(p, p', frames, q, now)
  {
    hide Tick, SenderInv, Genuine;
    TickKeeps(p.end.sender, p.segs, p.accepted, clock, now);
  }

  lemma AckInWindow(buf: seq<byte>, acks: Wire, expected: nat)
    requires AcksOnWire(acks, expected) && buf in acks
    requires Decode(buf).Some? && Decode(buf).value.kind == FRAME_ACK
    ensures Decode(buf).value.ack <= expected && Decode(buf).value.window == DEFAULT_RWND
  {
    var e: nat :| e <= expected && IsAck(Decode(buf).value, e);
  }

  lemma AckStep(p: Peer, buf: seq<byte>, q: Peer, acks: Wire, clock: real, now: real)
    requires SenderInv(p.end.sender, p.segs, p.accepted, clock) && 0.0 <= clock <= now
    requires p.end.sender.highestAck <= q.end.receiver.expectedSeq <= |p.segs|
    requires AcksOnWire(acks, q.end.receiver.expectedSeq) && buf in acks
    requires Decode(buf).Some? && Decode(buf).value.kind == FRAME_ACK
    ensures var (p', frames) := Act(p, Receive(buf), now); SenderStep(p, p', frames, q, now)
  {
    hide OnAck, Genuine, Decode;
    var s, f := p.end.sender, Decode(buf).value;
    AckInWindow(buf, acks, q.end.receiver.expectedSeq);
    var released := AckKeeps(s, f.ack, p.segs, p.accepted, clock, now);
    var (t, frames) := OnAck(s, f.ack, f.window, now);
    NumberedIsReleased(p, s.sendQueue, t, released, clock, now, p.accepted);
    hide SenderInv;
    assert p.delivered + [] == p.delivered;
  }

  /** A step of p's sender leaves the flow from q to p as it was. */
  lemma SenderStepKeepsOtherFlow(p: Peer, p': Peer, frames: seq<Frame>, q: Peer, data: Wire, acks: Wire, clock: real,
                                 now: real)
    requires Flow(q, p, data, acks, clock) && SenderStep(p, p', frames, q, now) && clock <= now
    ensures Flow(q, p', data, acks + OnWire(frames), now)
  {
    AdvanceClock(q.end.sender, q.segs, q.accepted, clock, now);
    AcksIgnoreData(acks, frames, p'.segs, p.end.receiver.expectedSeq);
    hide SenderInv, DataOnWire, AcksOnWire, Genuine, OnWire, Concat;
  }

  lemma ActKeeps(p: Peer, q: Peer, toP: Wire, toQ: Wire, ev: Event, clock: real, now: real)
    requires 0.0 <= clock <= now && (ev.Receive? ==> ev.buf in toP)
    requires Flow(p, q, toQ, toP, clock) && Flow(q, p, toP, toQ, clock)
    ensures var (p', frames) := Act(p, ev, now);
            Flow(p', q, toQ + OnWire(frames), toP, now) && Flow(q, p', toP, toQ + OnWire(frames), now)
  {
    hide SenderInv, DataOnWire, AcksOnWire, Genuine, OnWire, Concat, Decode;
    var (p', frames) := Act(p, ev, now);
    if ev.Receive? && Decode(ev.buf).Some? && Decode(ev.buf).value.kind == FRAME_DATA {
      DataStep(p, q, toP, toQ, ev.buf, clock, now);
    } else if ev.Receive? && !(Decode(ev.buf).Some? && Decode(ev.buf).value.kind == FRAME_ACK) {
      IgnoredStep(p, q, toP, toQ, ev.buf, clock, now);
    } else {
      match ev {
        case Send(bytes) => SendStep(p, bytes, q, clock, now);
        case Timer => TimerStep(p, q, clock, now);
        case Receive(buf) => AckStep(p, buf, q, toP, clock, now);
      }
      hide Act;
      SenderStepKeepsFlow(p, p', frames, q, toQ, toP, clock, now);
      SenderStepKeepsOtherFlow(p, p', frames, q, toP, toQ, clock, now);
    }
  }

  lemma DataStep(p: Peer, q: Peer, toP: Wire, toQ: Wire, buf: seq<byte>, clock: real, now: real)
    requires clock <= now && buf in toP && Decode(buf).Some? && Decode(buf).value.kind == FRAME_DATA
    requires Flow(p, q, toQ, toP, clock) && Flow(q, p, toP, toQ, clock)
    ensures var (p', frames) := Act(p, Receive(buf), now);
            Flow(p', q, toQ + OnWire(frames), toP, now) && Flow(q, p', toP, toQ + OnWire(frames), now)
  {
    DataReceived(q, p, toP, toQ, clock, buf);
    var (r, out, ackFrame) := OnData(p.end.receiver, Decode(buf).value);
    DataIgnoresAcks(toQ, ackFrame, p.segs);
    AdvanceClock(p.end.sender, p.segs, p.accepted, clock, now);
    AdvanceClock(q.end.sender, q.segs, q.accepted, clock, now);
    assert p.segs + [] == p.segs;
    hide SenderInv, ReceiverInv, DataOnWire, AcksOnWire, OnData, OnWire, Decode, Concat;
  }

  lemma IgnoredStep(p: Peer, q: Peer, toP: Wire, toQ: Wire, buf: seq<byte>, clock: real, now: real)
    requires clock <= now && (Decode(buf).None? || Decode(buf).value.kind !in {FRAME_DATA, FRAME_ACK})
    requires Flow(p, q, toQ, toP, clock) && Flow(q, p, toP, toQ, clock)
    ensures var (p', frames) := Act(p, Receive(buf), now);
            Flow(p', q, toQ + OnWire(frames), toP, now) && Flow(q, p', toP, toQ + OnWire(frames), now)
  {
    AdvanceClock(p.end.sender, p.segs, p.accepted, clock, now);
    AdvanceClock(q.end.sender, q.segs, q.accepted, clock, now);
    assert p.segs + [] == p.segs && p.delivered + [] == p.delivered && toQ + OnWire([]) == toQ;
    hide SenderInv, ReceiverInv, DataOnWire, AcksOnWire, OnWire, Decode, Concat;
  }

  // ---------- the theorems about runs ----------

  lemma InitialNetInv()
    ensures Inv(INITIAL_NET)
  {
    InitialInv();
    hide SenderInv;
    assert Concat([]) == [];
  }

  lemma StepKeepsInv(n: Net, n': Net)
    requires Inv(n) && Step(n, n')
    ensures Inv(n')
  {
    hide Flow, Act;
    if Loses(n, n') {
      LossKeepsFlow(n.a, n.b, n.toB, n.toA, n'.toB, n'.toA, n.clock);
      LossKeepsFlow(n.b, n.a, n.toA, n.toB, n'.toA, n'.toB, n.clock);
    } else {
      var ev, now :| StepA(n, ev, now, n') || StepB(n, ev, now, n');
      if StepA(n, ev, now, n') {
        ActKeeps(n.a, n.b, n.toA, n.toB, ev, n.clock, now);
      } else {
        ActKeeps(n.b, n.a, n.toB, n.toA, ev, n.clock, now);
      }
    }
  }

  lemma LossKeepsFlow(p: Peer, q: Peer, data: Wire, acks: Wire, data': Wire, acks': Wire, clock: real)
    requires Flow(p, q, data, acks, clock) && data' <= data && acks' <= acks
    ensures Flow(p, q, data', acks', clock)
  {
    hide SenderInv, ReceiverInv, Decode;
  }

  lemma {:induction false} RunKeepsInv(run: seq<Net>, i: nat)
    requires IsRun(run) && i < |run|
    ensures Inv(run[i])
  {
    if i == 0 {
      InitialNetInv();
    } else {
      RunKeepsInv(run, i - 1);
      StepKeepsInv(run[i - 1], run[i]);
    }
  }

  /** Reliable, in-order delivery: in every run, what the application receives is a prefix of what the
      other side's application sent. */
  lemma DeliveredIsPrefix(run: seq<Net>, i: nat)
    requires IsRun(run) && i < |run|
    ensures run[i].b.delivered <= run[i].a.accepted
    ensures run[i].a.delivered <= run[i].b.accepted
  {
    RunKeepsInv(run, i);
    FlowIsPrefix(run[i].a, run[i].b, run[i].toB, run[i].toA, run[i].clock);
    FlowIsPrefix(run[i].b, run[i].a, run[i].toA, run[i].toB, run[i].clock);
  }

  lemma FlowIsPrefix(p: Peer, q: Peer, data: Wire, acks: Wire, clock: real)
    requires Flow(p, q, data, acks, clock)
    ensures q.delivered <= p.accepted
  {
    hide Concat;
    SplitConcat(p.segs, q.end.receiver.expectedSeq);
  }

  ghost predicate InFlight(s: Sender, q: nat) {
    exists i :: 0 <= i < |s.inFlight| && s.inFlight[i].seqNo == q
  }

  /** How the two ends of one direction agree about the window. */
  ghost predicate Agreement(s: Sender, r: Receiver) {
    && (forall q: nat :: InFlight(s, q) <==> s.highestAck <= q < s.nextSeq)
    && s.highestAck <= r.expectedSeq <= s.nextSeq
    && |s.inFlight| == s.nextSeq - s.highestAck <= 256
    && |r.outOfOrder| <= 255
  }

  lemma WindowsAgree(run: seq<Net>, i: nat)
    requires IsRun(run) && i < |run|
    ensures Agreement(run[i].a.end.sender, run[i].b.end.receiver)
    ensures Agreement(run[i].b.end.sender, run[i].a.end.receiver)
  {
    RunKeepsInv(run, i);
    FlowAgrees(run[i].a, run[i].b, run[i].toB, run[i].toA, run[i].clock);
    FlowAgrees(run[i].b, run[i].a, run[i].toA, run[i].toB, run[i].clock);
  }

  lemma FlowAgrees(p: Peer, q: Peer, data: Wire, acks: Wire, clock: real)
    requires Flow(p, q, data, acks, clock)
    ensures Agreement(p.end.sender, q.end.receiver)
  {
    var s, r := p.end.sender, q.end.receiver;
    hide Concat, Accounts, Congestion, Timing, DataOnWire, AcksOnWire;
    forall q: nat ensures InFlight(s, q) <==> s.highestAck <= q < s.nextSeq {
      if s.highestAck <= q < s.nextSeq {
        assert s.inFlight[q - s.highestAck].seqNo == q;
      }
    }
    var free := Interval(r.expectedSeq + 1, s.nextSeq);
    var keys: set<int> := r.outOfOrder.Keys;
    if r.expectedSeq < s.nextSeq {
      IntervalSize(r.expectedSeq + 1, s.nextSeq);
    }
    SubsetSize(keys, free);
  }

  /** Byte and retransmission accounting, and the limits of the congestion and timer state. */
  ghost predicate Sane(s: Sender, clock: real) {
    && s.bytesSent == s.bytesAcked + |Concat(Payloads(s.inFlight))|
    && s.retransmits == s.fastRetransmits + s.rtoExpiries
    && s.cwnd >= 1.0 && s.ssthresh >= 2.0
    && (s.mode.FastRecovery? ==> s.cwnd == s.ssthresh + 3.0)
    && (s.mode.CongAvoid? ==> s.cwnd >= s.ssthresh)
    && (s.mode.SlowStart? ==> s.cwnd < s.ssthresh + 256.0)
    && 100.0 <= s.rto <= 30000.0 && 0.0 <= s.srtt <= clock && 0.0 <= s.rttVar <= clock
  }

  lemma SendersStaySane(run: seq<Net>, i: nat)
    requires IsRun(run) && i < |run|
    ensures Sane(run[i].a.end.sender, run[i].clock) && Sane(run[i].b.end.sender, run[i].clock)
  {
    RunKeepsInv(run, i);
    hide Concat, Window;
  }

  ghost predicate DeliveredUpToWrap(p: Peer, q: Peer) {
    var n := q.end.receiver.expectedSeq;
    n <= |p.segs| && n <= 0x1_0000_0000 && q.delivered == Concat(p.segs[..n])
  }

  /** The code does not handle the wrap of its 32-bit numbers: whatever is sent, no segment from the
      2^32nd on is ever delivered. */
  lemma NothingDeliveredPastWrap(run: seq<Net>, i: nat)
    requires IsRun(run) && i < |run|
    ensures DeliveredUpToWrap(run[i].a, run[i].b) && DeliveredUpToWrap(run[i].b, run[i].a)
  {
    RunKeepsInv(run, i);
    hide Concat, SenderInv, DataOnWire, AcksOnWire;
  }
}
