/** The sender and the receiver as the objects they are in the source. Each method is proved to take
    the step that module `ArpSpec` defines, and returns the frames it hands to the channel. */
module ArpProtocol {
  import opened Bits
  import opened Buffers
  import opened ArpFrames
  import opened ArpSpec

  class ArpSender {
    var cwnd: real
    var ssthresh: real
    var rttSrtt: real
    var rttVar: real
    var rto: real
    var mode: Mode
    var bytesAcked: nat
    var bytesSent: nat
    var retransmits: nat
    var fastRetransmits: nat
    var rtoExpiries: nat
    var dupAcks: nat
    var inFlight: seq<Segment>
    var sendQueue: seq<seq<byte>>
    var nextSeq: nat
    var highestAck: nat
    var lastDupAckSeq: int
    var rwnd: nat

    function State(): Sender
      reads this
    {
      Sender(cwnd, ssthresh, rttSrtt, rttVar, rto, mode, bytesAcked, bytesSent, retransmits, fastRetransmits,
             rtoExpiries, dupAcks, inFlight, sendQueue, nextSeq, highestAck, lastDupAckSeq, rwnd)
    }

    constructor ()
      ensures State() == INITIAL_SENDER
    {
      cwnd, ssthresh, rttSrtt, rttVar, rto := INITIAL_CWND, INITIAL_SSTHRESH, 0.0, 0.0, INITIAL_RTO_MS;
      mode := SlowStart;
      bytesAcked, bytesSent, retransmits, fastRetransmits, rtoExpiries, dupAcks := 0, 0, 0, 0, 0, 0;
      inFlight, sendQueue, nextSeq, highestAck, lastDupAckSeq, rwnd := [], [], 0, 0, -1, DEFAULT_RWND;
    }

    method Enqueue(payload: seq<byte>, now: real) returns (frames: seq<Frame>)
      modifies this
      ensures (State(), frames) == ArpSpec.Enqueue(old(State()), payload, now)
    {
      if payload == [] { return []; }
      sendQueue := sendQueue + [payload];
      frames := Pump(now);
    }

    /** Sends as many fresh segments as the windows allow. */
    method Pump(now: real) returns (frames: seq<Frame>)
      modifies this
      ensures State() == Pumped(old(State()), now)
      ensures frames == PumpedFrames(old(State()))
    {
      hide Released, ReleasedFrames, Sendable;
      ghost var s, i := State(), 0;
      var window := MinReal(cwnd, rwnd as real);
      frames := [];
      ReleaseNone(s, now);
      GuardMeansSendable(s, 0, now);
      while |inFlight| as real < window && |sendQueue| > 0
        invariant i <= Sendable(s) && State() == Released(s, i, now) && frames == ReleasedFrames(s, i)
        invariant |inFlight| as real < window && |sendQueue| > 0 <==> i < Sendable(s)
        decreases |sendQueue|
      {
        ReleaseOne(s, i, now);
        var payload := sendQueue[0];
        sendQueue := sendQueue[1..];
        var seqNo := nextSeq;
        nextSeq := nextSeq + 1;
        inFlight := inFlight + [Segment(seqNo, payload, now, false)];
        frames := frames + [DataFrame(seqNo, payload)];
        bytesSent := bytesSent + |payload|;
        i := i + 1;
        GuardMeansSendable(s, i, now);
      }
    }

    method OnAck(cumulativeAck: nat, advertisedWindow: nat, now: real) returns (frames: seq<Frame>)
      requires Contiguous(State())
      modifies this
      ensures (State(), frames) == ArpSpec.OnAck(old(State()), cumulativeAck, advertisedWindow, now)
    {
      rwnd := if advertisedWindow > 0 then advertisedWindow else DEFAULT_RWND;
      var newlyAckedCount := AcceptCumulativeAck(cumulativeAck, now);
      if newlyAckedCount > 0 {
        GrowWindow(newlyAckedCount, cumulativeAck);
        frames := Pump(now);
        return;
      }
      if |inFlight| == 0 { return []; }
      frames := CountDuplicate(cumulativeAck, now);
    }

    /** Leaves fast recovery, then grows the window by slow start or additively. */
    method GrowWindow(newlyAckedCount: nat, cumulativeAck: nat)
      modifies this
      ensures State() == Grown(old(State()), newlyAckedCount, cumulativeAck)
    {
      if mode == FastRecovery {
        cwnd := ssthresh;
        mode := if cwnd < ssthresh then SlowStart else CongAvoid;
      }
      dupAcks := 0;
      lastDupAckSeq := cumulativeAck;
      if cwnd < ssthresh {
        mode := SlowStart;
        cwnd := cwnd + newlyAckedCount as real;
      } else {
        mode := CongAvoid;
        cwnd := cwnd + newlyAckedCount as real / MaxReal(cwnd, 1.0);
      }
    }

    method CountDuplicate(cumulativeAck: nat, now: real) returns (frames: seq<Frame>)
      requires Contiguous(State())
      modifies this
      ensures (State(), frames) == DuplicateAck(old(State()), cumulativeAck, now)
    {
      if cumulativeAck == lastDupAckSeq {
        dupAcks := dupAcks + 1;
      } else {
        dupAcks := 1;
        lastDupAckSeq := cumulativeAck;
      }
      if dupAcks == DUP_ACK_THRESHOLD {
        frames := FastRetransmit(cumulativeAck, now);
      } else {
        frames := [];
      }
    }

    /** Removes the acknowledged segments, sampling the round trip of those sent once. */
    method AcceptCumulativeAck(cumAck: nat, now: real) returns (acked: nat)
      requires Contiguous(State())
      modifies this
      ensures acked == AckedCount(old(State()), cumAck)
      ensures State() == Accepted(old(State()), cumAck, now) && Contiguous(State())
    {
      if cumAck <= highestAck { return 0; }
      SettledIsAccepted(State(), AckedCount(State(), cumAck), cumAck, now);
      hide Settled, Accepted, AckedCount;
      var kept;
      acked, kept := SettleAcked(cumAck, now);
      inFlight := kept;
      highestAck := cumAck;
    }

    method SettleAcked(cumAck: nat, now: real) returns (acked: nat, kept: seq<Segment>)
      requires Contiguous(State()) && cumAck > highestAck
      modifies this
      ensures acked == AckedCount(old(State()), cumAck) && kept == old(inFlight)[acked..]
      ensures State() == Settled(old(State()), old(inFlight)[..acked], now)
    {
      hide Settled, AckedCount, Contiguous;
      ghost var s, n := State(), AckedCount(State(), cumAck);
      SettleNone(s, now);
      acked, kept := 0, [];
      var segments := inFlight;
      for i := 0 to |segments|
        invariant acked == (if n < i then n else i) && kept == segments[acked..i]
        invariant State() == Settled(s, segments[..acked], now)
      {
        var seg := segments[i];
        AckedAre(s, cumAck, i);
        if seg.seqNo < cumAck {
          SettleOne(s, segments, i, now);
          AckSegment(seg, now);
          acked := acked + 1;
        } else {
          kept := kept + [seg];
        }
      }
    }

    /** Karn's rule: a retransmitted segment gives no round-trip sample. */
    method AckSegment(seg: Segment, now: real)
      modifies this
      ensures var s := old(State());
              State() == (if seg.retransmitted then s else ArpSpec.UpdateRtt(s, now - seg.sentAt)).(
                bytesAcked := s.bytesAcked + |seg.payload|)
    {
      if !seg.retransmitted {
        UpdateRtt(now - seg.sentAt);
      }
      bytesAcked := bytesAcked + |seg.payload|;
    }

    method FastRetransmit(cumAck: nat, now: real) returns (frames: seq<Frame>)
      requires Contiguous(State())
      modifies this
      ensures (State(), frames) == ArpSpec.FastRetransmit(old(State()), cumAck, now)
    {
      var i := Lookup(cumAck);
      if i == -1 { return []; }
      ssthresh := HalvedWindow(cwnd);
      cwnd := ssthresh + DUP_ACK_THRESHOLD as real;
      mode := FastRecovery;
      fastRetransmits := fastRetransmits + 1;
      frames := RetransmitSegment(i, now);
    }

    /** Position of the segment stored under a sequence number, or -1. */
    method Lookup(seqNo: nat) returns (i: int)
      requires Contiguous(State())
      ensures var p := seqNo - (nextSeq - |inFlight|); i == if 0 <= p < |inFlight| then p else -1
    {
      ghost var p := seqNo - (nextSeq - |inFlight|);
      for j := 0 to |inFlight|
        invariant !(0 <= p < j)
      {
        if inFlight[j].seqNo == seqNo { return j; }
      }
      return -1;
    }

    method Tick(now: real) returns (frames: seq<Frame>)
      modifies this
      ensures (State(), frames) == ArpSpec.Tick(old(State()), now)
    {
      hide TimedOut, Retransmit, IsOldest;
      if |inFlight| == 0 { return []; }
      var oldest := FindOldest();
      if now - inFlight[oldest].sentAt < rto { return []; }
      TimeOut();
      frames := RetransmitSegment(oldest, now);
    }

    method TimeOut()
      modifies this
      ensures State() == TimedOut(old(State())) && inFlight == old(inFlight)
    {
      hide HalvedWindow, MinReal, MaxReal;
      ssthresh := HalvedWindow(cwnd);
      cwnd := INITIAL_CWND;
      mode := SlowStart;
      rtoExpiries := rtoExpiries + 1;
      dupAcks := 0;
      rto := MinReal(rto * 2.0, MAX_RTO_MS);
    }

    method FindOldest() returns (oldest: nat)
      requires |inFlight| > 0
      ensures oldest < |inFlight| && oldest == Oldest(inFlight)
    {
      oldest := 0;
      for i := 1 to |inFlight|
        invariant IsOldest(inFlight[..i], oldest)
      {
        if inFlight[i].sentAt < inFlight[oldest].sentAt {
          oldest := i;
        }
      }
      assert inFlight[..|inFlight|] == inFlight;
      OldestIsUnique(inFlight, oldest);
    }

    method RetransmitSegment(i: nat, now: real) returns (frames: seq<Frame>)
      requires i < |inFlight|
      modifies this
      ensures (State(), frames) == Retransmit(old(State()), i, now)
    {
      var seg := inFlight[i].(sentAt := now, retransmitted := true);
      inFlight := inFlight[i := seg];
      retransmits := retransmits + 1;
      frames := [DataFrame(seg.seqNo, seg.payload)];
    }

    method UpdateRtt(sample: real)
      modifies this
      ensures State() == ArpSpec.UpdateRtt(old(State()), sample)
    {
      if rttSrtt == 0.0 {
        rttSrtt := sample;
        rttVar := sample / 2.0;
      } else {
        rttVar := (1.0 - 0.25) * rttVar + 0.25 * (if rttSrtt < sample then sample - rttSrtt else rttSrtt - sample);
        rttSrtt := (1.0 - 0.125) * rttSrtt + 0.125 * sample;
      }
      rto := MinReal(MAX_RTO_MS, MaxReal(MIN_RTO_MS, rttSrtt + 4.0 * rttVar));
    }
  }

  lemma OldestIsUnique(segments: seq<Segment>, i: nat)
    requires IsOldest(segments, i)
    ensures i == Oldest(segments)
  {
    var a, b := segments[i].sentAt, segments[Oldest(segments)].sentAt;
  }

  /** The state once the given segments have been sampled and their bytes counted. */
  ghost function Settled(s: Sender, acked: seq<Segment>, now: real): Sender {
    SampleRtts(s, acked, now).(bytesAcked := s.bytesAcked + |Concat(Payloads(acked))|)
  }

  lemma SettleNone(s: Sender, now: real)
    ensures Settled(s, s.inFlight[..0], now) == s
  {
    assert Payloads(s.inFlight[..0]) == [];
  }

  lemma SettleOne(s: Sender, segments: seq<Segment>, i: nat, now: real)
    requires i < |segments|
    ensures var t, seg := Settled(s, segments[..i], now), segments[i];
            Settled(s, segments[..i + 1], now)
              == (if seg.retransmitted then t else ArpSpec.UpdateRtt(t, now - seg.sentAt)).(
                   bytesAcked := t.bytesAcked + |seg.payload|)
  {
    assert segments[..i + 1][..i] == segments[..i];
    assert Payloads(segments[..i + 1])[..i] == Payloads(segments[..i]);
  }

  /** The acknowledged segments are the first ones. */
  lemma AckedAre(s: Sender, cumAck: nat, i: nat)
    requires Contiguous(s) && i < |s.inFlight| && cumAck > s.highestAck
    ensures s.inFlight[i].seqNo < cumAck <==> i < AckedCount(s, cumAck)
  {
  }

  lemma SettledIsAccepted(s: Sender, n: nat, cumAck: nat, now: real)
    requires cumAck > s.highestAck && n == AckedCount(s, cumAck)
    ensures Accepted(s, cumAck, now)
         == Settled(s, s.inFlight[..n], now).(inFlight := s.inFlight[n..], highestAck := cumAck)
    ensures Contiguous(s) ==> Contiguous(Accepted(s, cumAck, now))
    ensures s.inFlight[n..|s.inFlight|] == s.inFlight[n..]
  {
    SamplesKeep(s, s.inFlight[..n], now);
  }

  lemma ReleaseNone(s: Sender, now: real)
    ensures Released(s, 0, now) == s && ReleasedFrames(s, 0) == []
  {
    assert s.sendQueue[..0] == [] && s.sendQueue[0..] == s.sendQueue;
  }

  /** The guard of the pump loop holds for exactly the first `Sendable(s)` segments. */
  lemma GuardMeansSendable(s: Sender, i: nat, now: real)
    requires i <= Sendable(s)
    ensures var t := Released(s, i, now);
            |t.inFlight| as real < MinReal(s.cwnd, s.rwnd as real) && |t.sendQueue| > 0 <==> i < Sendable(s)
  {
  }

  lemma ReleaseOne(s: Sender, i: nat, now: real)
    requires i < |s.sendQueue|
    ensures var t, payload := Released(s, i, now), s.sendQueue[i];
            && t.sendQueue != [] && t.sendQueue[0] == payload
            && Released(s, i + 1, now) == t.(
                 inFlight := t.inFlight + [Segment(t.nextSeq, payload, now, false)],
                 sendQueue := t.sendQueue[1..], nextSeq := t.nextSeq + 1, bytesSent := t.bytesSent + |payload|)
            && ReleasedFrames(s, i + 1) == ReleasedFrames(s, i) + [DataFrame(t.nextSeq, payload)]
  {
    assert s.sendQueue[..i + 1][..i] == s.sendQueue[..i];
  }

  /** Sampling changes the round-trip estimate and nothing else. */
  lemma {:induction false} SamplesKeep(s: Sender, acked: seq<Segment>, now: real)
    ensures var t := SampleRtts(s, acked, now); t == s.(srtt := t.srtt, rttVar := t.rttVar, rto := t.rto)
  {
    if acked != [] {
      SamplesKeep(s, acked[..|acked| - 1], now);
    }
  }

  class ArpReceiver {
    var expectedSeq: nat
    var bytesDelivered: nat
    var duplicates: nat
    var outOfOrder: map<nat, seq<byte>>
    var rwnd: nat

    function State(): Receiver
      reads this
    {
      Receiver(expectedSeq, bytesDelivered, duplicates, outOfOrder, rwnd)
    }

    constructor ()
      ensures State() == INITIAL_RECEIVER
    {
      expectedSeq, bytesDelivered, duplicates, outOfOrder, rwnd := 0, 0, 0, map[], DEFAULT_RWND;
    }

    /** Delivers what has become contiguous and answers with a cumulative acknowledgement. */
    method OnData(frame: Frame) returns (delivered: seq<seq<byte>>, ackFrame: Frame)
      modifies this
      ensures (State(), delivered, ackFrame) == ArpSpec.OnData(old(State()), frame)
    {
      delivered := [];
      if frame.seqNo < expectedSeq {
        duplicates := duplicates + 1;
      } else if frame.seqNo == expectedSeq {
        bytesDelivered := bytesDelivered + |frame.payload|;
        expectedSeq := expectedSeq + 1;
        var run := Drain();
        delivered := [frame.payload] + run;
        ConcatAppend([frame.payload], run);
        assert Concat([frame.payload]) == frame.payload;
        ghost var r := old(State());
        assert outOfOrder == map q | q in r.outOfOrder && !(r.expectedSeq < q < expectedSeq) :: r.outOfOrder[q];
      } else if frame.seqNo !in outOfOrder {
        outOfOrder := outOfOrder[frame.seqNo := frame.payload];
      }
      ackFrame := Frame(FRAME_ACK, 0, expectedSeq, rwnd, []);
    }
  
    /** Delivers the contiguous run buffered from `expectedSeq` on. */
    method Drain() returns (run: seq<seq<byte>>)
      modifies this
      ensures run == Run(old(outOfOrder), old(expectedSeq)) && expectedSeq == old(expectedSeq) + |run|
      ensures outOfOrder == map q | q in old(outOfOrder) && !(old(expectedSeq) <= q < expectedSeq) :: old(outOfOrder)[q]
      ensures bytesDelivered == old(bytesDelivered) + |Concat(run)|
      ensures duplicates == old(duplicates) && rwnd == old(rwnd)
    {
      run := [];
      while expectedSeq in outOfOrder
        invariant expectedSeq == old(expectedSeq) + |run|
        invariant Run(old(outOfOrder), old(expectedSeq)) == run + Run(outOfOrder, expectedSeq)
        invariant outOfOrder
               == map q | q in old(outOfOrder) && !(old(expectedSeq) <= q < expectedSeq) :: old(outOfOrder)[q]
        invariant bytesDelivered == old(bytesDelivered) + |Concat(run)|
        invariant duplicates == old(duplicates) && rwnd == old(rwnd)
        decreases |outOfOrder|
      {
        var buffered := outOfOrder[expectedSeq];
        outOfOrder := outOfOrder - {expectedSeq};
        run := run + [buffered];
        assert run[..|run| - 1] + [buffered] == run;
        bytesDelivered := bytesDelivered + |buffered|;
        expectedSeq := expectedSeq + 1;
      }
    }
  }
}
