/** What every step of a sender keeps: the window, the byte accounting, the congestion state machine
    and the timer estimates. `segs` lists every payload that was ever given a sequence number, and
    `accepted` is everything the application handed over. */
module ArpInvariants {
  import opened Bits
  import opened Buffers
  import opened ArpFrames
  import opened ArpSpec

  ghost function First(s: Sender): int {
    s.nextSeq - |s.inFlight|
  }

  /** The segments in flight are exactly those from the highest acknowledgement on. */
  ghost predicate Window(s: Sender, segs: seq<seq<byte>>) {
    && Contiguous(s) && s.highestAck == First(s) && |segs| == s.nextSeq
    && s.rwnd == DEFAULT_RWND && |s.inFlight| <= DEFAULT_RWND
    && forall i :: 0 <= i < |s.inFlight| ==> s.inFlight[i].payload == segs[First(s) + i]
  }

  ghost predicate Accounts(s: Sender, segs: seq<seq<byte>>, accepted: seq<byte>) {
    && accepted == Concat(segs) + Concat(s.sendQueue)
    && s.bytesSent == |Concat(segs)|
    && s.bytesSent == s.bytesAcked + |Concat(Payloads(s.inFlight))|
    && s.retransmits == s.fastRetransmits + s.rtoExpiries
  }

  ghost predicate Congestion(s: Sender) {
    && s.cwnd >= 1.0 && s.ssthresh >= 2.0
    && (s.mode.FastRecovery? ==> s.cwnd == s.ssthresh + 3.0)
    && (s.mode.CongAvoid? ==> s.cwnd >= s.ssthresh)
    && (s.mode.SlowStart? ==> s.cwnd < s.ssthresh + 256.0)
  }

  /** Send times lie in the past, and the estimates never exceed the largest possible sample. */
  ghost predicate Timing(s: Sender, clock: real) {
    && (forall i :: 0 <= i < |s.inFlight| ==> 0.0 <= s.inFlight[i].sentAt <= clock)
    && 0.0 <= s.srtt <= clock && 0.0 <= s.rttVar <= clock
    && MIN_RTO_MS <= s.rto <= MAX_RTO_MS
  }

  ghost predicate SenderInv(s: Sender, segs: seq<seq<byte>>, accepted: seq<byte>, clock: real) {
    Window(s, segs) && Accounts(s, segs, accepted) && Congestion(s) && Timing(s, clock)
  }

  /** Every frame carries the payload its sequence number stands for. */
  ghost predicate Genuine(frames: seq<Frame>, segs: seq<seq<byte>>) {
    forall f :: f in frames ==> f.kind == FRAME_DATA && f.seqNo < |segs| && f.payload == segs[f.seqNo]
  }

  lemma InitialInv()
    ensures SenderInv(INITIAL_SENDER, [], [], 0.0)
  {
    hide Window, Accounts, Congestion, Timing;
    var s := INITIAL_SENDER;
    InitialNumbers(s);
    InitialAccounts(s, [], []);
  }

  lemma InitialNumbers(s: Sender)
    requires s == INITIAL_SENDER
    ensures Window(s, []) && Congestion(s) && Timing(s, 0.0)
  {
  }

  lemma InitialAccounts(s: Sender, segs: seq<seq<byte>>, accepted: seq<byte>)
    requires s == INITIAL_SENDER && |segs| == |accepted| == 0
    ensures Accounts(s, segs, accepted)
  {
    assert Concat(segs) == [] && Concat(s.sendQueue) == [] && Concat(Payloads(s.inFlight)) == [];
  }

  lemma {:induction false} PayloadsAppend(a: seq<Segment>, b: seq<Segment>)
    ensures Payloads(a + b) == Payloads(a) + Payloads(b)
  {
  }

  lemma SplitConcat(parts: seq<seq<byte>>, n: nat)
    requires n <= |parts|
    ensures Concat(parts) == Concat(parts[..n]) + Concat(parts[n..])
  {
    ConcatAppend(parts[..n], parts[n..]);
    assert parts[..n] + parts[n..] == parts;
  }

  lemma SplitPayloads(segments: seq<Segment>, n: nat)
    requires n <= |segments|
    ensures Concat(Payloads(segments)) == Concat(Payloads(segments[..n])) + Concat(Payloads(segments[n..]))
  {
    PayloadsAppend(segments[..n], segments[n..]);
    assert segments[..n] + segments[n..] == segments;
    ConcatAppend(Payloads(segments[..n]), Payloads(segments[n..]));
  }

  // ---------- sending ----------

  lemma CeilBound(x: real, n: int)
    requires x <= n as real
    ensures Ceil(x) <= n
  {
  }

  lemma PumpKeeps(s: Sender, segs: seq<seq<byte>>, accepted: seq<byte>, clock: real, now: real)
    requires SenderInv(s, segs, accepted, clock) && 0.0 <= clock <= now
    ensures var released := s.sendQueue[..Sendable(s)];
            && SenderInv(Pumped(s, now), segs + released, accepted, now)
            && Genuine(PumpedFrames(s), segs + released)
  {
    CeilBound(MinReal(s.cwnd, s.rwnd as real), DEFAULT_RWND);
    ReleaseKeeps(s, segs, accepted, Sendable(s), now);
  }

  lemma ReleaseKeeps(s: Sender, segs: seq<seq<byte>>, accepted: seq<byte>, n: nat, now: real)
    requires Window(s, segs) && Accounts(s, segs, accepted) && n <= |s.sendQueue|
    requires n > 0 ==> |s.inFlight| + n <= DEFAULT_RWND
    ensures var t := Released(s, n, now);
            Window(t, segs + s.sendQueue[..n]) && Accounts(t, segs + s.sendQueue[..n], accepted)
    ensures Genuine(ReleasedFrames(s, n), segs + s.sendQueue[..n])
  {
    hide Concat;
    var released := s.sendQueue[..n];
    var added := Fresh(released, s.nextSeq, now);
    ConcatAppend(segs, released);
    SplitConcat(s.sendQueue, n);
    PayloadsAppend(s.inFlight, added);
    assert Payloads(added) == released;
    ConcatAppend(Payloads(s.inFlight), released);
  }

  lemma QueueKeeps(s: Sender, payload: seq<byte>, segs: seq<seq<byte>>, accepted: seq<byte>, clock: real)
    requires SenderInv(s, segs, accepted, clock)
    ensures SenderInv(Enqueued(s, payload), segs, accepted + payload, clock)
  {
    QueueAccounts(s, payload, segs, accepted);
    hide Accounts, Congestion;
  }

  lemma QueueAccounts(s: Sender, payload: seq<byte>, segs: seq<seq<byte>>, accepted: seq<byte>)
    requires Accounts(s, segs, accepted)
    ensures Accounts(Enqueued(s, payload), segs, accepted + payload)
  {
    ConcatAppend(s.sendQueue, [payload]);
    assert Concat([payload]) == payload;
    hide Concat;
  }

  lemma EnqueueKeeps(s: Sender, payload: seq<byte>, segs: seq<seq<byte>>, accepted: seq<byte>, clock: real, now: real)
      returns (released: seq<seq<byte>>)
    requires SenderInv(s, segs, accepted, clock) && 0.0 <= clock <= now
    ensures var (t, frames) := Enqueue(s, payload, now);
            && SenderInv(t, segs + released, accepted + payload, now)
            && Genuine(frames, segs + released)
            && released + t.sendQueue == s.sendQueue + (if payload == [] then [] else [payload])
            && t.highestAck == s.highestAck
  {
    if payload == [] {
      released := [];
      assert segs + [] == segs && accepted + payload == accepted;
      assert Timing(s, now);
      hide Concat;
    } else {
      var q := Enqueued(s, payload);
      QueueKeeps(s, payload, segs, accepted, clock);
      PumpKeeps(q, segs, accepted + payload, clock, now);
      PumpedTakesQueue(q, now);
      hide SenderInv, Pumped, PumpedFrames, Genuine, Sendable;
      released := q.sendQueue[..Sendable(q)];
    }
  }

  // ---------- acknowledgements ----------

  lemma {:induction false} SamplesKeepRange(s: Sender, acked: seq<Segment>, now: real)
    requires 0.0 <= s.srtt <= now && 0.0 <= s.rttVar <= now && MIN_RTO_MS <= s.rto <= MAX_RTO_MS
    requires forall i :: 0 <= i < |acked| ==> 0.0 <= acked[i].sentAt <= now
    ensures var t := SampleRtts(s, acked, now);
            && t == s.(srtt := t.srtt, rttVar := t.rttVar, rto := t.rto)
            && 0.0 <= t.srtt <= now && 0.0 <= t.rttVar <= now && MIN_RTO_MS <= t.rto <= MAX_RTO_MS
  {
    if acked != [] {
      var front, last := acked[..|acked| - 1], acked[|acked| - 1];
      SamplesKeepRange(s, front, now);
      SampleKeepsRange(SampleRtts(s, front, now), now - last.sentAt, now);
    }
  }

  /** A sample in [0, bound] keeps both estimates in [0, bound] and the timer in its limits. */
  lemma SampleKeepsRange(s: Sender, sample: real, bound: real)
    requires 0.0 <= sample <= bound && 0.0 <= s.srtt <= bound && 0.0 <= s.rttVar <= bound
    ensures var t := UpdateRtt(s, sample);
            && t == s.(srtt := t.srtt, rttVar := t.rttVar, rto := t.rto)
            && 0.0 <= t.srtt <= bound && 0.0 <= t.rttVar <= bound && MIN_RTO_MS <= t.rto <= MAX_RTO_MS
  {
  }

  lemma AcceptKeeps(s: Sender, cumAck: nat, segs: seq<seq<byte>>, accepted: seq<byte>, clock: real, now: real)
    requires SenderInv(s, segs, accepted, clock) && 0.0 <= clock <= now && cumAck <= s.nextSeq
    ensures var t := Accepted(s, cumAck, now);
            && SenderInv(t, segs, accepted, now)
            && t.highestAck == (if cumAck < s.highestAck then s.highestAck else cumAck)
            && AckedCount(s, cumAck) == t.highestAck - s.highestAck
            && t.sendQueue == s.sendQueue && t.cwnd == s.cwnd && t.ssthresh == s.ssthresh && t.mode == s.mode
  {
    hide Concat, UpdateRtt;
    if cumAck > s.highestAck {
      var n := AckedCount(s, cumAck);
      SamplesKeepRange(s, s.inFlight[..n], now);
      SplitPayloads(s.inFlight, n);
      hide SampleRtts;
    }
  }

  lemma GrowKeeps(s: Sender, n: nat, cumAck: nat, segs: seq<seq<byte>>, accepted: seq<byte>, now: real)
    requires SenderInv(s, segs, accepted, now) && n <= DEFAULT_RWND
    ensures SenderInv(Grown(s, n, cumAck), segs, accepted, now)
  {
    hide Concat;
    assert AdditiveIncrease(s.cwnd, n) >= 0.0 && AdditiveIncrease(s.ssthresh, n) >= 0.0;
    hide AdditiveIncrease;
  }

  lemma RetransmitKeeps(s: Sender, i: nat, segs: seq<seq<byte>>, accepted: seq<byte>, clock: real, now: real)
    requires Window(s, segs) && Timing(s, clock) && 0.0 <= clock <= now && i < |s.inFlight|
    requires Accounts(s.(retransmits := s.retransmits + 1), segs, accepted)
    ensures var (t, frames) := Retransmit(s, i, now);
            Window(t, segs) && Accounts(t, segs, accepted) && Timing(t, now) && Genuine(frames, segs)
  {
    hide Concat;
    var (t, frames) := Retransmit(s, i, now);
    assert Payloads(t.inFlight) == Payloads(s.inFlight);
  }

  lemma DuplicateKeeps(s: Sender, cumAck: nat, segs: seq<seq<byte>>, accepted: seq<byte>, clock: real, now: real)
    requires SenderInv(s, segs, accepted, clock) && 0.0 <= clock <= now
    ensures var (t, frames) := DuplicateAck(s, cumAck, now);
            && SenderInv(t, segs, accepted, now) && Genuine(frames, segs)
            && t.highestAck == s.highestAck && t.sendQueue == s.sendQueue && t.nextSeq == s.nextSeq
  {
    hide Concat;
    var counted := if cumAck == s.lastDupAckSeq then s.(dupAcks := s.dupAcks + 1)
                   else s.(dupAcks := 1, lastDupAckSeq := cumAck);
    var i := cumAck - First(s);
    if counted.dupAcks == DUP_ACK_THRESHOLD && 0 <= i < |s.inFlight| {
      var half := HalvedWindow(s.cwnd);
      var r := counted.(ssthresh := half, cwnd := half + DUP_ACK_THRESHOLD as real, mode := FastRecovery,
                        fastRetransmits := counted.fastRetransmits + 1);
      RetransmitKeeps(r, i, segs, accepted, clock, now);
      hide HalvedWindow;
    }
  }

  lemma AckKeeps(s: Sender, cumAck: nat, segs: seq<seq<byte>>, accepted: seq<byte>, clock: real, now: real)
      returns (released: seq<seq<byte>>)
    requires SenderInv(s, segs, accepted, clock) && 0.0 <= clock <= now && cumAck <= s.nextSeq
    ensures var (t, frames) := OnAck(s, cumAck, DEFAULT_RWND, now);
            && SenderInv(t, segs + released, accepted, now)
            && Genuine(frames, segs + released) && released + t.sendQueue == s.sendQueue
            && t.highestAck == if cumAck < s.highestAck then s.highestAck else cumAck
  {
    hide Accepted, Grown, DuplicateAck, Pumped, PumpedFrames;
    var n, t := AckedCount(s, cumAck), Accepted(s, cumAck, now);
    AcceptKeeps(s, cumAck, segs, accepted, clock, now);
    released := [];
    assert segs + [] == segs;
    hide Concat, AckedCount;
    if n > 0 {
      var g := Grown(t, n, cumAck);
      GrowKeeps(t, n, cumAck, segs, accepted, now);
      GrownKeepsQueue(t, n, cumAck);
      PumpKeeps(g, segs, accepted, now, now);
      PumpedTakesQueue(g, now);
      released := g.sendQueue[..Sendable(g)];
    } else if t.inFlight != [] {
      DuplicateKeeps(t, cumAck, segs, accepted, now, now);
    }
  }

  lemma GrownKeepsQueue(s: Sender, n: nat, cumAck: nat)
    ensures var t := Grown(s, n, cumAck); t.highestAck == s.highestAck && t.sendQueue == s.sendQueue
  {
  }

  lemma PumpedTakesQueue(s: Sender, now: real)
    ensures var t := Pumped(s, now);
            t.highestAck == s.highestAck && s.sendQueue[..Sendable(s)] + t.sendQueue == s.sendQueue
  {
  }

  // ---------- timeouts ----------

  lemma TickKeeps(s: Sender, segs: seq<seq<byte>>, accepted: seq<byte>, clock: real, now: real)
    requires SenderInv(s, segs, accepted, clock) && 0.0 <= clock <= now
    ensures var (t, frames) := Tick(s, now);
            && SenderInv(t, segs, accepted, now) && Genuine(frames, segs)
            && t.highestAck == s.highestAck && t.sendQueue == s.sendQueue && t.nextSeq == s.nextSeq
  {
    hide Concat;
    if Expires(s, now) {
      assert HalvedWindow(s.cwnd) >= 2.0;
      hide HalvedWindow;
      RetransmitKeeps(TimedOut(s), Oldest(s.inFlight), segs, accepted, clock, now);
    }
  }
}
