/** What acknowledgements do to the window and to the timer: growth per window of acknowledged data, the
    third duplicate and what follows it, and the closed form of the round-trip estimates. */
module ArpCongestion {
  import opened ArpFrames
  import opened ArpSpec
  import Buffers

  datatype Ack = Ack(number: nat, window: nat, now: real)

  function Acked(s: Sender, acks: seq<Ack>): Sender {
    if acks == [] then s
    else
      var last := acks[|acks| - 1];
      OnAck(Acked(s, acks[..|acks| - 1]), last.number, last.window, last.now).0
  }

  /** Everything numbered is acknowledged or in flight. */
  ghost predicate InStep(s: Sender) {
    s.highestAck + |s.inFlight| == s.nextSeq
  }

  /** Each acknowledges more than the one before, and nothing that was not sent by now. */
  ghost predicate Advancing(s: Sender, acks: seq<Ack>) {
    && (forall i :: 0 <= i < |acks| ==> s.highestAck < acks[i].number <= s.nextSeq)
    && forall i, j :: 0 <= i < j < |acks| ==> acks[i].number < acks[j].number
  }

  /** How much the acknowledgements acknowledge. */
  ghost function Amount(s: Sender, acks: seq<Ack>): (n: nat)
    requires Advancing(s, acks)
    ensures acks == [] <==> n == 0
  {
    if acks == [] then 0 else acks[|acks| - 1].number - s.highestAck
  }

  // ---------- one acknowledgement ----------

  lemma {:induction false} SamplesKeepWindow(s: Sender, acked: seq<Segment>, now: real)
    ensures var t := SampleRtts(s, acked, now);
            t == s.(srtt := t.srtt, rttVar := t.rttVar, rto := t.rto)
  {
    if acked != [] {
      hide UpdateRtt;
      var front, last := acked[..|acked| - 1], acked[|acked| - 1];
      SamplesKeepWindow(s, front, now);
      OneSample(SampleRtts(s, front, now), now - last.sentAt);
    }
  }

  lemma OneSample(s: Sender, sample: real)
    ensures var t := UpdateRtt(s, sample);
            t == s.(srtt := t.srtt, rttVar := t.rttVar, rto := t.rto)
  {
  }

  function Share(n: nat, window: real): real
    requires window > 0.0
  {
    n as real / window
  }

  /** An acknowledgement of n more segments grows the window by n below the threshold, and by n parts of
      a window above it. */
  lemma AckGrows(s: Sender, a: Ack)
    requires InStep(s) && s.highestAck < a.number <= s.nextSeq && !s.mode.FastRecovery?
    ensures var t, n := OnAck(s, a.number, a.window, a.now).0, a.number - s.highestAck;
            && InStep(t) && t.nextSeq >= s.nextSeq && t.highestAck == a.number && !t.mode.FastRecovery?
            && t.ssthresh == s.ssthresh
            && (s.cwnd < s.ssthresh ==> t.cwnd == s.cwnd + n as real)
            && (s.cwnd >= s.ssthresh && s.cwnd >= 1.0 ==> t.cwnd == s.cwnd + Share(n, s.cwnd))
  {
    var r := s.(rwnd := if a.window > 0 then a.window else DEFAULT_RWND);
    var n := AckedCount(r, a.number);
    SamplesKeepWindow(r, r.inFlight[..n], a.now);
    hide SampleRtts, PumpedFrames, Sendable;
  }

  // ---------- a window of acknowledgements ----------

  /** What holds after some acknowledgements outside fast recovery, n segments further on. */
  ghost predicate Onwards(s: Sender, t: Sender, n: nat) {
    && InStep(t) && t.nextSeq >= s.nextSeq && !t.mode.FastRecovery? && t.ssthresh == s.ssthresh
    && t.highestAck == s.highestAck + n
  }

  lemma NoneAcked(s: Sender, acks: seq<Ack>)
    requires acks == [] && Advancing(s, acks) && InStep(s) && !s.mode.FastRecovery?
    ensures Amount(s, acks) == 0 && Acked(s, acks) == s && Onwards(s, s, 0)
  {
  }

  lemma FrontAmount(s: Sender, acks: seq<Ack>)
    requires Advancing(s, acks) && acks != []
    ensures var last := |acks| - 1;
            && Advancing(s, acks[..last]) && s.highestAck < acks[last].number <= s.nextSeq
            && s.highestAck + Amount(s, acks[..last]) < acks[last].number == s.highestAck + Amount(s, acks)
            && Acked(s, acks) == OnAck(Acked(s, acks[..last]), acks[last].number, acks[last].window, acks[last].now).0
  {
    hide OnAck;
  }

  lemma {:induction false} SlowStart(s: Sender, acks: seq<Ack>)
    requires InStep(s) && !s.mode.FastRecovery? && Advancing(s, acks)
    requires s.cwnd + Amount(s, acks) as real <= s.ssthresh
    ensures var t := Acked(s, acks); Onwards(s, t, Amount(s, acks)) && t.cwnd == s.cwnd + Amount(s, acks) as real
  {
    hide *;
    if acks == [] {
      NoneAcked(s, acks);
    } else {
      var last := |acks| - 1;
      FrontAmount(s, acks);
      SlowStart(s, acks[..last]);
      SlowStartGoesOn(s, Acked(s, acks[..last]), Amount(s, acks[..last]), acks[last]);
    }
  }

  lemma SlowStartGoesOn(s: Sender, t: Sender, n: nat, a: Ack)
    requires Onwards(s, t, n) && s.highestAck + n < a.number <= s.nextSeq && t.cwnd == s.cwnd + n as real
    requires s.cwnd + (a.number - s.highestAck) as real <= s.ssthresh
    ensures var u, m := OnAck(t, a.number, a.window, a.now).0, a.number - s.highestAck;
            Onwards(s, u, m) && u.cwnd == s.cwnd + m as real
  {
    AckGrows(t, a);
    hide OnAck;
  }

  /** Below the threshold, acknowledging a full window doubles it. */
  lemma WindowDoubles(s: Sender, acks: seq<Ack>)
    requires InStep(s) && !s.mode.FastRecovery? && Advancing(s, acks)
    requires Amount(s, acks) as real == s.cwnd && 2.0 * s.cwnd <= s.ssthresh
    ensures Acked(s, acks).cwnd == 2.0 * s.cwnd
  {
    SlowStart(s, acks);
  }

  lemma Divides(n: real, x: real, y: real)
    requires 0.0 < x <= y && n >= 0.0
    ensures n / y <= n / x
  {
    var p, q := n / x, n / y;
    assert p * x == n && q * y == n;
    if q > p {
      assert q * x > p * x;
      assert q * y >= q * x;
    }
  }

  lemma SumOfParts(a: real, b: real, x: real)
    requires x > 0.0
    ensures a / x + b / x == (a + b) / x
  {
  }

  lemma AtMostOne(n: real, x: real)
    requires 0.0 <= n <= x && x > 0.0
    ensures n / x <= 1.0
  {
  }

  /** From a window of w, n more segments bring it to x: between what n parts of w + 1 and of w add. */
  ghost predicate GrownBy(w: real, n: real, x: real)
    requires w > 0.0
  {
    w + n / (w + 1.0) <= x <= w + n / w
  }

  lemma GrowthAdds(w: real, n: nat, x: real, more: nat)
    requires w > 0.0 && (n + more) as real <= w && GrownBy(w, n as real, x)
    ensures 0.0 < w <= x && GrownBy(w, (n + more) as real, x + Share(more, x)) && Share(more, x) >= 0.0
  {
    NotNegative(n as real, w + 1.0);
    AtMostOne(n as real, w);
    Divides(more as real, w, x);
    Divides(more as real, x, w + 1.0);
    SumOfParts(n as real, more as real, w);
    SumOfParts(n as real, more as real, w + 1.0);
    NotNegative(more as real, x);
  }

  lemma NoGrowth(w: real)
    requires w > 0.0
    ensures GrownBy(w, 0.0, w)
  {
  }

  lemma NotNegative(n: real, x: real)
    requires n >= 0.0 && x > 0.0
    ensures n / x >= 0.0
  {
  }

  /** Above the threshold, acknowledging up to one window grows it by that part of a window, or just less. */
  lemma {:induction false} CongestionAvoidance(s: Sender, acks: seq<Ack>)
    requires InStep(s) && !s.mode.FastRecovery? && Advancing(s, acks) && s.cwnd >= s.ssthresh && s.cwnd >= 1.0
    requires Amount(s, acks) as real <= s.cwnd
    ensures var t := Acked(s, acks);
            && Onwards(s, t, Amount(s, acks)) && GrownBy(s.cwnd, Amount(s, acks) as real, t.cwnd)
            && t.cwnd >= s.cwnd
  {
    hide *;
    if acks == [] {
      NoneAcked(s, acks);
      NoGrowth(s.cwnd);
    } else {
      var last := |acks| - 1;
      FrontAmount(s, acks);
      CongestionAvoidance(s, acks[..last]);
      AvoidanceGoesOn(s, Acked(s, acks[..last]), Amount(s, acks[..last]), acks[last]);
    }
  }

  lemma AvoidanceGoesOn(s: Sender, t: Sender, n: nat, a: Ack)
    requires s.cwnd >= s.ssthresh && s.cwnd >= 1.0 && t.cwnd >= s.cwnd && Onwards(s, t, n)
    requires GrownBy(s.cwnd, n as real, t.cwnd) && s.highestAck + n < a.number <= s.nextSeq
    requires (a.number - s.highestAck) as real <= s.cwnd
    ensures var u, m := OnAck(t, a.number, a.window, a.now).0, a.number - s.highestAck;
            Onwards(s, u, m) && GrownBy(s.cwnd, m as real, u.cwnd) && u.cwnd >= s.cwnd
  {
    AckGrows(t, a);
    hide OnAck, GrownBy, Share;
    var more := a.number - t.highestAck;
    assert n + more == a.number - s.highestAck;
    GrowthAdds(s.cwnd, n, t.cwnd, more);
  }

  /** At most one segment per window, and at least half of one. */
  lemma OneMorePerWindow(s: Sender, acks: seq<Ack>)
    requires InStep(s) && !s.mode.FastRecovery? && Advancing(s, acks) && s.cwnd >= s.ssthresh && s.cwnd >= 1.0
    requires Amount(s, acks) as real == s.cwnd
    ensures s.cwnd + 0.5 <= Acked(s, acks).cwnd <= s.cwnd + 1.0
  {
    CongestionAvoidance(s, acks);
    hide *;
    BetweenHalfAndOne(s.cwnd, Acked(s, acks).cwnd);
  }

  lemma BetweenHalfAndOne(w: real, x: real)
    requires w >= 1.0 && GrownBy(w, w, x)
    ensures w + 0.5 <= x <= w + 1.0
  {
    HalfAtLeast(w);
  }

  lemma HalfAtLeast(w: real)
    requires w >= 1.0
    ensures w / (w + 1.0) >= 0.5 && w / w == 1.0
  {
    var p := w / (w + 1.0);
    assert p * (w + 1.0) == w;
    assert (p - 0.5) * (w + 1.0) >= 0.0;
  }

  // ---------- duplicates ----------

  /** Half the window, rounded down, but at least two segments. */
  lemma HalvedIsHalf(cwnd: real)
    requires cwnd >= 0.0
    ensures var half := HalvedWindow(cwnd);
            && half == half.Floor as real && half >= 2.0
            && (cwnd >= 4.0 ==> half <= cwnd / 2.0 < half + 1.0) && (cwnd < 4.0 ==> half == 2.0)
  {
  }

  /** The state after the same acknowledgement has come again at these times, and what the last sent. */
  function Repeated(s: Sender, number: nat, window: nat, times: seq<real>): (Sender, seq<Frame>) {
    if times == [] then (s, [])
    else OnAck(Repeated(s, number, window, times[..|times| - 1]).0, number, window, times[|times| - 1])
  }

  /** No duplicate of this number has been counted yet. */
  ghost predicate NoneCounted(s: Sender, number: nat) {
    s.dupAcks == 0 || s.lastDupAckSeq != number
  }

  /** Nor of any other, if it is the newest there is. */
  lemma AdvanceCountsNone(s: Sender, a: Ack)
    requires InStep(s) && s.highestAck < a.number <= s.nextSeq
    ensures NoneCounted(OnAck(s, a.number, a.window, a.now).0, a.number)
  {
    hide SampleRtts, PumpedFrames, Sendable;
  }

  ghost predicate SameNumbers(s: Sender, t: Sender) {
    && t.highestAck == s.highestAck && t.nextSeq == s.nextSeq && t.sendQueue == s.sendQueue
    && |t.inFlight| == |s.inFlight|
    && forall i :: 0 <= i < |s.inFlight| ==>
         t.inFlight[i].seqNo == s.inFlight[i].seqNo && t.inFlight[i].payload == s.inFlight[i].payload
  }

  /** While an acknowledgement repeats, the third one, and no other, resends the segment it asks for: the
      oldest in flight. It halves the window. */
  lemma {:induction false} ThirdDuplicateResends(s: Sender, window: nat, times: seq<real>)
    requires Contiguous(s) && InStep(s) && s.inFlight != [] && times != [] && NoneCounted(s, s.highestAck)
    ensures var (t, frames) := Repeated(s, s.highestAck, window, times);
            && SameNumbers(s, t) && t.lastDupAckSeq == s.highestAck && t.dupAcks == |times|
            && frames == (if |times| == 3 then [DataFrame(s.highestAck, s.inFlight[0].payload)] else [])
            && (|times| < 3 ==> t.cwnd == s.cwnd && t.ssthresh == s.ssthresh && t.mode == s.mode
                                && t.inFlight == s.inFlight && t.fastRetransmits == s.fastRetransmits)
            && (|times| >= 3 ==>
                  t.inFlight == s.inFlight[0 := s.inFlight[0].(sentAt := times[2], retransmitted := true)])
            && (|times| >= 3 ==> t.ssthresh == HalvedWindow(s.cwnd) && t.cwnd == t.ssthresh + 3.0
                                 && t.mode == FastRecovery && t.fastRetransmits == s.fastRetransmits + 1)
  {
    hide HalvedWindow, Pumped, PumpedFrames, Grown;
    var n := |times| - 1;
    var u := Repeated(s, s.highestAck, window, times[..n]).0;
    if n > 0 {
      ThirdDuplicateResends(s, window, times[..n]);
    }
    hide Repeated;
    assert SameNumbers(s, u);
    DuplicateCounts(u, window, times[n]);
  }

  lemma DuplicateCounts(s: Sender, window: nat, now: real)
    requires Contiguous(s) && InStep(s) && s.inFlight != []
    ensures var (t, frames) := OnAck(s, s.highestAck, window, now);
            && SameNumbers(s, t) && t.lastDupAckSeq == s.highestAck
            && t.dupAcks == (if s.lastDupAckSeq == s.highestAck then s.dupAcks + 1 else 1)
            && frames == (if t.dupAcks == 3 then [DataFrame(s.highestAck, s.inFlight[0].payload)] else [])
            && (t.dupAcks == 3 ==> t.inFlight == s.inFlight[0 := s.inFlight[0].(sentAt := now, retransmitted := true)])
            && (if t.dupAcks == 3 then t.ssthresh == HalvedWindow(s.cwnd) && t.cwnd == t.ssthresh + 3.0
                                       && t.mode == FastRecovery && t.fastRetransmits == s.fastRetransmits + 1
                else t.cwnd == s.cwnd && t.ssthresh == s.ssthresh && t.mode == s.mode && t.inFlight == s.inFlight
                     && t.fastRetransmits == s.fastRetransmits)
  {
    hide HalvedWindow, Pumped, PumpedFrames, Grown;
  }

  /** The first acknowledgement of something new ends fast recovery, at the halved window. */
  lemma RecoveryEnds(s: Sender, a: Ack)
    requires InStep(s) && s.highestAck < a.number <= s.nextSeq && s.mode.FastRecovery? && s.ssthresh >= 1.0
    ensures var t, n := OnAck(s, a.number, a.window, a.now).0, (a.number - s.highestAck) as real;
            t.mode == CongAvoid && t.ssthresh == s.ssthresh && t.cwnd == s.ssthresh + n / s.ssthresh && t.dupAcks == 0
  {
    var r := s.(rwnd := if a.window > 0 then a.window else DEFAULT_RWND);
    SamplesKeepWindow(r, r.inFlight[..AckedCount(r, a.number)], a.now);
    hide SampleRtts, PumpedFrames, Sendable;
  }

  // ---------- the window is used ----------

  /** The segments go out in these frames, numbered on from the last, and their time is noted. */
  ghost predicate SentNow(s: Sender, segments: seq<Segment>, frames: seq<Frame>, now: real) {
    && |frames| == |segments| <= |s.sendQueue|
    && (forall i :: 0 <= i < |segments| ==> segments[i] == Segment(s.nextSeq + i, s.sendQueue[i], now, false))
    && forall i :: 0 <= i < |segments| ==> frames[i] == DataFrame(s.nextSeq + i, s.sendQueue[i])
  }

  /** After sending, either nothing waits or the window is full; and nothing went out beyond it. What was
      sent comes first in the queue, in order. */
  lemma PumpFills(s: Sender, now: real)
    ensures var t, window := Pumped(s, now), MinReal(s.cwnd, s.rwnd as real);
            && (t.sendQueue == [] || |t.inFlight| as real >= window)
            && (t != s ==> |t.inFlight| as real < window + 1.0)
            && Payloads(t.inFlight) + t.sendQueue == Payloads(s.inFlight) + s.sendQueue
            && s.inFlight <= t.inFlight && t.nextSeq - s.nextSeq == |t.inFlight| - |s.inFlight|
    ensures SentNow(s, Pumped(s, now).inFlight[|s.inFlight|..], PumpedFrames(s), now)
  {
    var n := Sendable(s);
    assert s.sendQueue[..n] + s.sendQueue[n..] == s.sendQueue;
    assert Payloads(s.inFlight + Fresh(s.sendQueue[..n], s.nextSeq, now)) == Payloads(s.inFlight) + s.sendQueue[..n];
    if n == 0 {
      assert s.sendQueue[..0] == [] && s.sendQueue[0..] == s.sendQueue;
      assert Pumped(s, now) == s;
    }
  }

  /** Every acknowledgement sets the receive window; a window of zero stands for the default. */
  lemma AckSetsWindow(s: Sender, a: Ack)
    ensures OnAck(s, a.number, a.window, a.now).0.rwnd == if a.window > 0 then a.window else 256
  {
    var r := s.(rwnd := if a.window > 0 then a.window else DEFAULT_RWND);
    SamplesKeepWindow(r, r.inFlight[..AckedCount(r, a.number)], a.now);
    hide AckedCount, SampleRtts, PumpedFrames, Sendable, HalvedWindow, AdditiveIncrease, Buffers.Concat, Fresh;
  }

  /** When an acknowledgement is new, data goes out until nothing waits or the smaller window is full. */
  lemma AckFills(s: Sender, a: Ack)
    requires InStep(s) && s.highestAck < a.number <= s.nextSeq
    ensures var t := OnAck(s, a.number, a.window, a.now).0;
            t.sendQueue == [] || |t.inFlight| as real >= MinReal(t.cwnd, t.rwnd as real)
  {
    AllNew(s, a);
    var n, r := a.number - s.highestAck, s.(rwnd := if a.window > 0 then a.window else DEFAULT_RWND);
    var g := Grown(Accepted(r, a.number, a.now), n, a.number);
    hide OnAck, Grown, Accepted, MinReal, Payloads;
    PumpFills(g, a.now);
    assert Pumped(g, a.now).cwnd == g.cwnd && Pumped(g, a.now).rwnd == g.rwnd;
  }

  // ---------- the round-trip estimates ----------

  function Power(x: real, j: nat): real {
    if j == 0 then 1.0 else x * Power(x, j - 1)
  }

  /** The same round-trip time measured j times. */
  function Measured(s: Sender, sample: real, j: nat): Sender {
    if j == 0 then s else UpdateRtt(Measured(s, sample, j - 1), sample)
  }

  lemma {:induction false} PowerInRange(x: real, j: nat)
    requires 0.0 < x < 1.0
    ensures 0.0 < Power(x, j) <= 1.0
  {
    if j > 0 {
      PowerInRange(x, j - 1);
      assert x * Power(x, j - 1) <= x * 1.0;
    }
  }

  function Abs(x: real): real {
    if x < 0.0 then -x else x
  }

  /** From one value towards another, an eighth of the distance each time. */
  function Approaching(from: real, to: real, j: nat): real {
    to + (from - to) * Power(0.875, j)
  }

  /** The deviation j samples after the round trip has changed by `gap`. */
  function Settling(deviation: real, gap: real, j: nat): real {
    (deviation - 2.0 * gap) * Power(0.75, j) + 2.0 * gap * Power(0.875, j)
  }

  /** When the round-trip time has become `sample` and stays there, the estimate closes in on it by an
      eighth of the distance each time, and the deviation decays to nothing. */
  lemma {:induction false} EstimatesConverge(s: Sender, sample: real, j: nat)
    requires s.srtt > 0.0 && sample > 0.0
    ensures var t := Measured(s, sample, j);
            && t.srtt == Approaching(s.srtt, sample, j) > 0.0
            && t.rttVar == Settling(s.rttVar, Abs(s.srtt - sample), j)
  {
    if j == 0 {
      assert Power(0.75, 0) == Power(0.875, 0) == 1.0;
    } else {
      EstimatesConverge(s, sample, j - 1);
      ApproachOnce(s.srtt, sample, j);
      SettleOnce(s.srtt, sample, s.rttVar, j);
      hide Approaching, Settling;
    }
  }

  lemma ApproachOnce(from: real, to: real, j: nat)
    requires j > 0
    ensures Approaching(from, to, j) == 0.875 * Approaching(from, to, j - 1) + 0.125 * to
  {
  }

  lemma SettleOnce(from: real, to: real, deviation: real, j: nat)
    requires j > 0
    ensures Settling(deviation, Abs(from - to), j)
         == 0.75 * Settling(deviation, Abs(from - to), j - 1) + 0.25 * Abs(Approaching(from, to, j - 1) - to)
  {
    PowerInRange(0.875, j - 1);
    AbsOfPart(from - to, Power(0.875, j - 1));
  }

  lemma AbsOfPart(d: real, q: real)
    requires q > 0.0
    ensures Abs(d * q) == Abs(d) * q
  {
  }

  /** The timeout is the estimate and four deviations, within its limits. */
  lemma TimeoutFollows(s: Sender, sample: real, j: nat)
    requires j > 0
    ensures var t := Measured(s, sample, j);
            t.rto == MinReal(MAX_RTO_MS, MaxReal(MIN_RTO_MS, t.srtt + 4.0 * t.rttVar))
  {
  }

  /** From the first sample on: a steady round trip is the estimate at once, with half of it as the
      deviation, which shrinks by a quarter each time. */
  lemma FromFirstSample(s: Sender, sample: real, j: nat)
    requires s.srtt == 0.0 && sample > 0.0
    ensures var t := Measured(s, sample, j + 1);
            && t.srtt == sample && t.rttVar == 0.5 * sample * Power(0.75, j)
            && t.rto == MinReal(MAX_RTO_MS, MaxReal(MIN_RTO_MS, sample + 2.0 * sample * Power(0.75, j)))
  {
    var u := Measured(s, sample, 1);
    FirstSample(s, sample);
    EstimatesConverge(u, sample, j);
    NoGap(sample, j);
    MeasuredOnTop(s, sample, j);
    TimeoutFollows(s, sample, j + 1);
    hide *;
  }

  lemma NoGap(sample: real, j: nat)
    ensures Approaching(sample, sample, j) == sample
    ensures Settling(0.5 * sample, Abs(sample - sample), j) == 0.5 * sample * Power(0.75, j)
    ensures 4.0 * (0.5 * sample * Power(0.75, j)) == 2.0 * sample * Power(0.75, j)
  {
  }

  lemma FirstSample(s: Sender, sample: real)
    requires s.srtt == 0.0 && sample > 0.0
    ensures Measured(s, sample, 1).srtt == sample && Measured(s, sample, 1).rttVar == 0.5 * sample
  {
    assert Measured(s, sample, 0) == s;
  }

  lemma {:induction false} MeasuredOnTop(s: Sender, sample: real, j: nat)
    ensures Measured(Measured(s, sample, 1), sample, j) == Measured(s, sample, j + 1)
  {
    hide UpdateRtt;
    if j > 0 {
      MeasuredOnTop(s, sample, j - 1);
    }
  }

  /** Karn's rule: what was sent twice measures nothing. */
  lemma {:induction false} RetransmittedMeasureNothing(s: Sender, acked: seq<Segment>, now: real)
    requires forall seg :: seg in acked ==> seg.retransmitted
    ensures SampleRtts(s, acked, now) == s
  {
    if acked != [] {
      RetransmittedMeasureNothing(s, acked[..|acked| - 1], now);
    }
  }

  /** Segments sent once, all at the same time, measure that time each. */
  lemma {:induction false} SentOnceMeasure(s: Sender, acked: seq<Segment>, sent: real, now: real)
    requires forall seg :: seg in acked ==> !seg.retransmitted && seg.sentAt == sent
    ensures SampleRtts(s, acked, now) == Measured(s, now - sent, |acked|)
  {
    hide UpdateRtt;
    if acked != [] {
      SentOnceMeasure(s, acked[..|acked| - 1], sent, now);
    }
  }

  /** So an acknowledgement of segments that were all sent at one time takes one sample of the round trip
      for each; and one of retransmitted segments leaves the estimates and the timeout alone. */
  lemma AckMeasures(s: Sender, a: Ack, sent: real)
    requires InStep(s) && s.highestAck < a.number <= s.nextSeq
    ensures var n, t := a.number - s.highestAck, OnAck(s, a.number, a.window, a.now).0;
            && ((forall i :: 0 <= i < n ==> s.inFlight[i].retransmitted) ==>
                  SameEstimates(t, s))
            && ((forall i :: 0 <= i < n ==> !s.inFlight[i].retransmitted && s.inFlight[i].sentAt == sent) ==>
                  SameEstimates(t, Measured(s, a.now - sent, n)))
  {
    hide PumpedFrames, Sendable, Measured, SampleRtts;
    var n := a.number - s.highestAck;
    AckSamples(s, a);
    if forall i :: 0 <= i < n ==> s.inFlight[i].retransmitted {
      RetransmittedMeasureNothing(s, s.inFlight[..n], a.now);
    }
    if forall i :: 0 <= i < n ==> !s.inFlight[i].retransmitted && s.inFlight[i].sentAt == sent {
      SentOnceMeasure(s, s.inFlight[..n], sent, a.now);
    }
  }

  ghost predicate SameEstimates(s: Sender, t: Sender) {
    s.srtt == t.srtt && s.rttVar == t.rttVar && s.rto == t.rto
  }

  lemma AckSamples(s: Sender, a: Ack)
    requires InStep(s) && s.highestAck < a.number <= s.nextSeq
    ensures SameEstimates(OnAck(s, a.number, a.window, a.now).0,
                          SampleRtts(s, s.inFlight[..a.number - s.highestAck], a.now))
  {
    hide OnAck, SampleRtts, Pumped, Grown, Accepted, AckedCount;
    var r := s.(rwnd := if a.window > 0 then a.window else DEFAULT_RWND);
    var n := a.number - s.highestAck;
    AllNew(s, a);
    SameSamples(r, s, r.inFlight[..n], a.now);
    SamplesKept(r, n, a);
  }

  /** An acknowledgement of something new: accepted, then growth, then sending. */
  lemma AllNew(s: Sender, a: Ack)
    requires InStep(s) && s.highestAck < a.number <= s.nextSeq
    ensures var n, r := a.number - s.highestAck, s.(rwnd := if a.window > 0 then a.window else DEFAULT_RWND);
            && AckedCount(r, a.number) == n
            && OnAck(s, a.number, a.window, a.now).0 == Pumped(Grown(Accepted(r, a.number, a.now), n, a.number), a.now)
  {
    hide Pumped, PumpedFrames, Grown, Accepted;
  }

  lemma SamplesKept(r: Sender, n: nat, a: Ack)
    requires n == AckedCount(r, a.number) && r.highestAck < a.number
    ensures SameEstimates(Pumped(Grown(Accepted(r, a.number, a.now), n, a.number), a.now),
                          SampleRtts(r, r.inFlight[..n], a.now))
  {
    hide AckedCount, Sendable, SampleRtts, Fresh, AdditiveIncrease, Buffers.Concat, Payloads;
  }

  lemma {:induction false} SameSamples(r: Sender, s: Sender, acked: seq<Segment>, now: real)
    requires SameEstimates(r, s)
    ensures SameEstimates(SampleRtts(r, acked, now), SampleRtts(s, acked, now))
  {
    if acked != [] {
      SameSamples(r, s, acked[..|acked| - 1], now);
    }
  }
}
