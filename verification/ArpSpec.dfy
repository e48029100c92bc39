/** What each call does to the state of a transport endpoint. The classes of module `ArpProtocol`
    are proved to take exactly these steps; the theorems about whole runs speak of them. */
module ArpSpec {
  import opened Bits
  import opened Buffers
  import opened ArpFrames

  const MSS := 1024
  const INITIAL_CWND := 1.0
  const INITIAL_SSTHRESH := 64.0
  const INITIAL_RTO_MS := 1000.0
  const MIN_RTO_MS := 100.0
  const MAX_RTO_MS := 30000.0
  const DUP_ACK_THRESHOLD := 3
  const DEFAULT_RWND := 256

  datatype Mode = SlowStart | CongAvoid | FastRecovery

  datatype Segment = Segment(seqNo: nat, payload: seq<byte>, sentAt: real, retransmitted: bool)

  /** The fields of the sender; `inFlight` lists the entries of the insertion-ordered map. */
  datatype Sender = Sender(
    cwnd: real, ssthresh: real, srtt: real, rttVar: real, rto: real, mode: Mode,
    bytesAcked: nat, bytesSent: nat, retransmits: nat, fastRetransmits: nat, rtoExpiries: nat, dupAcks: nat,
    inFlight: seq<Segment>, sendQueue: seq<seq<byte>>, nextSeq: nat, highestAck: nat, lastDupAckSeq: int, rwnd: nat)

  const INITIAL_SENDER := Sender(
    INITIAL_CWND, INITIAL_SSTHRESH, 0.0, 0.0, INITIAL_RTO_MS, SlowStart,
    0, 0, 0, 0, 0, 0, [], [], 0, 0, -1, DEFAULT_RWND)

  /** The segments in flight carry consecutive sequence numbers that end just below `nextSeq`. */
  ghost predicate Contiguous(s: Sender) {
    && |s.inFlight| <= s.nextSeq
    && forall i :: 0 <= i < |s.inFlight| ==> s.inFlight[i].seqNo == s.nextSeq - |s.inFlight| + i
  }

  function DataFrame(seqNo: nat, payload: seq<byte>): Frame {
    Frame(FRAME_DATA, seqNo, 0, DEFAULT_RWND, payload)
  }

  function MinReal(a: real, b: real): real { if b < a then b else a }

  function MaxReal(a: real, b: real): real { if b > a then b else a }

  function Clamp(x: int, hi: nat): (n: nat)
    ensures n <= hi
  {
    if x < 0 then 0 else if x < hi then x else hi
  }

  // ---------- sending ----------

  /** The least integer that is at least x. */
  function Ceil(x: real): int {
    -(-x).Floor
  }

  /** How many queued segments the congestion and receive windows let out. */
  function Sendable(s: Sender): (n: nat)
    ensures n <= |s.sendQueue|
  {
    Clamp(Ceil(MinReal(s.cwnd, s.rwnd as real)) - |s.inFlight|, |s.sendQueue|)
  }

  function Fresh(payloads: seq<seq<byte>>, first: nat, now: real): (segments: seq<Segment>)
    ensures |segments| == |payloads|
  {
    seq(|payloads|, i requires 0 <= i < |payloads| => Segment(first + i, payloads[i], now, false))
  }

  /** The state after the first n queued segments have gone out. */
  function Released(s: Sender, n: nat, now: real): Sender
    requires n <= |s.sendQueue|
  {
    s.(inFlight := s.inFlight + Fresh(s.sendQueue[..n], s.nextSeq, now),
       sendQueue := s.sendQueue[n..],
       nextSeq := s.nextSeq + n,
       bytesSent := s.bytesSent + |Concat(s.sendQueue[..n])|)
  }

  function ReleasedFrames(s: Sender, n: nat): (frames: seq<Frame>)
    requires n <= |s.sendQueue|
    ensures |frames| == n
  {
    seq(n, i requires 0 <= i < n => DataFrame(s.nextSeq + i, s.sendQueue[i]))
  }

  function Pumped(s: Sender, now: real): Sender {
    Released(s, Sendable(s), now)
  }

  function PumpedFrames(s: Sender): seq<Frame> {
    ReleasedFrames(s, Sendable(s))
  }

  function Enqueued(s: Sender, payload: seq<byte>): Sender {
    s.(sendQueue := s.sendQueue + [payload])
  }

  function Enqueue(s: Sender, payload: seq<byte>, now: real): (Sender, seq<Frame>) {
    if payload == [] then (s, [])
    else (Pumped(Enqueued(s, payload), now), PumpedFrames(Enqueued(s, payload)))
  }

  // ---------- acknowledgements ----------

  function UpdateRtt(s: Sender, sample: real): Sender {
    var rttVar := if s.srtt == 0.0 then sample / 2.0
                  else 0.75 * s.rttVar + 0.25 * (if s.srtt < sample then sample - s.srtt else s.srtt - sample);
    var srtt := if s.srtt == 0.0 then sample else 0.875 * s.srtt + 0.125 * sample;
    s.(srtt := srtt, rttVar := rttVar, rto := MinReal(MAX_RTO_MS, MaxReal(MIN_RTO_MS, srtt + 4.0 * rttVar)))
  }

  /** One round-trip sample for each acknowledged segment that was sent only once. */
  function SampleRtts(s: Sender, acked: seq<Segment>, now: real): Sender {
    if acked == [] then s
    else
      var t, last := SampleRtts(s, acked[..|acked| - 1], now), acked[|acked| - 1];
      if last.retransmitted then t else UpdateRtt(t, now - last.sentAt)
  }

  function Payloads(segments: seq<Segment>): (p: seq<seq<byte>>)
    ensures |p| == |segments|
  {
    seq(|segments|, i requires 0 <= i < |segments| => segments[i].payload)
  }

  function AckedCount(s: Sender, cumAck: nat): (n: nat)
    ensures n <= |s.inFlight|
  {
    if cumAck <= s.highestAck then 0 else Clamp(cumAck - (s.nextSeq - |s.inFlight|), |s.inFlight|)
  }

  function Accepted(s: Sender, cumAck: nat, now: real): Sender {
    if cumAck <= s.highestAck then s
    else
      var n := AckedCount(s, cumAck);
      SampleRtts(s, s.inFlight[..n], now).(
        bytesAcked := s.bytesAcked + |Concat(Payloads(s.inFlight[..n]))|,
        inFlight := s.inFlight[n..],
        highestAck := cumAck)
  }

  function AdditiveIncrease(cwnd: real, n: nat): real {
    n as real / MaxReal(cwnd, 1.0)
  }

  /** Window growth for n newly acknowledged segments, leaving fast recovery first. */
  function Grown(s: Sender, n: nat, cumAck: nat): Sender {
    var cwnd := if s.mode == FastRecovery then s.ssthresh else s.cwnd;
    var t := s.(dupAcks := 0, lastDupAckSeq := cumAck);
    if cwnd < s.ssthresh then t.(mode := SlowStart, cwnd := cwnd + n as real)
    else t.(mode := CongAvoid, cwnd := cwnd + AdditiveIncrease(cwnd, n))
  }

  function Retransmit(s: Sender, i: nat, now: real): (Sender, seq<Frame>)
    requires i < |s.inFlight|
  {
    var seg := s.inFlight[i];
    (s.(inFlight := s.inFlight[i := seg.(sentAt := now, retransmitted := true)], retransmits := s.retransmits + 1),
     [DataFrame(seg.seqNo, seg.payload)])
  }

  function HalvedWindow(cwnd: real): real {
    MaxReal((cwnd / 2.0).Floor as real, 2.0)
  }

  function FastRetransmit(s: Sender, cumAck: nat, now: real): (Sender, seq<Frame>) {
    var i := cumAck - (s.nextSeq - |s.inFlight|);
    if !(0 <= i < |s.inFlight|) then (s, [])
    else
      var half := HalvedWindow(s.cwnd);
      Retransmit(s.(ssthresh := half, cwnd := half + DUP_ACK_THRESHOLD as real, mode := FastRecovery,
                    fastRetransmits := s.fastRetransmits + 1), i, now)
  }

  function DuplicateAck(s: Sender, cumAck: nat, now: real): (Sender, seq<Frame>) {
    var t := if cumAck == s.lastDupAckSeq then s.(dupAcks := s.dupAcks + 1)
             else s.(dupAcks := 1, lastDupAckSeq := cumAck);
    if t.dupAcks == DUP_ACK_THRESHOLD then FastRetransmit(t, cumAck, now) else (t, [])
  }

  function OnAck(s: Sender, cumAck: nat, advertisedWindow: nat, now: real): (Sender, seq<Frame>) {
    var r := s.(rwnd := if advertisedWindow > 0 then advertisedWindow else DEFAULT_RWND);
    var n, t := AckedCount(r, cumAck), Accepted(r, cumAck, now);
    if n > 0 then
      var g := Grown(t, n, cumAck);
      (Pumped(g, now), PumpedFrames(g))
    else if t.inFlight == [] then (t, [])
    else DuplicateAck(t, cumAck, now)
  }

  // ---------- the retransmission timer ----------

  /** The first segment with the least send time. */
  ghost predicate IsOldest(segments: seq<Segment>, i: nat) {
    && i < |segments|
    && (forall j :: 0 <= j < i ==> segments[j].sentAt > segments[i].sentAt)
    && (forall j :: i < j < |segments| ==> segments[j].sentAt >= segments[i].sentAt)
  }

  function Oldest(segments: seq<Segment>): (i: nat)
    requires segments != []
    ensures IsOldest(segments, i)
  {
    if |segments| == 1 then 0
    else
      var n := |segments| - 1;
      var i := Oldest(segments[..n]);
      if segments[n].sentAt < segments[i].sentAt then n else i
  }

  predicate Expires(s: Sender, now: real) {
    s.inFlight != [] && now - s.inFlight[Oldest(s.inFlight)].sentAt >= s.rto
  }

  /** The hard reset on a timeout, with the timer backed off. */
  function TimedOut(s: Sender): Sender {
    s.(ssthresh := HalvedWindow(s.cwnd), cwnd := INITIAL_CWND, mode := SlowStart,
       rtoExpiries := s.rtoExpiries + 1, dupAcks := 0, rto := MinReal(s.rto * 2.0, MAX_RTO_MS))
  }

  function Tick(s: Sender, now: real): (Sender, seq<Frame>) {
    if !Expires(s, now) then (s, [])
    else Retransmit(TimedOut(s), Oldest(s.inFlight), now)
  }

  // ---------- the receiver ----------

  datatype Receiver = Receiver(expectedSeq: nat, bytesDelivered: nat, duplicates: nat, outOfOrder: map<nat, seq<byte>>,
                               rwnd: nat)

  const INITIAL_RECEIVER := Receiver(0, 0, 0, map[], DEFAULT_RWND)

  /** Payloads buffered under `from`, `from` + 1, ... up to the first gap. */
  function Run(buffer: map<nat, seq<byte>>, from: nat): seq<seq<byte>>
    decreases |buffer|
  {
    if from in buffer then [buffer[from]] + Run(buffer - {from}, from + 1) else []
  }

  /** The receiver's next state, the payloads delivered, and its cumulative acknowledgement. */
  function OnData(r: Receiver, f: Frame): (Receiver, seq<seq<byte>>, Frame) {
    var (t, delivered) :=
      if f.seqNo < r.expectedSeq then (r.(duplicates := r.duplicates + 1), [])
      else if f.seqNo == r.expectedSeq then
        var run := Run(r.outOfOrder, r.expectedSeq + 1);
        var next := r.expectedSeq + 1 + |run|;
        (r.(expectedSeq := next,
            outOfOrder := map q | q in r.outOfOrder && !(r.expectedSeq < q < next) :: r.outOfOrder[q],
            bytesDelivered := r.bytesDelivered + |Concat([f.payload] + run)|),
         [f.payload] + run)
      else if f.seqNo in r.outOfOrder then (r, [])
      else (r.(outOfOrder := r.outOfOrder[f.seqNo := f.payload]), []);
    (t, delivered, Frame(FRAME_ACK, 0, t.expectedSeq, t.rwnd, []))
  }
}
