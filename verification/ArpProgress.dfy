/** A connection never gets stuck: even if the network has lost every frame for good, the timers and the
    acknowledgements get everything delivered that the application handed over. Only the numbers can
    run out. */
module ArpProgress {
  import opened Bits
  import opened Buffers
  import opened ArpFrames
  import opened ArpSpec
  import opened ArpInvariants
  import opened ArpSession
  import opened ArpNetwork
  import opened Wrappers

  /** Data waits only behind data in flight. */
  ghost predicate NoStall(s: Sender) {
    s.inFlight == [] ==> s.sendQueue == []
  }

  /** The frames carry these payloads, under consecutive numbers. */
  ghost predicate Carries(frames: seq<Frame>, first: nat, payloads: seq<seq<byte>>) {
    forall i :: 0 <= i < |payloads| ==> DataFrame(first + i, payloads[i]) in frames
  }

  // ---------- every step keeps data moving ----------

  lemma PumpReleases(s: Sender, now: real)
    requires s.cwnd >= 1.0 && s.rwnd == DEFAULT_RWND
    ensures var t := Pumped(s, now);
            && NoStall(t) && t.nextSeq == s.nextSeq + Sendable(s) && t.sendQueue == s.sendQueue[Sendable(s)..]
            && (s.inFlight == [] && s.sendQueue != [] ==> Sendable(s) > 0)
    ensures Carries(PumpedFrames(s), s.nextSeq, s.sendQueue[..Sendable(s)])
  {
    var frames, n := PumpedFrames(s), Sendable(s);
    forall i | 0 <= i < n ensures DataFrame(s.nextSeq + i, s.sendQueue[..n][i]) in frames {
      assert frames[i] == DataFrame(s.nextSeq + i, s.sendQueue[i]);
    }
  }

  lemma EnqueueKeepsMoving(s: Sender, payload: seq<byte>, now: real)
    requires s.cwnd >= 1.0 && s.rwnd == DEFAULT_RWND && NoStall(s)
    ensures var t := Enqueue(s, payload, now).0; NoStall(t) && t.cwnd == s.cwnd && t.rwnd == s.rwnd
  {
    PumpReleases(Enqueued(s, payload), now);
  }

  lemma {:induction false} EnqueueAllKeepsMoving(s: Sender, payloads: seq<seq<byte>>, now: real)
    requires s.cwnd >= 1.0 && s.rwnd == DEFAULT_RWND && NoStall(s)
    ensures NoStall(EnqueueAll(s, payloads, now).0)
    decreases |payloads|
  {
    hide Enqueue, NoStall;
    if payloads != [] {
      EnqueueKeepsMoving(s, payloads[0], now);
      EnqueueAllKeepsMoving(Enqueue(s, payloads[0], now).0, payloads[1..], now);
    }
  }

  /** What an acknowledgement lets out. */
  lemma AckReleases(s: Sender, cumAck: nat, segs: seq<seq<byte>>, accepted: seq<byte>, clock: real, now: real)
      returns (released: seq<seq<byte>>)
    requires SenderInv(s, segs, accepted, clock) && 0.0 <= clock <= now && cumAck <= s.nextSeq && NoStall(s)
    ensures var (t, frames) := OnAck(s, cumAck, DEFAULT_RWND, now);
            && NoStall(t) && t.nextSeq == s.nextSeq + |released|
            && t.highestAck == (if cumAck < s.highestAck then s.highestAck else cumAck)
            && Carries(frames, s.nextSeq, released) && released + t.sendQueue == s.sendQueue
            && (cumAck == s.nextSeq && s.sendQueue != [] ==> released != [])
  {
    hide Accepted, Grown, DuplicateAck, Pumped, PumpedFrames;
    var n, t := AckedCount(s, cumAck), Accepted(s, cumAck, now);
    AcceptKeeps(s, cumAck, segs, accepted, clock, now);
    released := [];
    hide Concat, AckedCount;
    if n > 0 {
      var g := Grown(t, n, cumAck);
      GrowKeeps(t, n, cumAck, segs, accepted, now);
      GrownKeepsQueue(t, n, cumAck);
      PumpReleases(g, now);
      PumpedTakesQueue(g, now);
      released := g.sendQueue[..Sendable(g)];
    } else if t.inFlight != [] {
      DuplicateKeeps(t, cumAck, segs, accepted, now, now);
    }
  }

  lemma ActKeepsMoving(p: Peer, q: Peer, toP: Wire, toQ: Wire, ev: Event, clock: real, now: real)
    requires 0.0 <= clock <= now && (ev.Receive? ==> ev.buf in toP)
    requires Flow(p, q, toQ, toP, clock) && NoStall(p.end.sender)
    ensures NoStall(Act(p, ev, now).0.end.sender)
  {
    hide Concat, Decode, OnData, EnqueueAll, Tick, OnAck, Segments;
    match ev {
      case Send(bytes) => EnqueueAllKeepsMoving(p.end.sender, Segments(bytes), now);
      case Timer => TickKeeps(p.end.sender, p.segs, p.accepted, clock, now);
      case Receive(buf) =>
        if Decode(buf).Some? && Decode(buf).value.kind == FRAME_ACK {
          AckInWindow(buf, toP, q.end.receiver.expectedSeq);
          var _ := AckReleases(p.end.sender, Decode(buf).value.ack, p.segs, p.accepted, clock, now);
        }
    }
  }

  /** The invariant of module `ArpNetwork`, and neither side is stalled. */
  ghost predicate Ready(n: Net) {
    Inv(n) && NoStall(n.a.end.sender) && NoStall(n.b.end.sender)
  }

  lemma StepKeepsReady(n: Net, n': Net)
    requires Ready(n) && Step(n, n')
    ensures Ready(n')
  {
    StepKeepsInv(n, n');
    hide Flow, Act, NoStall;
    if !Loses(n, n') {
      var ev, now :| StepA(n, ev, now, n') || StepB(n, ev, now, n');
      if StepA(n, ev, now, n') {
        ActKeepsMoving(n.a, n.b, n.toA, n.toB, ev, n.clock, now);
      } else {
        ActKeepsMoving(n.b, n.a, n.toB, n.toA, ev, n.clock, now);
      }
    }
  }

  lemma InitiallyReady()
    ensures Ready(INITIAL_NET)
  {
    InitialNetInv();
    hide Inv;
  }

  lemma {:induction false} RunIsReady(run: seq<Net>, i: nat)
    requires IsRun(run) && i < |run|
    ensures Ready(run[i])
  {
    hide Ready, Step;
    if i == 0 {
      InitiallyReady();
    } else {
      RunIsReady(run, i - 1);
      StepKeepsReady(run[i - 1], run[i]);
    }
  }

  /** In every run, nothing is queued while nothing is in flight. */
  lemma NeverStalls(run: seq<Net>, i: nat)
    requires IsRun(run) && i < |run|
    ensures run[i].a.end.sender.inFlight == [] ==> run[i].a.end.sender.sendQueue == []
    ensures run[i].b.end.sender.inFlight == [] ==> run[i].b.end.sender.sendQueue == []
  {
    RunIsReady(run, i);
  }

  // ---------- paths without further loss ----------

  ghost predicate Path(path: seq<Net>, from: Net, to: Net) {
    && |path| > 0 && path[0] == from && path[|path| - 1] == to
    && forall i :: 0 <= i < |path| - 1 ==> Acts(path[i], path[i + 1])
  }

  lemma JoinPaths(p: seq<Net>, q: seq<Net>, a: Net, b: Net, c: Net)
    requires Path(p, a, b) && Path(q, b, c)
    ensures Path(p + q[1..], a, c)
  {
    hide Acts;
    var r := p + q[1..];
    forall i | 0 <= i < |r| - 1 ensures Acts(r[i], r[i + 1]) {
      if i >= |p| - 1 {
        assert r[i] == q[i - (|p| - 1)] && r[i + 1] == q[i - (|p| - 1) + 1];
      }
    }
  }

  lemma StepThenPath(n: Net, m: Net, rest: seq<Net>, n': Net)
    requires Acts(n, m) && Path(rest, m, n')
    ensures Path([n] + rest, n, n')
  {
    hide Acts;
    assert [n] + rest == [n, m] + rest[1..];
    JoinPaths([n, m], rest, n, m, n');
  }

  /** Only a's data moved: what b sends, and what a received of it, is as it was. */
  ghost predicate OneWay(n: Net, n': Net) {
    && n'.b.end.sender == n.b.end.sender && n'.b.segs == n.b.segs && n'.b.accepted == n.b.accepted
    && n'.a.end.receiver == n.a.end.receiver && n'.a.delivered == n.a.delivered && n'.a.accepted == n.a.accepted
  }

  // ---------- the timers put everything in flight on the wire again ----------

  /** The segments last sent no later than `start`. */
  ghost function Waiting(s: Sender, start: real): set<int> {
    set i | 0 <= i < |s.inFlight| && s.inFlight[i].sentAt <= start
  }

  /** All the others are on the wire. */
  ghost predicate ResentSince(s: Sender, start: real, data: Wire) {
    forall i :: 0 <= i < |s.inFlight| && s.inFlight[i].sentAt > start ==>
      Encoded(DataFrame(s.inFlight[i].seqNo, s.inFlight[i].payload)) in data
  }

  /** If some segment was last sent a timeout ago, the timer expires and resends one such. */
  lemma TimerResends(s: Sender, start: real, now: real, data: Wire)
    requires Waiting(s, start) != {} && now > start && now >= start + s.rto
    requires ResentSince(s, start, data)
    ensures var (t, frames) := Tick(s, now);
            && |Waiting(t, start)| < |Waiting(s, start)| && ResentSince(t, start, data + OnWire(frames))
            && t.sendQueue == s.sendQueue
  {
    hide HalvedWindow, MinReal, Encoded;
    var w :| w in Waiting(s, start);
    var o := Oldest(s.inFlight);
    var (t, frames) := Tick(s, now);
    assert s.inFlight[o].sentAt <= s.inFlight[w].sentAt;
    assert Waiting(t, start) == Waiting(s, start) - {o} && o in Waiting(s, start);
    assert DataFrame(s.inFlight[o].seqNo, s.inFlight[o].payload) in frames;
  }

  /** Everything numbered and not yet acknowledged is on the wire. */
  ghost predicate InFlightSent(p: Peer, data: Wire) {
    forall q :: p.end.sender.highestAck <= q < |p.segs| ==> Encoded(DataFrame(q, p.segs[q])) in data
  }

  lemma NobodyWaits(n: Net, start: real)
    requires Inv(n) && Waiting(n.a.end.sender, start) == {} && ResentSince(n.a.end.sender, start, n.toB)
    ensures InFlightSent(n.a, n.toB)
  {
    hide Encoded, Concat;
    var s := n.a.end.sender;
    forall q | s.highestAck <= q < |n.a.segs| ensures Encoded(DataFrame(q, n.a.segs[q])) in n.toB {
      var i := q - s.highestAck;
      assert i !in Waiting(s, start);
      assert s.inFlight[i].seqNo == q && s.inFlight[i].payload == n.a.segs[q];
    }
  }

  function NextTimeout(n: Net): real {
    n.clock + n.a.end.sender.rto + 1.0
  }

  /** a's timer fires, one timeout later. */
  function TimerFired(n: Net): Net {
    var now := NextTimeout(n);
    var (a, frames) := Act(n.a, Timer, now);
    Net(a, n.b, n.toA, n.toB + OnWire(frames), now)
  }

  lemma TimerActs(n: Net)
    requires n.a.end.sender.rto >= 0.0
    ensures Acts(n, TimerFired(n)) && OneWay(n, TimerFired(n)) && TimerFired(n).b == n.b
    ensures TimerFired(n).a.segs == n.a.segs
    ensures TimerFired(n).a.end.sender == Tick(n.a.end.sender, NextTimeout(n)).0
    ensures TimerFired(n).toB == n.toB + OnWire(Tick(n.a.end.sender, NextTimeout(n)).1)
  {
    hide Tick;
    assert StepA(n, Timer, NextTimeout(n), TimerFired(n));
  }

  lemma ResendAll(n: Net, start: real) returns (path: seq<Net>, n': Net)
    requires Ready(n) && start <= n.clock && ResentSince(n.a.end.sender, start, n.toB)
    ensures Path(path, n, n') && Ready(n') && OneWay(n, n') && InFlightSent(n'.a, n'.toB)
    ensures n'.a.segs == n.a.segs && n'.a.end.sender.sendQueue == n.a.end.sender.sendQueue
    decreases |Waiting(n.a.end.sender, start)|
  {
    if Waiting(n.a.end.sender, start) == {} {
      path, n' := [n], n;
      NobodyWaits(n, start);
    } else {
      RtoInRange(n);
      hide Inv, Ready, Act, Tick, Waiting, ResentSince, TimerFired, OnWire, Acts;
      var m := TimerFired(n);
      TimerActs(n);
      ActsIsStep(n, m);
      StepKeepsReady(n, m);
      TimerResends(n.a.end.sender, start, NextTimeout(n), n.toB);
      ClockAfterTimer(n);
      var rest;
      rest, n' := ResendAll(m, start);
      StepThenPath(n, m, rest, n');
      path := [n] + rest;
    }
  }

  lemma ClockAfterTimer(n: Net)
    ensures TimerFired(n).clock == NextTimeout(n)
  {
  }

  lemma RtoInRange(n: Net)
    requires Inv(n)
    ensures n.a.end.sender.rto >= 0.0
  {
    hide Concat;
  }

  lemma ActsIsStep(n: Net, n': Net)
    requires Acts(n, n')
    ensures Step(n, n')
  {
  }

  // ---------- then it all arrives ----------

  function AckFrame(n: nat): Frame {
    Frame(FRAME_ACK, 0, n, DEFAULT_RWND, [])
  }

  lemma DecodesToItself(f: Frame)
    requires f.kind < 0x100 && f.seqNo < 0x1_0000_0000 && f.ack < 0x1_0000_0000 && f.window < 0x1_0000
    ensures Decode(Encoded(f)) == Some(f)
  {
    DecodeEncoded(f);
    hide Decode, Encoded;
    assert Truncated(f) == f;
  }

  /** A segment no later than the next one expected is delivered or a duplicate, and acknowledged. */
  lemma ReceiveSegment(b: Peer, q: nat, payload: seq<byte>, now: real)
    requires q <= b.end.receiver.expectedSeq && q < 0x1_0000_0000 && b.end.receiver.rwnd == DEFAULT_RWND
    ensures var (b', frames) := Act(b, Receive(Encoded(DataFrame(q, payload))), now);
            && b'.end.sender == b.end.sender && b'.segs == b.segs && b'.accepted == b.accepted
            && b'.end.receiver.expectedSeq >= b.end.receiver.expectedSeq
            && (q == b.end.receiver.expectedSeq ==> b'.end.receiver.expectedSeq > q)
            && frames == [AckFrame(b'.end.receiver.expectedSeq)]
  {
    DecodesToItself(DataFrame(q, payload));
    hide Decode, Encoded, Concat, Run;
    assert b.segs + [] == b.segs;
  }

  lemma ExpectedInRange(n: Net)
    requires Inv(n)
    ensures n.a.end.sender.highestAck <= n.b.end.receiver.expectedSeq <= |n.a.segs| == n.a.end.sender.nextSeq
    ensures n.a.end.sender.inFlight != [] <==> n.a.end.sender.highestAck < |n.a.segs|
    ensures n.b.end.receiver.rwnd == DEFAULT_RWND
  {
    hide Concat;
  }

  /** The next segment in flight arrives - or the last one again, if only acknowledgements were lost. */
  lemma DeliverOne(n: Net) returns (n': Net)
    requires Inv(n) && InFlightSent(n.a, n.toB) && n.a.end.sender.inFlight != [] && |n.a.segs| <= 0x1_0000_0000
    ensures Acts(n, n') && n'.a == n.a && OneWay(n, n') && n'.toB == n.toB
    ensures var e, e' := n.b.end.receiver.expectedSeq, n'.b.end.receiver.expectedSeq;
            (if e < |n.a.segs| then e' > e else e' == e) && Encoded(AckFrame(e')) in n'.toA
  {
    ExpectedInRange(n);
    var e := n.b.end.receiver.expectedSeq;
    var q := if e < |n.a.segs| then e else |n.a.segs| - 1;
    assert Encoded(DataFrame(q, n.a.segs[q])) in n.toB;
    hide Inv, Act, Encoded, InFlightSent;
    ReceiveSegment(n.b, q, n.a.segs[q], n.clock);
    var (b, frames) := Act(n.b, Receive(Encoded(DataFrame(q, n.a.segs[q]))), n.clock);
    n' := Net(n.a, b, n.toA + OnWire(frames), n.toB, n.clock);
    assert StepB(n, Receive(Encoded(DataFrame(q, n.a.segs[q]))), n.clock, n');
    assert AckFrame(b.end.receiver.expectedSeq) in frames;
    StepKeepsInv(n, n');
    ExpectedInRange(n');
  }

  lemma DeliverInFlight(n: Net) returns (path: seq<Net>, n': Net)
    requires Ready(n) && InFlightSent(n.a, n.toB) && n.a.end.sender.inFlight != [] && |n.a.segs| <= 0x1_0000_0000
    ensures Path(path, n, n') && Ready(n') && n'.a == n.a && OneWay(n, n')
    ensures n'.b.end.receiver.expectedSeq == |n.a.segs| && Encoded(AckFrame(|n.a.segs|)) in n'.toA
    decreases |n.a.segs| - n.b.end.receiver.expectedSeq
  {
    ExpectedInRange(n);
    var m := DeliverOne(n);
    hide Inv, Acts, Encoded, NoStall;
    ActsIsStep(n, m);
    StepKeepsReady(n, m);
    ExpectedInRange(m);
    hide Ready;
    if m.b.end.receiver.expectedSeq == |n.a.segs| {
      path, n' := [n, m], m;
    } else {
      var rest;
      rest, n' := DeliverInFlight(m);
      StepThenPath(n, m, rest, n');
      path := [n] + rest;
    }
  }

  /** The acknowledgement of everything in flight arrives, and lets out more of what is queued. */
  lemma Acknowledge(n: Net) returns (n': Net)
    requires Inv(n) && NoStall(n.a.end.sender) && |n.a.segs| < 0x1_0000_0000 && n.a.end.sender.sendQueue != []
    requires Encoded(AckFrame(|n.a.segs|)) in n.toA
    ensures Acts(n, n') && OneWay(n, n') && InFlightSent(n'.a, n'.toB)
    ensures |n'.a.segs| + |n'.a.end.sender.sendQueue| == |n.a.segs| + |n.a.end.sender.sendQueue|
    ensures |n'.a.end.sender.sendQueue| < |n.a.end.sender.sendQueue|
  {
    var s, e := n.a.end.sender, |n.a.segs|;
    ExpectedInRange(n);
    var released := AckReleases(s, e, n.a.segs, n.a.accepted, n.clock, n.clock);
    var (t, sent) := OnAck(s, e, DEFAULT_RWND, n.clock);
    DecodesToItself(AckFrame(e));
    ActOnAck(n.a, e, released, n.clock);
    hide Inv, NoStall, OnAck, Decode, Encoded, Act;
    var (a, frames) := Act(n.a, Receive(Encoded(AckFrame(e))), n.clock);
    n' := Net(a, n.b, n.toA, n.toB + OnWire(frames), n.clock);
    assert StepA(n, Receive(Encoded(AckFrame(e))), n.clock, n');
    assert |released| + |t.sendQueue| == |s.sendQueue|;
    ReleasedAreSent(n.a, a, released, frames, n.toB);
  }

  lemma ActOnAck(p: Peer, e: nat, released: seq<seq<byte>>, now: real)
    requires Decode(Encoded(AckFrame(e))) == Some(AckFrame(e))
    requires var t := OnAck(p.end.sender, e, DEFAULT_RWND, now).0;
             t.nextSeq == p.end.sender.nextSeq + |released| && released + t.sendQueue == p.end.sender.sendQueue
    ensures var (t, frames) := OnAck(p.end.sender, e, DEFAULT_RWND, now);
            Act(p, Receive(Encoded(AckFrame(e))), now)
              == (Peer(p.end.(sender := t), p.accepted, p.delivered, p.segs + released), frames)
  {
    hide Decode, Encoded, OnAck, Concat;
    assert p.delivered + [] == p.delivered;
    assert p.end.sender.sendQueue[..|released|] == released;
  }

  lemma ReleasedAreSent(p: Peer, p': Peer, released: seq<seq<byte>>, frames: seq<Frame>, data: Wire)
    requires p'.segs == p.segs + released && Carries(frames, |p.segs|, released)
    requires p'.end.sender.highestAck >= |p.segs|
    ensures InFlightSent(p', data + OnWire(frames))
  {
    forall q | p'.end.sender.highestAck <= q < |p'.segs|
      ensures Encoded(DataFrame(q, p'.segs[q])) in data + OnWire(frames)
    {
      var i := q - |p.segs|;
      assert DataFrame(|p.segs| + i, released[i]) in frames;
    }
  }

  lemma NothingLeft(n: Net)
    requires Inv(n) && n.a.end.sender.sendQueue == [] && n.b.end.receiver.expectedSeq == |n.a.segs|
    ensures n.b.delivered == n.a.accepted
  {
    assert n.a.segs[..|n.a.segs|] == n.a.segs;
    ConcatNone(n.a.end.sender.sendQueue);
    hide Concat;
  }

  lemma DeliverQueued(n: Net) returns (path: seq<Net>, n': Net)
    requires Ready(n) && InFlightSent(n.a, n.toB)
    requires |n.a.segs| + |n.a.end.sender.sendQueue| <= 0x1_0000_0000
    ensures Path(path, n, n') && Ready(n') && OneWay(n, n') && n'.b.delivered == n.a.accepted
    decreases |n.a.end.sender.sendQueue|
  {
    ExpectedInRange(n);
    hide Inv, InFlightSent, Acts, Encoded;
    if n.a.end.sender.inFlight == [] {
      path, n' := [n], n;
      NothingLeft(n);
    } else {
      var p, m := DeliverInFlight(n);
      if m.a.end.sender.sendQueue == [] {
        path, n' := p, m;
        NothingLeft(m);
      } else {
        var m' := Acknowledge(m);
        ActsIsStep(m, m');
        StepKeepsReady(m, m');
        hide Ready;
        var rest;
        rest, n' := DeliverQueued(m');
        StepThenPath(m, m', rest, n');
        JoinPaths(p, [m] + rest, n, m, n');
        path := p + ([m] + rest)[1..];
      }
    }
  }

  /** Everything a was given reaches b, by retransmission if need be. */
  lemma DeliverAll(n: Net) returns (path: seq<Net>, n': Net)
    requires Ready(n) && |n.a.segs| + |n.a.end.sender.sendQueue| <= 0x1_0000_0000
    ensures Path(path, n, n') && Ready(n') && OneWay(n, n') && n'.b.delivered == n.a.accepted
  {
    NothingResent(n);
    hide Inv, Ready, Acts, InFlightSent, ResentSince;
    var p, m := ResendAll(n, n.clock);
    var q;
    q, n' := DeliverQueued(m);
    JoinPaths(p, q, n, m, n');
    path := p + q[1..];
  }

  lemma NothingResent(n: Net)
    requires Inv(n)
    ensures ResentSince(n.a.end.sender, n.clock, n.toB)
  {
    hide Concat, Encoded;
  }

  // ---------- both ways ----------

  function Mirror(n: Net): Net {
    Net(n.b, n.a, n.toB, n.toA, n.clock)
  }

  lemma MirrorActs(n: Net, n': Net)
    requires Acts(n, n')
    ensures Acts(Mirror(n), Mirror(n'))
  {
    hide Act;
    var ev, now :| StepA(n, ev, now, n') || StepB(n, ev, now, n');
    assert StepA(n, ev, now, n') ==> StepB(Mirror(n), ev, now, Mirror(n'));
    assert StepB(n, ev, now, n') ==> StepA(Mirror(n), ev, now, Mirror(n'));
  }

  function Mirrored(path: seq<Net>): (r: seq<Net>)
    ensures |r| == |path|
  {
    seq(|path|, i requires 0 <= i < |path| => Mirror(path[i]))
  }

  lemma MirrorPath(path: seq<Net>, from: Net, to: Net)
    requires Path(path, from, to)
    ensures Path(Mirrored(path), Mirror(from), Mirror(to))
  {
    hide Acts;
    forall i | 0 <= i < |path| - 1 ensures Acts(Mirrored(path)[i], Mirrored(path)[i + 1]) {
      MirrorActs(path[i], path[i + 1]);
    }
  }

  lemma MirrorReady(n: Net)
    requires Ready(n)
    ensures Ready(Mirror(n))
  {
    hide Flow, NoStall;
  }

  /** Both sides deliver everything, without any further loss. */
  lemma DeliverBothWays(n: Net) returns (path: seq<Net>, n': Net)
    requires Ready(n)
    requires |n.a.segs| + |n.a.end.sender.sendQueue| <= 0x1_0000_0000
    requires |n.b.segs| + |n.b.end.sender.sendQueue| <= 0x1_0000_0000
    ensures Path(path, n, n')
    ensures n'.a.accepted == n.a.accepted == n'.b.delivered && n'.b.accepted == n.b.accepted == n'.a.delivered
  {
    hide Ready, Acts;
    var p, m := DeliverAll(n);
    MirrorReady(m);
    var q, k := DeliverAll(Mirror(m));
    MirrorPath(q, Mirror(m), k);
    JoinPaths(p, Mirrored(q), n, m, Mirror(k));
    path, n' := p + Mirrored(q)[1..], Mirror(k);
  }

  /** Every frame on its way is lost. */
  function Silenced(n: Net): Net {
    n.(toA := {}, toB := {})
  }

  /** Recovery: at any moment of any run, let the network lose every frame for good. As long as the
      numbers last, the sessions can still go on so that both sides receive all that was handed over -
      and with every frame gone, it is the timers that make them. */
  lemma LossIsRecovered(run: seq<Net>) returns (more: seq<Net>)
    requires IsRun(run)
    requires var n := run[|run| - 1];
             && |n.a.segs| + |n.a.end.sender.sendQueue| <= 0x1_0000_0000
             && |n.b.segs| + |n.b.end.sender.sendQueue| <= 0x1_0000_0000
    ensures var n := run[|run| - 1];
            && |more| > 0 && Path(more, Silenced(n), more[|more| - 1]) && IsRun(run + more)
            && var n' := more[|more| - 1];
               && n'.a.accepted == n.a.accepted == n'.b.delivered
               && n'.b.accepted == n.b.accepted == n'.a.delivered
  {
    var n := run[|run| - 1];
    RunIsReady(run, |run| - 1);
    hide Ready, Acts;
    LossIsStep(n);
    StepKeepsReady(n, Silenced(n));
    var n';
    more, n' := DeliverBothWays(Silenced(n));
    RunGoesOn(run, more, n');
  }

  lemma LossIsStep(n: Net)
    ensures Step(n, Silenced(n))
  {
    hide Acts;
    assert Loses(n, Silenced(n));
  }

  lemma RunGoesOn(run: seq<Net>, path: seq<Net>, n': Net)
    requires IsRun(run) && Path(path, Silenced(run[|run| - 1]), n')
    ensures IsRun(run + path)
  {
    hide Acts, Loses;
    var all := run + path;
    forall i | 0 <= i < |all| - 1 ensures Step(all[i], all[i + 1]) {
      if i < |run| - 1 {
        assert all[i] == run[i] && all[i + 1] == run[i + 1];
      } else if i == |run| - 1 {
        LossIsStep(run[i]);
      } else {
        assert all[i] == path[i - |run|] && all[i + 1] == path[i - |run| + 1];
      }
    }
  }
}
